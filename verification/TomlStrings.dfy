/** The lexer's string states against the scan of module TomlQuoting, and so the whole way of a
    string: written by the encoder, lexed, and resolved by the parser. */
module TomlStrings {
  import opened TomlItems
  import opened TomlText
  import opened TomlLexer
  import Q = TomlQuoting

  /** The code points of an input from position k on. */
  function Text(input: seq<Unit>, k: nat): (s: string)
    requires k <= |input| && forall i :: k <= i < |input| ==> input[i].Rune?
    ensures |s| == |input| - k && forall i :: 0 <= i < |s| ==> s[i] == input[k + i].c
  {
    seq(|input| - k, i requires 0 <= i < |input| - k => input[k + i].c)
  }

  predicate AllRunes(input: seq<Unit>) { forall i :: 0 <= i < |input| ==> input[i].Rune? }

  lemma TextFrom(input: seq<Unit>, k: nat, n: nat)
    requires AllRunes(input) && k + n <= |input|
    ensures Text(input, k)[n..] == Text(input, k + n)
  {
  }

  /** The scan of one escape, in the terms of the lexer. */
  lemma EscapeScan(lx: Lexer, p: nat)
    requires AllRunes(lx.input) && p <= |lx.input|
    ensures Q.Escaped(Text(lx.input, p)) ==
      if p == |lx.input| || !StartsEscape(lx.input[p].c) then 0
      else if lx.input[p].c == 'u' then (if lx.HexAhead(p + 1, 4) then 5 else 0)
      else if lx.input[p].c == 'U' then (if lx.HexAhead(p + 1, 8) then 9 else 0)
      else 1
    ensures p < |lx.input| && StartsEscape(lx.input[p].c) ==> lx.Readable(p)
  {
    var s := Text(lx.input, p);
    if s != [] {
      assert |s| >= 5 ==> ((forall i :: 1 <= i < 5 ==> IsHex(s[i])) <==> lx.HexAhead(p + 1, 4)) by { HexScan(lx, p, 4); }
      assert |s| >= 9 ==> ((forall i :: 1 <= i < 9 ==> IsHex(s[i])) <==> lx.HexAhead(p + 1, 8)) by { HexScan(lx, p, 8); }
    }
  }

  lemma HexScan(lx: Lexer, p: nat, n: nat)
    requires AllRunes(lx.input) && p < |lx.input|
    ensures lx.HexAhead(p + 1, n) <==> p + 1 + n <= |lx.input| && forall i :: 1 <= i < n + 1 ==> IsHex(Text(lx.input, p)[i])
  {
    var s := Text(lx.input, p);
    if p + 1 + n <= |lx.input| && forall i :: 1 <= i < n + 1 ==> IsHex(s[i]) {
      forall k | p + 1 <= k < p + 1 + n ensures lx.input[k].Rune? && IsHex(lx.input[k].c) {
        assert s[k - p] == lx.input[k].c;
      }
    }
    if lx.HexAhead(p + 1, n) {
      forall i | 1 <= i < n + 1 ensures IsHex(s[i]) {
        assert s[i] == lx.input[p + i].c;
      }
    }
  }

  lemma EscapeStack(lx: Lexer)
    requires lx.At(StringEscape)
    ensures |lx.stack| > 0 && lx.pos <= |lx.input| && (Last(lx.stack) == String || Last(lx.stack) == MultilineString)
  {
    PopEscape(lx.stack, lx.want);
  }

  lemma StringStack(lx: Lexer)
    requires lx.At(String)
    ensures |lx.stack| > 0 && lx.pos <= |lx.input|
  {
    PopString(lx.stack, lx.want);
  }

  /** One escape: lexStringEscape, and the state for its digits if it has any. It ends where the
      scan says, or fails when the scan refuses it. */
  method RunEscape(lx: Lexer) returns (r: State)
    requires lx.At(StringEscape) && !lx.tomlNext && AllRunes(lx.input)
    modifies lx
    ensures Q.Escaped(Text(lx.input, old(lx.pos))) == 0 ==> lx.done && lx.Stopped()
    ensures Q.Escaped(Text(lx.input, old(lx.pos))) > 0 ==>
      !lx.done && lx.At(r) && lx.pos == old(lx.pos) + Q.Escaped(Text(lx.input, old(lx.pos)))
    ensures !lx.done ==> |old(lx.stack)| > 0 && r == Last(old(lx.stack)) && lx.stack == Below(old(lx.stack))
    ensures !lx.done ==> lx.items == old(lx.items) && lx.start == old(lx.start) && lx.esc
  {
    hide Q.Escaped, Lexer.At, Shape, InValue, InKey, InHeader, InName, InString, InEscape, InComment, NameAwaits, Understood, Take, Rest, Slot, KeyWant, HeaderWant, NameWant, Back, Passed, Newlines, Orderly, PlaceOf, Rank;
    EscapeStack(lx);
    EscapeScan(lx, lx.pos);
    r := lx.LexStringEscape();
    if lx.done {
      return;
    }
    if r == ShortUnicodeEscape {
      r := lx.LexShortUnicodeEscape();
    } else if r == LongUnicodeEscape {
      r := lx.LexLongUnicodeEscape();
    }
  }

  /** One turn of lexString, with the escape it may have to read: it stops where the scan stops, closes
      the string where the scan closes it, and otherwise moves on as the scan does. */
  method StringTurn(lx: Lexer) returns (r: State, closed: bool)
    requires lx.At(String) && !lx.tomlNext && AllRunes(lx.input)
    modifies lx
    ensures lx.done ==> Q.Closing(Text(lx.input, old(lx.pos))).None? && lx.Stopped()
    ensures !lx.done && closed ==>
      Q.Closing(Text(lx.input, old(lx.pos))) == Q.Some(0) && lx.pos == old(lx.pos) + 1 && lx.At(r)
      && |old(lx.stack)| > 0 && r == Last(old(lx.stack)) && lx.stack == Below(old(lx.stack))
      && |lx.items| == |old(lx.items)| + 1
      && lx.Holds(lx.items[|lx.items| - 1], if old(lx.esc) then ItemStringEsc else ItemString, old(lx.start), old(lx.pos))
    ensures !lx.done && !closed ==>
      r == String && lx.At(String) && old(lx.pos) < lx.pos <= |lx.input|
      && lx.stack == old(lx.stack) && lx.items == old(lx.items) && lx.start == old(lx.start)
    ensures !lx.done && !closed ==>
      Q.Closing(Text(lx.input, old(lx.pos))) == Q.Later(lx.pos - old(lx.pos), Q.Closing(Text(lx.input, lx.pos)))
    ensures !lx.done && !closed ==>
      (if lx.input[old(lx.pos)] == Rune('\\') then lx.esc else lx.esc == old(lx.esc) && lx.pos == old(lx.pos) + 1)
  {
    hide Q.Escaped, Q.Closing, Lexer.At, Shape, InValue, InKey, InHeader, InName, InString, InEscape, InComment, NameAwaits, Understood, Take, Rest, Slot, KeyWant, HeaderWant, NameWant, Back, Passed, Newlines, Orderly, PlaceOf, Rank;
    var p := lx.pos;
    StringStack(lx);
    ScanStep(lx.input, p);
    closed := false;
    r := lx.LexString();
    if lx.done {
      return;
    }
    if lx.input[p].c == '"' {
      closed := true;
    } else if r == StringEscape {
      PushedString(lx, old(lx.stack));
      r := RunEscape(lx);
    }
    if !lx.done && !closed { StringStack(lx); }
  }

  lemma PushedString(lx: Lexer, s: seq<State>)
    ensures Last(s + [String]) == String && Below(s + [String]) == s
  {
  }

  /** The states of a basic string, from behind the opening quote: the text item ends exactly where
      the scan finds the closing quote, and is marked as escaped exactly when it has a backslash;
      if the scan finds none, the run ends in an error. */
  method RunString(lx: Lexer) returns (r: State)
    requires lx.At(String) && !lx.tomlNext && !lx.esc && AllRunes(lx.input) && lx.start == lx.pos
    modifies lx
    ensures Q.Closing(Text(lx.input, old(lx.pos))).None? ==> lx.done && lx.Stopped()
    ensures Q.Closing(Text(lx.input, old(lx.pos))).Some? ==>
      !lx.done && lx.At(r) && Closed(lx, r, Q.Closing(Text(lx.input, old(lx.pos))).value)
  {
    hide Q.Escaped, Q.Closing, Slashed, Lexer.At, Shape, InValue, InKey, InHeader, InName, InString, InEscape, InComment, NameAwaits, Understood, Take, Rest, Slot, KeyWant, HeaderWant, NameWant, Back, Passed, Newlines, Orderly, PlaceOf, Rank;
    StringStack(lx);
    ghost var p0 := lx.pos;
    ghost var whole := Q.Closing(Text(lx.input, p0));
    NotSlashed(lx.input, p0);
    r := String;
    var closed := false;
    ghost var n := 0;
    while !closed
      invariant !closed ==> lx.At(String) && p0 + n == lx.pos <= |lx.input| && lx.start == p0
      invariant !closed ==> lx.stack == old(lx.stack) && lx.items == old(lx.items)
      invariant !closed ==> whole == Q.Later(n, Q.Closing(Text(lx.input, lx.pos)))
      invariant !closed ==> lx.esc == Slashed(lx.input, p0, n)
      invariant closed ==> !lx.done && lx.At(r) && whole == Q.Some(n) && Closed(lx, r, n)
      decreases !closed, |lx.input| - lx.pos
    {
      ghost var p := lx.pos;
      r, closed := StringTurn(lx);
      if lx.done {
        return;
      }
      if !closed {
        SlashedOn(lx.input, p0, n, lx.pos - p);
        n := n + (lx.pos - p);
      }
    }
  }

  /** What the closing quote leaves: one item with the text, the position behind the quote, and the
      state that was waiting for the string. */
  twostate predicate Closed(lx: Lexer, r: State, n: nat)
    reads lx
  {
    lx.pos == old(lx.pos) + n + 1 && |old(lx.stack)| > 0 && r == Last(old(lx.stack)) && lx.stack == Below(old(lx.stack))
    && |lx.items| == |old(lx.items)| + 1
    && lx.Holds(lx.items[|lx.items| - 1], if Slashed(lx.input, old(lx.pos), n) then ItemStringEsc else ItemString, old(lx.pos), old(lx.pos) + n)
  }

  /** One step of the scan. */
  lemma ScanStep(input: seq<Unit>, p: nat)
    requires AllRunes(input) && p <= |input|
    ensures var c := Q.Closing(Text(input, p));
      if p == |input| || IsNL(input[p].c) || IsControl(input[p].c) then c == Q.None
      else if input[p].c == '"' then c == Q.Some(0)
      else if input[p].c != '\\' then c == Q.Later(1, Q.Closing(Text(input, p + 1)))
      else Q.Escaped(Text(input, p + 1)) <= |input| - p - 1 && c == EscapeStep(input, p)
  {
    hide Q.Escaped;
    if p < |input| {
      TextFrom(input, p, 1);
      if input[p].c == '\\' { TextFrom(input, p, 1 + Q.Escaped(Text(input, p + 1))); }
    }
  }

  function EscapeStep(input: seq<Unit>, p: nat): Q.Option<nat>
    requires AllRunes(input) && p < |input| && Q.Escaped(Text(input, p + 1)) <= |input| - p - 1
  {
    var n := Q.Escaped(Text(input, p + 1));
    if n == 0 then Q.None else Q.Later(1 + n, Q.Closing(Text(input, p + 1 + n)))
  }

  lemma NotSlashed(input: seq<Unit>, k: nat)
    ensures !Slashed(input, k, 0)
  {
  }

  lemma SlashedStep(input: seq<Unit>, k: nat, n: nat)
    requires k + n < |input|
    ensures Slashed(input, k, n + 1) <==> Slashed(input, k, n) || input[k + n] == Rune('\\')
  {
    if Slashed(input, k, n) {
      var i :| k <= i < k + n && input[i] == Rune('\\');
      assert k <= i < k + (n + 1);
    }
    if input[k + n] == Rune('\\') { assert k <= k + n < k + (n + 1); }
  }

  lemma SlashedOn(input: seq<Unit>, k: nat, n: nat, m: nat)
    requires k + n < |input| && 0 < m && k + n + m <= |input|
    requires input[k + n] != Rune('\\') ==> m == 1
    ensures Slashed(input, k, n + m) <==> Slashed(input, k, n) || input[k + n] == Rune('\\')
  {
    SlashedStep(input, k, n);
    if Slashed(input, k, n + 1) {
      var i :| k <= i < k + (n + 1) && input[i] == Rune('\\');
      assert k <= i < k + (n + m);
    }
  }

  predicate Slashed(input: seq<Unit>, k: nat, n: nat)
  {
    k + n <= |input| && exists i :: k <= i < k + n && input[i] == Rune('\\')
  }

  // ---------------------------------------------------------- raw strings

  /** A character of the text of a raw string. */
  predicate RawPlain(lx: Lexer, k: nat) { lx.Readable(k) && !IsNL(lx.input[k].c) && lx.input[k].c != '\'' }

  predicate RawSoFar(lx: Lexer, a: nat, b: nat) { a <= b <= |lx.input| && forall k :: a <= k < b ==> RawPlain(lx, k) }

  /** The first quote, with nothing in front of it that ends the line or cannot be read. */
  predicate RawCloses(lx: Lexer, a: nat, b: nat) { RawSoFar(lx, a, b) && Is(lx.input, b, '\'') }

  /** The end of the line or of the input, or a code point that cannot be read, with no quote in front of it. */
  predicate RawBreaks(lx: Lexer, a: nat, b: nat)
  {
    RawSoFar(lx, a, b) && (b == |lx.input| || !lx.Readable(b) || IsNL(lx.input[b].c))
  }

  lemma RawEndsOnce(lx: Lexer, a: nat, b: nat, b': nat)
    requires (RawCloses(lx, a, b) || RawBreaks(lx, a, b)) && (RawCloses(lx, a, b') || RawBreaks(lx, a, b'))
    ensures b == b' && !(RawCloses(lx, a, b) && RawBreaks(lx, a, b'))
  {
    assert b < b' ==> RawPlain(lx, b);
    assert b' < b ==> RawPlain(lx, b');
  }

  lemma RawOn(lx: Lexer, a: nat, b: nat)
    requires RawSoFar(lx, a, b) && lx.Readable(b) && !IsNL(lx.input[b].c)
    ensures if lx.input[b].c == '\'' then RawCloses(lx, a, b) else RawSoFar(lx, a, b + 1)
  {
    if lx.input[b].c != '\'' { assert RawPlain(lx, b); }
  }

  lemma RawStack(lx: Lexer)
    requires lx.At(RawString)
    ensures |lx.stack| > 0 && lx.pos <= |lx.input|
  {
    PopString(lx.stack, lx.want);
  }

  /** What the quote leaves: one item with the text in front of it, the position behind it, and the state
      that was waiting for the string. */
  twostate predicate RawClosed(lx: Lexer, r: State, b: nat)
    reads lx
  {
    lx.pos == lx.start == b + 1 && |old(lx.stack)| > 0 && r == Last(old(lx.stack)) && lx.stack == Below(old(lx.stack))
    && |lx.items| == |old(lx.items)| + 1 && lx.Holds(lx.items[|lx.items| - 1], ItemRawString, old(lx.pos), b)
  }

  /** The state of a raw string, from behind the opening quote: the item runs exactly to the first quote,
      and the run ends in an error exactly if the line or the input ends first, or a code point comes first
      that cannot be read. */
  method RunRaw(lx: Lexer) returns (r: State)
    requires lx.At(RawString) && lx.start == lx.pos
    modifies lx
    ensures lx.done <==> exists b :: RawBreaks(lx, old(lx.pos), b)
    ensures lx.done ==> lx.Stopped()
    ensures !lx.done ==> exists b :: RawCloses(lx, old(lx.pos), b)
    ensures forall b :: RawCloses(lx, old(lx.pos), b) ==> !lx.done && lx.At(r) && RawClosed(lx, r, b)
  {
    hide Lexer.At, Shape, InValue, InKey, InHeader, InName, InString, InEscape, InComment, NameAwaits, Understood, Remarked, Lexed, Lexeme, Covered, Tidy, Take, Rest, Slot, KeyWant, HeaderWant, NameWant, Back, Passed, Newlines, Orderly, PlaceOf, Rank, RawCloses, RawBreaks;
    RawStack(lx);
    ghost var a := lx.pos;
    r := RawString;
    while true
      invariant lx.At(RawString) && RawSoFar(lx, a, lx.pos) && lx.start == a
      invariant lx.stack == old(lx.stack) && lx.items == old(lx.items)
      decreases |lx.input| - lx.pos
    {
      var b := lx.pos;
      r := lx.LexRawString();
      if lx.done {
        RawBreaksAt(lx, a, b);
        return;
      }
      RawOn(lx, a, b);
      if lx.input[b].c == '\'' {
        RawClosesAt(lx, a, b);
        return;
      }
    }
  }

  lemma RawBreaksAt(lx: Lexer, a: nat, b: nat)
    requires RawSoFar(lx, a, b) && (!lx.Readable(b) || IsNL(lx.input[b].c))
    ensures RawBreaks(lx, a, b) && forall b' :: !RawCloses(lx, a, b')
  {
    forall b' ensures !RawCloses(lx, a, b') {
      if RawCloses(lx, a, b') { RawEndsOnce(lx, a, b', b); }
    }
  }

  lemma RawClosesAt(lx: Lexer, a: nat, b: nat)
    requires RawCloses(lx, a, b)
    ensures forall b' :: RawCloses(lx, a, b') ==> b' == b
    ensures forall b' :: !RawBreaks(lx, a, b')
  {
    forall b' | RawCloses(lx, a, b') ensures b' == b { RawEndsOnce(lx, a, b, b'); }
    forall b' ensures !RawBreaks(lx, a, b') {
      if RawBreaks(lx, a, b') { RawEndsOnce(lx, a, b, b'); }
    }
  }

  // ------------------------------------------------ multi-line raw strings

  predicate SixQuotes(lx: Lexer, k: nat) { Three(lx.input, k, '\'') && Three(lx.input, k + 3, '\'') }

  /** No three quotes without a fourth begin in a stretch, and no six. */
  predicate MultiSoFar(lx: Lexer, a: nat, b: nat)
  {
    a <= b <= |lx.input|
    && (forall k :: a <= k < b ==> lx.Readable(k) && !LastThree(lx.input, k, '\''))
    && (forall k :: a <= k <= b - 3 ==> !SixQuotes(lx, k))
  }

  /** The first three quotes without a fourth close the string: up to two quotes in front of them belong to
      the text. The code point behind them is looked at, too. */
  predicate MultiCloses(lx: Lexer, a: nat, b: nat)
  {
    MultiSoFar(lx, a, b) && LastThree(lx.input, b, '\'') && !lx.Broken(b + 3)
  }

  /** Up to the code point behind the closing quotes everything can be read. */
  lemma MultiReads(lx: Lexer, a: nat, b: nat, k: nat)
    requires MultiCloses(lx, a, b) && a <= k <= b + 3
    ensures !lx.Broken(k)
  {
    lx.PlainReads(k);
  }

  lemma MultiBehind(lx: Lexer, a: nat, p: nat, b: nat)
    requires MultiSoFar(lx, a, p) && MultiCloses(lx, a, b)
    ensures a <= p <= b < |lx.input|
    ensures a <= p - 2 <= b - 3 ==> !SixQuotes(lx, p - 2)
    ensures Is(lx.input, p + 3, '\'') ==> p != b
  {
  }

  /** Where a turn of the lexer ends the run, nothing closes the string. */
  lemma MultiBreaks(lx: Lexer, a: nat, p: nat, b: nat)
    requires MultiSoFar(lx, a, p)
    requires p == |lx.input| || lx.Broken(p)
      || (Is(lx.input, p, '\'') && (lx.QuotesBreak(p, '\'') || lx.TooMany(a, p, '\'', false)))
    ensures !MultiCloses(lx, a, b)
  {
    hide MultiSoFar, MultiCloses, Lexer.Broken, LastThree;
    if MultiCloses(lx, a, b) {
      MultiBehind(lx, a, p, b);
      MultiReads(lx, a, b, p);
      MultiReads(lx, a, b, p + 1);
      MultiReads(lx, a, b, p + 2);
      MultiReads(lx, a, b, p + 3);
    }
  }

  lemma TooManyIs(lx: Lexer, a: nat, p: nat)
    ensures a <= p - 2 && SixQuotes(lx, p - 2) <==> lx.TooMany(a, p, '\'', false)
    ensures lx.TooMany(a, p, '\'', false) ==> Is(lx.input, p, '\'')
  {
  }

  lemma MultiOn(lx: Lexer, a: nat, p: nat)
    requires MultiSoFar(lx, a, p) && p < |lx.input| && lx.Readable(p)
    requires Is(lx.input, p, '\'') ==> !lx.QuotesBreak(p, '\'') && !lx.TooMany(a, p, '\'', false)
    ensures if LastThree(lx.input, p, '\'') then MultiCloses(lx, a, p) else MultiSoFar(lx, a, p + 1)
  {
    hide SixQuotes, Lexer.TooMany;
    TooManyIs(lx, a, p);
  }

  lemma MultiClosesOnce(lx: Lexer, a: nat, b: nat, b': nat)
    requires MultiCloses(lx, a, b) && MultiCloses(lx, a, b')
    ensures b == b'
  {
    hide LastThree;
    MultiBehind(lx, a, b, b');
    MultiBehind(lx, a, b', b);
  }

  twostate predicate MultiClosed(lx: Lexer, r: State, b: nat)
    reads lx
  {
    lx.pos == lx.start == b + 3 && |old(lx.stack)| > 0 && r == Last(old(lx.stack)) && lx.stack == Below(old(lx.stack))
    && |lx.items| == |old(lx.items)| + 1 && lx.Holds(lx.items[|lx.items| - 1], ItemRawMultilineString, old(lx.pos), b)
  }

  lemma MultiRawStack(lx: Lexer)
    requires lx.At(MultilineRawString)
    ensures |lx.stack| > 0 && lx.pos <= |lx.input|
  {
    PopValue(lx.stack);
  }

  /** The state of a multi-line raw string, from behind the opening quotes: the item runs exactly to the
      quotes that close it, and the run ends in an error exactly if there are none. */
  method RunMultiRaw(lx: Lexer) returns (r: State)
    requires lx.At(MultilineRawString) && lx.start == lx.pos
    modifies lx
    ensures !lx.done <==> exists b :: MultiCloses(lx, old(lx.pos), b)
    ensures lx.done ==> lx.Stopped()
    ensures forall b :: MultiCloses(lx, old(lx.pos), b) ==> !lx.done && lx.At(r) && MultiClosed(lx, r, b)
  {
    hide Lexer.At, Lexer.QuotesBreak, Lexer.TooMany, Lexer.Readable, Shape, InValue, InKey, InHeader, InName, InString, InEscape, InComment, NameAwaits, Understood, Remarked, Lexed, Lexeme, Covered, Tidy, Take, Rest, Slot, KeyWant, HeaderWant, NameWant, Back, Passed, Newlines, Orderly, PlaceOf, Rank, MultiCloses, LastThree, SixQuotes;
    MultiRawStack(lx);
    var a := lx.pos;
    r := MultilineRawString;
    while true
      invariant lx.At(MultilineRawString) && MultiSoFar(lx, a, lx.pos) && lx.start == a
      invariant lx.stack == old(lx.stack) && lx.items == old(lx.items)
      decreases |lx.input| - lx.pos
    {
      ghost var p := lx.pos;
      r := lx.LexMultilineRawString();
      if lx.done {
        forall b ensures !MultiCloses(lx, a, b) { MultiBreaks(lx, a, p, b); }
        return;
      }
      MultiOn(lx, a, p);
      if lx.start != a {
        forall b | MultiCloses(lx, a, b) ensures b == p { MultiClosesOnce(lx, a, b, p); }
        return;
      }
    }
  }

  // ------------------------------------------------- the parser's value

  /** A text without backslashes resolves to itself. */
  lemma {:induction false} PlainText(t: string)
    requires '\\' !in t
    ensures Q.Resolved(t) == Q.Some(t)
  {
    if t == [] {
    } else {
      PlainText(t[1..]);
      assert [t[0]] + t[1..] == t;
    }
  }

  lemma SlashedText(input: seq<Unit>, k: nat, n: nat)
    requires AllRunes(input) && k + n <= |input|
    ensures Slashed(input, k, n) <==> '\\' in Text(input, k)[..n]
  {
    var t := Text(input, k)[..n];
    if '\\' in t {
      var i :| 0 <= i < n && t[i] == '\\';
      assert input[k + i] == Rune('\\');
    }
    if Slashed(input, k, n) {
      var i :| k <= i < k + n && input[i] == Rune('\\');
      assert t[i - k] == '\\';
    }
  }

  /** What the text behind an opening quote says: nothing if the string is not closed or has an escape
      that stands for no character. */
  function Meaning(t: string): Q.Option<string>
  {
    match Q.Closing(t)
    case None => Q.None
    case Some(n) => Q.Resolved(t[..n])
  }

  /** A basic string from behind its opening quote to the value the parser makes of it: the text as it
      stands, or with its escapes resolved if the lexer marked it. It never panics with "BUG". */
  method ReadString(lx: Lexer) returns (v: Q.Option<string>, bug: bool)
    requires lx.At(String) && !lx.tomlNext && !lx.esc && AllRunes(lx.input) && lx.start == lx.pos
    modifies lx
    ensures v == Meaning(Text(lx.input, old(lx.pos))) && !bug
  {
    hide Q.Escaped, Q.Closing, Q.Resolved, Q.Bugs, Slashed, Lexer.At, Shape, InValue, InKey, InHeader, InName, InString, InEscape, InComment, NameAwaits, Understood, Take, Rest, Slot, KeyWant, HeaderWant, NameWant, Back, Passed, Newlines, Orderly, PlaceOf, Rank;
    StringStack(lx);
    ghost var p := lx.pos;
    var _ := RunString(lx);
    if lx.done {
      return Q.None, false;
    }
    ghost var n := Q.Closing(Text(lx.input, p)).value;
    var it := lx.items[|lx.items| - 1];
    var t := Text(lx.input, it.start)[..it.end - it.start];
    SlashedText(lx.input, p, n);
    if it.typ == ItemStringEsc {
      Q.ClosingNeverBugs(Text(lx.input, p));
      v, bug := Q.ReplaceEscapes(t);
    } else {
      PlainText(t);
      v, bug := Q.Some(t), false;
    }
  }

  /** Written, lexed and resolved, a string means itself, whatever follows it. */
  lemma WrittenMeansItself(s: string, more: string)
    ensures Meaning((Q.Quoted(s) + more)[1..]) == Q.Some(s)
  {
    hide Q.Closing, Q.Resolved, Q.Replace;
    Q.WriteReadString(s, more);
  }
}
