/** The way of the TOML parser through the items (parse.go): which item it reads where, and where it
    would panic with "BUG". What it makes of the items, its tables and its complaints about
    duplicate keys, is not modelled. */
module TomlParser {
  import opened TomlItems
  import opened TomlText
  import opened TomlLexer

  /** Where reading stops: with items left, at an error item, or at an item that cannot come. */
  datatype Reading = Left(rest: seq<Item>) | Refused | Bug

  predicate Suffix(rest: seq<Item>, items: seq<Item>) { |rest| < |items| && rest == items[|items| - |rest|..] }

  predicate HasError(items: seq<Item>) { exists i :: 0 <= i < |items| && items[i].typ.ItemError? }

  /** Reading goes forward, and is refused only at an error item. */
  predicate Forward(r: Reading, items: seq<Item>)
  {
    (r.Left? ==> Suffix(r.rest, items)) && (r.Refused? ==> HasError(items))
  }

  lemma Further(r: Reading, rest: seq<Item>, items: seq<Item>)
    requires (rest == items || Suffix(rest, items)) && Forward(r, rest)
    ensures Forward(r, items)
  {
    var n := |items| - |rest|;
    assert rest == items[n..];
    if r.Left? { assert r.rest == items[|items| - |r.rest|..]; }
    if r.Refused? {
      var i :| 0 <= i < |rest| && rest[i].typ.ItemError?;
      assert items[n + i].typ.ItemError?;
    }
  }

  lemma OneOff(items: seq<Item>)
    requires items != []
    ensures Suffix(items[1..], items) && (items[0].typ.ItemError? ==> HasError(items))
  {
  }

  /** expect. */
  function Expect(items: seq<Item>, t: Type): (r: Reading)
    ensures Forward(r, items)
  {
    if items == [] then Bug
    else
      OneOff(items);
      if items[0].typ.ItemError? then Refused else if items[0].typ == t then Left(items[1..]) else Bug
  }

  /** The loops over the parts of a key: keyString refuses other items, the end of the file fails the
      test behind the loop, and a key without parts has no last part. */
  function KeyParts(items: seq<Item>, end: Type, some: bool): (r: Reading)
    ensures Forward(r, items)
    decreases |items|
  {
    if items == [] then Bug
    else
      OneOff(items);
      var t := items[0].typ;
      if t.ItemError? then Refused
      else if t == end then (if some then Left(items[1..]) else Bug)
      else if IsName(t) then (
        var r := KeyParts(items[1..], end, true);
        Further(r, items[1..], items);
        r
      ) else Bug
  }

  /** value. */
  function ValueOf(items: seq<Item>): (r: Reading)
    ensures Forward(r, items)
    decreases |items|, 0
  {
    if items == [] then Bug
    else
      OneOff(items);
      var t := items[0].typ;
      if t.ItemError? then Refused
      else if IsScalar(t) then Left(items[1..])
      else if t.ItemArray? || t.ItemInlineTableStart? then (
        var r := if t.ItemArray? then ElementsOf(items[1..]) else FieldsOf(items[1..]);
        Further(r, items[1..], items);
        r
      ) else Bug
  }

  /** The loop of valueArray. */
  function ElementsOf(items: seq<Item>): (r: Reading)
    ensures Forward(r, items)
    decreases |items|, 1
  {
    if items == [] then Bug
    else
      OneOff(items);
      var t := items[0].typ;
      if t.ItemError? then Refused
      else if t.ItemArrayEnd? then Left(items[1..])
      else
        var one := if t.ItemCommentStart? then Comment(items) else ValueOf(items);
        match one
        case Left(rest) =>
          var r := ElementsOf(rest);
          Further(r, rest, items);
          r
        case _ => one
  }

  function Comment(items: seq<Item>): (r: Reading)
    requires items != []
    ensures Forward(r, items)
  {
    OneOff(items);
    var r := Expect(items[1..], ItemText);
    Further(r, items[1..], items);
    r
  }

  /** The loop of valueInlineTable. The item in front of a key is not looked at. */
  function FieldsOf(items: seq<Item>): (r: Reading)
    ensures Forward(r, items)
    decreases |items|, 1
  {
    if items == [] then Bug
    else
      OneOff(items);
      var t := items[0].typ;
      if t.ItemError? then Refused
      else if t.ItemInlineTableEnd? then Left(items[1..])
      else
        var one := if t.ItemCommentStart? then Comment(items) else Pair(items);
        match one
        case Left(rest) =>
          var r := FieldsOf(rest);
          Further(r, rest, items);
          r
        case _ => one
  }

  /** A key and its value, from behind the item in front of the key. */
  function Pair(items: seq<Item>): (r: Reading)
    requires items != []
    ensures Forward(r, items)
    decreases |items|, 0
  {
    OneOff(items);
    var key := KeyParts(items[1..], ItemKeyEnd, false);
    Further(key, items[1..], items);
    match key
    case Left(rest) =>
      var r := ValueOf(rest);
      Further(r, rest, items);
      r
    case _ => key
  }

  /** topLevel. */
  function TopLevel(items: seq<Item>): (r: Reading)
    requires items != []
    ensures Forward(r, items)
  {
    OneOff(items);
    var t := items[0].typ;
    if t.ItemCommentStart? then Comment(items)
    else if t.ItemTableStart? || t.ItemArrayTableStart? then
      var r := KeyParts(items[1..], if t.ItemTableStart? then ItemTableEnd else ItemArrayTableEnd, false);
      Further(r, items[1..], items);
      r
    else if t.ItemKeyStart? then Pair(items)
    else Bug
  }

  /** The loop of parse. */
  function Document(items: seq<Item>): (r: Reading)
    ensures Forward(r, items)
    decreases |items|
  {
    if items == [] then Bug
    else
      OneOff(items);
      if items[0].typ.ItemError? then Refused
      else if items[0].typ.ItemEOF? then Left(items[1..])
      else
        var one := TopLevel(items);
        match one
        case Left(rest) =>
          var r := Document(rest);
          Further(r, rest, items);
          r
        case _ => one
  }

  // ------------------------------------------------ the items of the lexer

  /** Items that come where w is expected, up to a final one. */
  predicate Good(w: seq<Symbol>, items: seq<Item>) { Closed(items) && Consumed(w, items).Await? }

  /** Reading something is no bug, and leaves what is expected behind it. */
  predicate Fine(r: Reading, w: seq<Symbol>) { !r.Bug? && (r.Left? ==> Good(w, r.rest)) }

  /** One item taken from the innermost symbol. */
  lemma Step(w: seq<Symbol>, s: Symbol, items: seq<Item>)
    requires Good(w + [s], items) && !items[0].typ.ItemError?
    ensures After(s, items[0].typ).Await?
    ensures !items[0].typ.ItemEOF? ==> Good(w + After(s, items[0].typ).symbols, items[1..])
  {
    hide After;
    TakeLast(w, s, items[0].typ);
    if !items[0].typ.ItemEOF? {
      assert |items| > 1;
      assert items[1..][|items| - 2] == items[|items| - 1];
    }
  }

  lemma CommentFine(w: seq<Symbol>, s: Symbol, items: seq<Item>)
    requires Good(w + [s], items) && items[0].typ.ItemCommentStart?
    requires s == TopItems || s == Elements || s == Fields
    ensures Fine(Comment(items), w + [s])
  {
    hide Good;
    Nonempty(w + [s], items);
    Step(w, s, items);
    assert w + [s, CommentText] == w + [s] + [CommentText];
    TextFine(w + [s], items[1..]);
  }

  lemma TextFine(w: seq<Symbol>, items: seq<Item>)
    requires Good(w + [CommentText], items)
    ensures Fine(Expect(items, ItemText), w)
  {
    if !items[0].typ.ItemError? {
      Step(w, CommentText, items);
      assert w + [] == w;
    }
  }

  lemma {:induction false} KeyPartsFine(w: seq<Symbol>, end: Type, some: bool, items: seq<Item>)
    requires Good(w + [Parts(end, some)], items) && !Final(end) && !IsName(end)
    ensures Fine(KeyParts(items, end, some), w)
    decreases |items|
  {
    if !items[0].typ.ItemError? {
      Step(w, Parts(end, some), items);
      if items[0].typ == end {
        assert w + [] == w;
      } else {
        KeyPartsFine(w, end, true, items[1..]);
      }
    }
  }

  lemma {:induction false} ValueFine(w: seq<Symbol>, items: seq<Item>)
    requires Good(w + [OneValue], items)
    ensures Fine(ValueOf(items), w)
    decreases |items|, 0
  {
    if !items[0].typ.ItemError? {
      Step(w, OneValue, items);
      assert w + [] == w;
      if items[0].typ.ItemArray? {
        ElementsFine(w, items[1..]);
      } else if items[0].typ.ItemInlineTableStart? {
        FieldsFine(w, items[1..]);
      }
    }
  }

  /** A value read among elements leaves elements expected. */
  lemma {:induction false} ElementFine(w: seq<Symbol>, items: seq<Item>)
    requires Good(w + [Elements], items) && !items[0].typ.ItemError?
    requires !items[0].typ.ItemArrayEnd? && !items[0].typ.ItemCommentStart?
    ensures Fine(ValueOf(items), w + [Elements])
    decreases |items|, 0
  {
    Step(w, Elements, items);
    if items[0].typ.ItemArray? {
      assert w + [Elements, Elements] == w + [Elements] + [Elements];
      ElementsFine(w + [Elements], items[1..]);
    } else if items[0].typ.ItemInlineTableStart? {
      assert w + [Elements, Fields] == w + [Elements] + [Fields];
      FieldsFine(w + [Elements], items[1..]);
    }
  }

  lemma {:induction false} ElementsFine(w: seq<Symbol>, items: seq<Item>)
    requires Good(w + [Elements], items)
    ensures Fine(ElementsOf(items), w)
    decreases |items|, 1
  {
    hide Good, ValueOf, Comment;
    Nonempty(w + [Elements], items);
    var t := items[0].typ;
    if !t.ItemError? {
      Step(w, Elements, items);
      assert w + [] == w;
      if !t.ItemArrayEnd? {
        if t.ItemCommentStart? { CommentFine(w, Elements, items); } else { ElementFine(w, items); }
        var one := if t.ItemCommentStart? then Comment(items) else ValueOf(items);
        if one.Left? { ElementsFine(w, one.rest); }
      }
    }
  }

  lemma Nonempty(w: seq<Symbol>, items: seq<Item>)
    requires Good(w, items)
    ensures items != []
  {
  }

  lemma {:induction false} FieldsFine(w: seq<Symbol>, items: seq<Item>)
    requires Good(w + [Fields], items)
    ensures Fine(FieldsOf(items), w)
    decreases |items|, 1
  {
    hide Good, Pair, Comment;
    Nonempty(w + [Fields], items);
    var t := items[0].typ;
    if !t.ItemError? {
      Step(w, Fields, items);
      assert w + [] == w;
      if !t.ItemInlineTableEnd? {
        if t.ItemCommentStart? { CommentFine(w, Fields, items); } else { PairFine(w, Fields, items); }
        var one := if t.ItemCommentStart? then Comment(items) else Pair(items);
        if one.Left? { FieldsFine(w, one.rest); }
      }
    }
  }

  lemma {:induction false} PairFine(w: seq<Symbol>, s: Symbol, items: seq<Item>)
    requires Good(w + [s], items) && items[0].typ.ItemKeyStart? && (s == Fields || s == TopItems)
    ensures Fine(Pair(items), w + [s])
    decreases |items|, 0
  {
    hide Good, KeyParts, ValueOf;
    Nonempty(w + [s], items);
    Step(w, s, items);
    assert w + [s, OneValue, Parts(ItemKeyEnd, false)] == (w + [s] + [OneValue]) + [Parts(ItemKeyEnd, false)];
    KeyPartsFine(w + [s] + [OneValue], ItemKeyEnd, false, items[1..]);
    var key := KeyParts(items[1..], ItemKeyEnd, false);
    if key.Left? { ValueFine(w + [s], key.rest); }
  }

  lemma TopLevelFine(items: seq<Item>)
    requires Good([TopItems], items) && !Final(items[0].typ)
    ensures Fine(TopLevel(items), [TopItems])
  {
    hide Good, KeyParts, Pair, Comment;
    assert [] + [TopItems] == [TopItems];
    Nonempty([TopItems], items);
    var t := items[0].typ;
    Step([], TopItems, items);
    if t.ItemCommentStart? {
      CommentFine([], TopItems, items);
    } else if t.ItemKeyStart? {
      PairFine([], TopItems, items);
    } else {
      var end := if t.ItemTableStart? then ItemTableEnd else ItemArrayTableEnd;
      assert [] + [TopItems, Parts(end, false)] == [TopItems] + [Parts(end, false)];
      KeyPartsFine([TopItems], end, false, items[1..]);
    }
  }

  /** Reading the lexer's items is never a bug: it ends behind the end of the file, or at the error. */
  lemma {:induction false} DocumentFine(items: seq<Item>)
    requires Good([TopItems], items)
    ensures Document(items) == if items[|items| - 1].typ.ItemEOF? then Left([]) else Refused
    decreases |items|
  {
    hide TopLevel;
    if !Final(items[0].typ) {
      TopLevelFine(items);
      var one := TopLevel(items);
      if one.Left? { DocumentFine(one.rest); }
    }
  }

  /** Lexing and reading, for every input. */
  method Parse(input: seq<Unit>, tomlNext: bool, isLetter: char -> bool) returns (r: Reading)
    requires !isLetter(EOF)
    ensures r == Left([]) || r == Refused
  {
    var lx := new Lexer(input, tomlNext, isLetter);
    lx.Run();
    ItemsGood(lx);
    DocumentFine(lx.items);
    r := Document(lx.items);
  }

  lemma ItemsGood(lx: Lexer)
    requires lx.Stopped()
    ensures Good([TopItems], lx.items)
  {
  }
}
