/** TOML basic strings: what the encoder writes (encode.go), what the lexer lets through (lex.go),
    what the parser makes of it (parse.go), and the textual form of key paths (meta.go). */
module TomlQuoting {
  import opened TomlItems
  import opened TomlText
  import opened TomlLexer

  datatype Option<T> = None | Some(value: T)

  /** One of the 16 lower-case digits. */
  function HexDigit(n: nat): char
    requires n < 16
  {
    if n < 10 then '0' + n as char else 'a' + (n - 10) as char
  }

  /** The value of a hexadecimal digit, of either case. */
  function HexValue(c: char): (n: nat)
    requires IsHex(c)
    ensures n < 16
  {
    if IsDigit(c) then c as int - '0' as int
    else if 'a' <= c <= 'f' then c as int - 'a' as int + 10
    else c as int - 'A' as int + 10
  }

  /** Short escapes. */
  function Short(c: char): Option<char>
  {
    match c
    case '"' => Some('"')
    case '\\' => Some('\\')
    case '\U{8}' => Some('b')
    case '\t' => Some('t')
    case '\n' => Some('n')
    case '\U{c}' => Some('f')
    case '\r' => Some('r')
    case _ => None
  }

  /** dblQuotedReplacer on one character: quotes, backslashes and the control characters. */
  function Escape(c: char): (e: string)
    ensures |e| == 1 || |e| == 2 || |e| == 6
  {
    if Short(c).Some? then ['\\', Short(c).value]
    else if c < ' ' || c == '\U{7f}' then ['\\', 'u', '0', '0', HexDigit(c as int / 16), HexDigit(c as int % 16)]
    else [c]
  }

  function Replace(s: string): string
  {
    if s == [] then [] else Escape(s[0]) + Replace(s[1..])
  }

  /** writeQuoted. */
  function Quoted(s: string): string { ['"'] + Replace(s) + ['"'] }

  // ----------------------------------------------------------- unescaping

  /** The code point of a string of hexadecimal digits. */
  function HexNumber(s: string): (n: nat)
    requires forall i :: 0 <= i < |s| ==> IsHex(s[i])
  {
    if s == [] then 0 else 16 * HexNumber(s[..|s| - 1]) + HexValue(s[|s| - 1])
  }

  /** utf8.ValidRune. */
  predicate ValidRune(n: nat) { n < 0xD800 || 0xE000 <= n < 0x11_0000 }

  /** What an escape sequence after the backslash stands for, and how many characters it takes;
      nothing if it is not one that basic strings have. */
  function Unescape(s: string): (r: Option<(char, nat)>)
    ensures r.Some? ==> 0 < r.value.1 <= |s|
  {
    if s == [] then None
    else match s[0]
      case 'b' => Some(('\U{8}', 1))
      case 't' => Some(('\t', 1))
      case 'n' => Some(('\n', 1))
      case 'f' => Some(('\U{c}', 1))
      case 'r' => Some(('\r', 1))
      case '"' => Some(('"', 1))
      case '\\' => Some(('\\', 1))
      case 'u' => UnescapeHex(s, 4)
      case 'U' => UnescapeHex(s, 8)
      case _ => None
  }

  function UnescapeHex(s: string, digits: nat): (r: Option<(char, nat)>)
    requires |s| > 0
    ensures r.Some? ==> r.value.1 == digits + 1 <= |s|
  {
    if |s| < digits + 1 || exists i :: 1 <= i < digits + 1 && !IsHex(s[i]) then None
    else if ValidRune(HexNumber(s[1..digits + 1])) then Some((HexNumber(s[1..digits + 1]) as char, digits + 1))
    else None
  }

  /** How many characters lexStringEscape takes after a backslash, 0 for an unknown escape. */
  function Escaped(s: string): (n: nat)
    ensures n <= |s|
  {
    if s == [] then 0
    else if s[0] in "btnfr\" \t\\" then 1
    else if s[0] == 'u' && |s| >= 5 && (forall i :: 1 <= i < 5 ==> IsHex(s[i])) then 5
    else if s[0] == 'U' && |s| >= 9 && (forall i :: 1 <= i < 9 ==> IsHex(s[i])) then 9
    else 0
  }

  function Prepend(b: string, t: Option<string>): Option<string>
  {
    match t case None => None case Some(u) => Some(b + u)
  }

  /** replaceEscapes as a function: the text of a string with its escapes resolved. */
  function Resolved(s: string): Option<string>
    decreases |s|
  {
    if s == [] then Some("")
    else if s[0] != '\\' then Prepend([s[0]], Resolved(s[1..]))
    else
      match Unescape(s[1..])
      case None => None
      case Some((c, n)) => Prepend([c], Resolved(s[1 + n..]))
  }

  /** Where replaceEscapes would panic with "BUG": an escape that is none, or one with too few digits. */
  predicate Bugs(s: string)
    decreases |s|
  {
    s != [] &&
    if s[0] != '\\' then Bugs(s[1..])
    else
      match Unescape(s[1..])
      case None => Escaped(s[1..]) == 0
      case Some((c, n)) => Bugs(s[1 + n..])
  }

  lemma PrependMore(b: string, c: char, t: Option<string>)
    ensures Prepend(b, Prepend([c], t)) == Prepend(b + [c], t) && Prepend("", t) == t
  {
    if t.Some? {
      assert b + ([c] + t.value) == b + [c] + t.value;
      assert "" + t.value == t.value;
    }
  }

  /** The loop of replaceEscapes: a builder, and a counter of characters to skip. */
  method ReplaceEscapes(s: string) returns (r: Option<string>, bug: bool)
    ensures r == Resolved(s) && bug == Bugs(s)
  {
    hide Unescape, Escaped;
    bug := false;
    var b: string, skip: nat := "", 0;
    assert s[0..] == s;
    PrependMore("", ' ', Resolved(s));
    for i := 0 to |s|
      invariant i + skip <= |s|
      invariant Resolved(s) == Prepend(b, Resolved(s[i + skip..]))
      invariant !bug && Bugs(s) == Bugs(s[i + skip..])
    {
      if skip > 0 {
        skip := skip - 1;
        continue;
      }
      assert s[i..][1..] == s[i + 1..];
      if s[i] != '\\' {
        PrependMore(b, s[i], Resolved(s[i + 1..]));
        b := b + [s[i]];
        continue;
      }
      match Unescape(s[i + 1..]) {
        case None =>
          return None, Escaped(s[i + 1..]) == 0;
        case Some((c, n)) =>
          assert s[i..][1 + n..] == s[i + 1 + n..];
          PrependMore(b, c, Resolved(s[i + 1 + n..]));
          b := b + [c];
          skip := n;
      }
    }
    assert s[|s|..] == [];
    r := Some(b);
    assert b + "" == b;
  }

  // ---------------------------------------------------------- round trip

  lemma HexRoundTrip(n: nat)
    requires n < 16
    ensures IsHex(HexDigit(n)) && HexValue(HexDigit(n)) == n
  {
  }

  lemma CodePoint(a: char, b: char)
    requires IsHex(a) && IsHex(b)
    ensures HexNumber(['0', '0', a, b]) == 16 * HexValue(a) + HexValue(b)
  {
    assert ['0', '0', a, b][..3] == ['0', '0', a];
    assert ['0', '0', a][..2] == ['0', '0'];
    assert ['0', '0'][..1] == ['0'];
    assert ['0'][..0] == [];
    assert HexNumber(['0']) == 0 && HexNumber(['0', '0']) == 0;
    assert HexNumber(['0', '0', a]) == 16 * HexNumber(['0', '0']) + HexValue(a);
  }

  /** The digits of both cases, in order. */
  const LOWER: string := "0123456789abcdef"

  const UPPER: string := "0123456789ABCDEF"

  /** c is the digit k, in either case. */
  predicate IsDigitOf(c: char, k: int) { 0 <= k < 16 && (c == LOWER[k] || c == UPPER[k]) }

  lemma DigitValue(c: char, k: int)
    requires IsDigitOf(c, k)
    ensures IsHex(c) && HexValue(c) == k
  {
  }

  lemma HexNumberNext(s: string, c: char, k: int)
    requires (forall i :: 0 <= i < |s| ==> IsHex(s[i])) && IsDigitOf(c, k)
    ensures (forall i :: 0 <= i < |s| + 1 ==> IsHex((s + [c])[i])) && HexNumber(s + [c]) == 16 * HexNumber(s) + k
  {
    hide HexValue, IsDigitOf, IsHex;
    DigitValue(c, k);
    assert (s + [c])[..|s|] == s;
  }

  lemma FourDigits(d: string, n: nat)
    requires |d| == 4 && n < 0x1_0000
    requires IsDigitOf(d[0], n / 4096) && IsDigitOf(d[1], n / 256 % 16) && IsDigitOf(d[2], n / 16 % 16) && IsDigitOf(d[3], n % 16)
    ensures (forall i :: 0 <= i < 4 ==> IsHex(d[i])) && HexNumber(d) == n
  {
    hide IsDigitOf, HexNumber;
    HexNumberEmpty();
    HexNumberNext([], d[0], n / 4096);
    HexNumberNext([] + [d[0]], d[1], n / 256 % 16);
    HexNumberNext([] + [d[0]] + [d[1]], d[2], n / 16 % 16);
    HexNumberNext([] + [d[0]] + [d[1]] + [d[2]], d[3], n % 16);
    assert [] + [d[0]] + [d[1]] + [d[2]] + [d[3]] == d;
    FourPlaces(n);
  }

  lemma HexNumberEmpty()
    ensures HexNumber("") == 0
  {
  }

  lemma FourPlaces(n: nat)
    requires n < 0x1_0000
    ensures 16 * (16 * (16 * (n / 4096) + n / 256 % 16) + n / 16 % 16) + n % 16 == n
  {
    assert n == 16 * (n / 16) + n % 16;
    assert n / 16 == 16 * (n / 256) + n / 16 % 16;
    assert n / 256 == 16 * (n / 4096) + n / 256 % 16;
  }

  /** A number in four digits behind four others. */
  lemma {:induction false} HexNumberConcat(s: string, d: string, n: nat)
    requires (forall i :: 0 <= i < |s| ==> IsHex(s[i])) && |d| == 4 && n < 0x1_0000
    requires IsDigitOf(d[0], n / 4096) && IsDigitOf(d[1], n / 256 % 16) && IsDigitOf(d[2], n / 16 % 16) && IsDigitOf(d[3], n % 16)
    ensures (forall i :: 0 <= i < |s| + 4 ==> IsHex((s + d)[i])) && HexNumber(s + d) == 0x1_0000 * HexNumber(s) + n
  {
    hide IsDigitOf, HexNumber, IsHex;
    HexNumberNext(s, d[0], n / 4096);
    HexNumberNext(s + [d[0]], d[1], n / 256 % 16);
    HexNumberNext(s + [d[0]] + [d[1]], d[2], n / 16 % 16);
    HexNumberNext(s + [d[0]] + [d[1]] + [d[2]], d[3], n % 16);
    assert s + [d[0]] + [d[1]] + [d[2]] + [d[3]] == s + d;
    FourPlaces(n);
  }

  /** \uXXXX with the digits of n, in either case, is the character n; a surrogate is refused. */
  lemma UnescapeShort(n: nat, d: string, more: string)
    requires |d| == 4 && n < 0x1_0000
    requires IsDigitOf(d[0], n / 4096) && IsDigitOf(d[1], n / 256 % 16) && IsDigitOf(d[2], n / 16 % 16) && IsDigitOf(d[3], n % 16)
    ensures Unescape("u" + d + more) == if 0xD800 <= n < 0xE000 then None else Some((n as char, 5))
  {
    hide IsDigitOf, HexNumber;
    FourDigits(d, n);
    var s := "u" + d + more;
    assert s[1..5] == d;
    assert forall i :: 1 <= i < 5 ==> s[i] == d[i - 1];
  }

  /** \UXXXXXXXX with the digits of n, in either case, is the character n; surrogates and numbers
      beyond the last code point are refused. */
  lemma UnescapeLong(n: nat, d: string, e: string, more: string)
    requires |d| == |e| == 4 && n < 0x1_0000_0000
    requires var h := n / 0x1_0000;
      IsDigitOf(d[0], h / 4096) && IsDigitOf(d[1], h / 256 % 16) && IsDigitOf(d[2], h / 16 % 16) && IsDigitOf(d[3], h % 16)
    requires var l := n % 0x1_0000;
      IsDigitOf(e[0], l / 4096) && IsDigitOf(e[1], l / 256 % 16) && IsDigitOf(e[2], l / 16 % 16) && IsDigitOf(e[3], l % 16)
    ensures Unescape("U" + d + e + more) ==
      if 0xD800 <= n < 0xE000 || n >= 0x11_0000 then None else Some((n as char, 9))
  {
    hide IsDigitOf, HexNumber;
    FourDigits(d, n / 0x1_0000);
    HexNumberConcat(d, e, n % 0x1_0000);
    var s := "U" + d + e + more;
    assert s[1..9] == d + e;
    assert forall i :: 1 <= i < 9 ==> s[i] == (d + e)[i - 1];
  }

  /** What the encoder writes for the characters it cannot write as they are. */
  const ESCAPES: seq<string> := [
    "\\u0000", "\\u0001", "\\u0002", "\\u0003", "\\u0004", "\\u0005", "\\u0006", "\\u0007",
    "\\b", "\\t", "\\n", "\\u000b", "\\f", "\\r", "\\u000e", "\\u000f",
    "\\u0010", "\\u0011", "\\u0012", "\\u0013", "\\u0014", "\\u0015", "\\u0016", "\\u0017",
    "\\u0018", "\\u0019", "\\u001a", "\\u001b", "\\u001c", "\\u001d", "\\u001e", "\\u001f"]

  /** The table of dblQuotedReplacer, entry by entry; everything else stays as it is. */
  lemma EscapeTable(c: char)
    ensures Escape(c) ==
      if c < ' ' then ESCAPES[c as int] else if c == '"' then "\\\"" else if c == '\\' then "\\\\"
      else if c == '\U{7f}' then "\\u007f" else [c]
  {
    if c < ' ' { EscapeEntry(c as int); }
  }

  lemma EscapeEntry(k: nat)
    requires k < 32
    ensures Escape(k as char) == ESCAPES[k]
  {
    if k < 8 {
    } else if k < 16 {
    } else if k < 24 {
    } else {
    }
  }

  /** Every escape the encoder writes is resolved to the character it stands for. */
  lemma EscapeResolves(c: char, more: string)
    requires |Escape(c)| > 1
    ensures Escape(c)[0] == '\\' && Unescape(Escape(c)[1..] + more) == Some((c, |Escape(c)| - 1))
  {
    if Short(c).None? {
      var n := c as int;
      var s := Escape(c)[1..] + more;
      HexRoundTrip(n / 16);
      HexRoundTrip(n % 16);
      assert s[1..5] == ['0', '0', HexDigit(n / 16), HexDigit(n % 16)];
      CodePoint(HexDigit(n / 16), HexDigit(n % 16));
      assert HexNumber(s[1..5]) == n;
      assert forall i :: 1 <= i < 5 ==> IsHex(s[i]);
    }
  }

  /** What writeQuoted writes between the quotes resolves to the string itself, for every string. */
  lemma {:induction false} ResolvedReplace(s: string)
    ensures Resolved(Replace(s)) == Some(s)
  {
    if s != [] {
      ResolvedReplace(s[1..]);
      var e, rest := Escape(s[0]), Replace(s[1..]);
      assert [s[0]] + s[1..] == s;
      if |e| == 1 {
        assert e == [s[0]] && s[0] != '\\';
        assert (e + rest)[1..] == rest;
      } else {
        EscapeResolves(s[0], rest);
        assert (e + rest)[1..] == e[1..] + rest;
        assert (e + rest)[1 + (|e| - 1)..] == rest;
      }
    }
  }

  // ------------------------------------------- what the lexer lets through

  /** Where the closing quote of a basic string is: lexString and lexStringEscape as one scan.
      A raw newline or control character is refused, and so is an unknown escape. */
  function Closing(s: string): (r: Option<nat>)
    ensures r.Some? ==> r.value < |s| && s[r.value] == '"'
    decreases |s|
  {
    if s == [] || IsNL(s[0]) || IsControl(s[0]) then None
    else if s[0] == '"' then Some(0)
    else if s[0] == '\\' then
      var n := Escaped(s[1..]);
      if n == 0 then None else Later(1 + n, Closing(s[1 + n..]))
    else Later(1, Closing(s[1..]))
  }

  function Later(k: nat, r: Option<nat>): Option<nat>
  {
    match r case None => None case Some(n) => Some(k + n)
  }

  lemma EscapedEscape(c: char, more: string)
    requires |Escape(c)| > 1
    ensures Escaped(Escape(c)[1..] + more) == |Escape(c)| - 1
  {
    if Short(c).None? {
      HexRoundTrip(c as int / 16);
      HexRoundTrip(c as int % 16);
    }
  }

  /** One written character is passed over. */
  lemma ClosingEscape(c: char, tail: string)
    ensures Closing(Escape(c) + tail) == Later(|Escape(c)|, Closing(tail))
  {
    var e := Escape(c);
    if |e| == 1 {
      assert e == [c] && (e + tail)[1..] == tail;
    } else {
      EscapeResolves(c, tail);
      EscapedEscape(c, tail);
      hide Escape, Escaped, Unescape;
      assert (e + tail)[1..] == e[1..] + tail;
      assert (e + tail)[1 + (|e| - 1)..] == tail;
    }
  }

  /** The lexer closes a written string exactly at the writer's closing quote, whatever follows. */
  lemma {:induction false} ClosingReplace(s: string, more: string)
    ensures Closing(Replace(s) + ['"'] + more) == Some(|Replace(s)|)
  {
    hide Escape, Escaped;
    if s == [] {
      assert Replace(s) + ['"'] + more == ['"'] + more;
    } else {
      hide Closing;
      var e, tail := Escape(s[0]), Replace(s[1..]) + ['"'] + more;
      ClosingReplace(s[1..], more);
      assert Replace(s) + ['"'] + more == e + tail;
      ClosingEscape(s[0], tail);
    }
  }

  /** An escape reads the same whatever follows it. */
  lemma EscapedPrefix(s: string, k: nat)
    requires Escaped(s) <= k <= |s| && Escaped(s) > 0
    ensures Escaped(s[..k]) == Escaped(s)
    ensures Unescape(s[..k]).Some? ==> Unescape(s[..k]).value.1 == Escaped(s)
  {
  }

  /** On what the lexer lets through, replaceEscapes never panics with "BUG". */
  lemma {:induction false} ClosingNeverBugs(t: string)
    requires Closing(t).Some?
    ensures !Bugs(t[..Closing(t).value])
    decreases |t|
  {
    hide Escaped, Unescape;
    var n := Closing(t).value;
    var s := t[..n];
    if t[0] == '"' {
      assert s == [];
    } else {
      var m := if t[0] == '\\' then Escaped(t[1..]) else 0;
      ClosingNeverBugs(t[1 + m..]);
      assert s[1 + m..] == t[1 + m..][..n - 1 - m];
      if t[0] == '\\' {
        assert s[1..] == t[1..][..n - 1];
        EscapedPrefix(t[1..], n - 1);
      }
    }
  }

  /** Writing, lexing and resolving: every string comes back. */
  lemma WriteReadString(s: string, more: string)
    ensures var t := Quoted(s) + more;
      Closing(t[1..]) == Some(|Replace(s)|) && Resolved(t[1..][..|Replace(s)|]) == Some(s)
  {
    var t := Quoted(s) + more;
    assert t[1..] == Replace(s) + ['"'] + more;
    ClosingReplace(s, more);
    assert t[1..][..|Replace(s)|] == Replace(s);
    ResolvedReplace(s);
  }

  // ------------------------------------------------------------ key paths

  /** Characters of a bare key, as Key.String tests them. */
  predicate Bare(c: char) { IsBareKeyChar(c, false) }

  predicate AllBare(s: string) { forall i :: 0 <= i < |s| ==> Bare(s[i]) }

  /** One part: as it is if it can be a bare key, else quoted. The empty part is "". */
  function Part(s: string): string
  {
    if s != "" && AllBare(s) then s else Quoted(s)
  }

  function KeyString(k: seq<string>): string
  {
    if k == [] then ""
    else if |k| == 1 then Part(k[0])
    else Part(k[0]) + ['.'] + KeyString(k[1..])
  }

  lemma EmptyPart()
    ensures Part("") == "\"\""
  {
  }

  /** The inner loop of Key.String. */
  method CanBeBare(kk: string) returns (bare: bool)
    ensures bare == AllBare(kk)
  {
    for j := 0 to |kk|
      invariant forall i :: 0 <= i < j ==> Bare(kk[i])
    {
      if !Bare(kk[j]) {
        return false;
      }
    }
    return true;
  }

  /** Key.String: the loops of the source. */
  method KeyToString(k: seq<string>) returns (b: string)
    ensures b == KeyString(k)
  {
    hide Part, AllBare, Replace;
    b := "";
    for i := 0 to |k|
      invariant b == Joined(k[..i])
    {
      assert k[..i + 1][..i] == k[..i];
      if i > 0 {
        b := b + ".";
      }
      var kk := k[i];
      PartIs(kk);
      if kk == "" {
        b := b + "\"\"";
        EmptyPart();
      } else {
        var bare := CanBeBare(kk);
        b := b + if bare then kk else Quoted(kk);
      }
    }
    assert k[..|k|] == k;
    JoinedIsKeyString(k);
  }

  /** The same built from the left. */
  function Joined(k: seq<string>): string
  {
    if k == [] then ""
    else Joined(k[..|k| - 1]) + (if |k| == 1 then "" else ".") + Part(k[|k| - 1])
  }

  lemma {:induction false} JoinedIsKeyString(k: seq<string>)
    ensures Joined(k) == KeyString(k)
  {
    if |k| > 1 {
      var n := |k| - 1;
      JoinedIsKeyString(k[..n]);
      KeyStringAppend(k[..n], k[n]);
      assert k[..n] + [k[n]] == k;
    }
  }

  lemma {:induction false} KeyStringAppend(k: seq<string>, s: string)
    requires k != []
    ensures KeyString(k + [s]) == KeyString(k) + "." + Part(s)
  {
    assert (k + [s])[1..] == k[1..] + [s];
    if |k| == 1 {
      assert k[1..] + [s] == [s];
    } else {
      KeyStringAppend(k[1..], s);
    }
  }

  const CAPITALS: string := "ABCDEFGHIJKLMNOPQRSTUVWXYZ"

  const SMALL: string := "abcdefghijklmnopqrstuvwxyz"

  const DIGITS: string := "0123456789"

  /** The characters of a bare key, one by one. */
  predicate Plain(c: char) { c in CAPITALS || c in SMALL || c in DIGITS || c == '_' || c == '-' }

  lemma Capitals(c: char)
    ensures c in CAPITALS <==> 'A' <= c <= 'Z'
  {
    if 'A' <= c <= 'Z' { assert CAPITALS[c as int - 65] == c; }
  }

  lemma Smalls(c: char)
    ensures c in SMALL <==> 'a' <= c <= 'z'
  {
    if 'a' <= c <= 'z' { assert SMALL[c as int - 97] == c; }
  }

  lemma Numerals(c: char)
    ensures c in DIGITS <==> '0' <= c <= '9'
  {
    if '0' <= c <= '9' { assert DIGITS[c as int - 48] == c; }
  }

  lemma PlainIsBare(c: char)
    ensures Plain(c) <==> Bare(c)
  {
    hide CAPITALS, SMALL, DIGITS;
    Capitals(c);
    Smalls(c);
    Numerals(c);
  }

  /** A key of one part that can be bare is its own string; every other one is quoted. */
  lemma OnePartString(s: string)
    ensures KeyString([s]) == if s != "" && forall i :: 0 <= i < |s| ==> Plain(s[i]) then s else "\"" + Replace(s) + "\""
  {
    hide Bare, Plain, Replace;
    forall i | 0 <= i < |s| ensures Bare(s[i]) <==> Plain(s[i]) {
      PlainIsBare(s[i]);
    }
  }

  /** No escape is the beginning of another one. */
  lemma PrefixFree(c: char, d: char, x: string, y: string)
    requires Escape(c) + x == Escape(d) + y
    ensures c == d && x == y
  {
    var e, f := Escape(c), Escape(d);
    var t := e + x;
    assert t[0] == e[0] == f[0];
    if |e| == 1 || |f| == 1 {
      assert |e| == |f| == 1;
      assert x == t[1..] && y == t[1..];
    } else {
      EscapeResolves(c, x);
      EscapeResolves(d, y);
      assert t[1..] == e[1..] + x && t[1..] == f[1..] + y;
      assert x == t[|e|..] && y == t[|f|..];
    }
  }

  /** A closing quote is never part of an escaped text. */
  lemma {:induction false} ReplaceUnique(s: string, t: string, x: string, y: string)
    requires Replace(s) + ['"'] + x == Replace(t) + ['"'] + y
    ensures s == t && x == y
  {
    hide Escape;
    var u := Replace(s) + ['"'] + x;
    if s == [] || t == [] {
      assert u[0] == '"';
      assert s == [] && t == [] by { QuoteNeverFirst(s, x); QuoteNeverFirst(t, y); }
      assert x == u[1..] && y == u[1..];
    } else {
      var a, b := Replace(s[1..]) + ['"'] + x, Replace(t[1..]) + ['"'] + y;
      WrittenFirst(s, x);
      WrittenFirst(t, y);
      hide Replace;
      PrefixFree(s[0], t[0], a, b);
      ReplaceUnique(s[1..], t[1..], x, y);
      assert s == [s[0]] + s[1..] && t == [t[0]] + t[1..];
    }
  }

  lemma WrittenFirst(s: string, x: string)
    requires s != []
    ensures Replace(s) + ['"'] + x == Escape(s[0]) + (Replace(s[1..]) + ['"'] + x)
  {
    hide Escape;
    assert Replace(s) == Escape(s[0]) + Replace(s[1..]);
  }

  lemma QuoteNeverFirst(s: string, x: string)
    ensures (Replace(s) + ['"'] + x)[0] == '"' <==> s == []
  {
    if s != [] {
      var u := Replace(s) + ['"'] + x;
      assert u[0] == Escape(s[0])[0];
    }
  }

  predicate EndsPart(x: string) { x == "" || x[0] == '.' }

  lemma BareNeverEnds(t: string, y: string)
    requires t != "" && AllBare(t)
    ensures !EndsPart(t + y)
  {
    assert (t + y)[0] == t[0] && Bare(t[0]);
  }

  lemma {:induction false} BareUnique(s: string, t: string, x: string, y: string)
    requires AllBare(s) && AllBare(t) && EndsPart(x) && EndsPart(y) && s + x == t + y
    ensures s == t && x == y
  {
    if s == "" && t == "" {
      assert s + x == x && t + y == y;
    } else if s == "" {
      assert t + y == x;
      BareNeverEnds(t, y);
      assert false;
    } else if t == "" {
      assert s + x == y;
      BareNeverEnds(s, x);
      assert false;
    } else {
      var u := s + x;
      assert u[0] == s[0] == t[0];
      assert u[1..] == s[1..] + x && u[1..] == t[1..] + y;
      BareUnique(s[1..], t[1..], x, y);
      assert s == [s[0]] + s[1..] && t == [t[0]] + t[1..];
    }
  }

  /** A part and what follows it can be told apart. */
  lemma PartUnique(s: string, t: string, x: string, y: string)
    requires EndsPart(x) && EndsPart(y) && Part(s) + x == Part(t) + y
    ensures s == t && x == y
  {
    hide Part, AllBare, Replace;
    FirstOfPart(s, x);
    FirstOfPart(t, y);
    PartIs(s);
    PartIs(t);
    if s != "" && AllBare(s) {
      BareUnique(s, t, x, y);
    } else {
      QuotedRest(s, x);
      QuotedRest(t, y);
      ReplaceUnique(s, t, x, y);
    }
  }

  lemma PartIs(s: string)
    ensures Part(s) == if s != "" && AllBare(s) then s else Quoted(s)
  {
  }

  lemma QuotedRest(s: string, x: string)
    ensures (Quoted(s) + x)[1..] == Replace(s) + ['"'] + x
  {
  }

  /** The first character tells a bare part from a quoted one. */
  lemma FirstOfPart(s: string, x: string)
    ensures |Part(s) + x| > 0 && ((Part(s) + x)[0] != '"' <==> s != "" && AllBare(s))
  {
    hide Replace, Escape;
    if s != "" && AllBare(s) { assert Bare(s[0]); }
  }

  function RestOf(k: seq<string>): string
    requires k != []
  {
    if |k| == 1 then "" else ['.'] + KeyString(k[1..])
  }

  lemma RestIs(k: seq<string>)
    requires k != []
    ensures EndsPart(RestOf(k)) && (RestOf(k) == "" <==> |k| == 1)
    ensures |k| > 1 ==> |RestOf(k)| > 0 && RestOf(k)[1..] == KeyString(k[1..])
  {
    hide KeyString;
    assert |k| > 1 ==> RestOf(k)[1..] == KeyString(k[1..]);
  }

  lemma OnePart(k: seq<string>)
    requires k != []
    ensures k == [k[0]] + k[1..]
  {
  }

  /** Different key paths have different strings, so a map keyed by Key.String confuses no two. */
  lemma {:induction false} KeyStringInjective(k: seq<string>, m: seq<string>)
    requires KeyString(k) == KeyString(m)
    ensures k == m
  {
    hide Part, KeyString, RestOf, EndsPart;
    KeyStringSplit(k);
    KeyStringSplit(m);
    if k != [] && m != [] {
      RestIs(k);
      RestIs(m);
      PartUnique(k[0], m[0], RestOf(k), RestOf(m));
      if |k| > 1 {
        KeyStringInjective(k[1..], m[1..]);
      }
      OnePart(k);
      OnePart(m);
    }
  }

  lemma KeyStringSplit(k: seq<string>)
    ensures KeyString(k) == "" <==> k == []
    ensures k != [] ==> KeyString(k) == Part(k[0]) + RestOf(k)
  {
    hide Replace, Escape;
    if k != [] {
      FirstOfPart(k[0], RestOf(k));
      assert Part(k[0]) + "" == Part(k[0]);
      assert Part(k[0]) + ['.'] + KeyString(k[1..]) == Part(k[0]) + (['.'] + KeyString(k[1..]));
    }
  }
}
