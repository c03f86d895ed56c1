/** The texts of TOML items: what each kind of item covers of the input, and what of it a lexer state
    has already seen. A text is a stretch a..b of positions. */
module TomlText {
  import opened TomlItems

  datatype Unit = Rune(c: char) | Malformed

  predicate IsWhitespace(r: char) { r == '\t' || r == ' ' }
  predicate IsNL(r: char) { r == '\n' || r == '\r' }
  predicate IsControl(r: char) { r != '\t' && r != '\r' && r != '\n' && (r <= '\U{1f}' || r == '\U{7f}') }
  predicate IsDigit(r: char) { '0' <= r <= '9' }
  predicate IsBinary(r: char) { r == '0' || r == '1' }
  predicate IsOctal(r: char) { '0' <= r <= '7' }
  predicate IsHex(r: char) { IsDigit(r) || 'a' <= r <= 'f' || 'A' <= r <= 'F' }
  predicate StartsEscape(r: char)
  {
    r == 'b' || r == 't' || r == 'n' || r == 'f' || r == 'r' || r == '"' || r == ' ' || r == '\t' || r == '\\' || r == 'u' || r == 'U'
  }

  predicate IsQuote(r: char) { r == '"' || r == '\'' }

  predicate IsBareKeyChar(r: char, tomlNext: bool)
  {
    'A' <= r <= 'Z' || 'a' <= r <= 'z' || IsDigit(r) || r == '_' || r == '-'
    || (tomlNext && (r == '\U{b2}' || r == '\U{b3}' || r == '\U{b9}' || '\U{bc}' <= r <= '\U{be}' || '\U{c0}' <= r <= '\U{d6}'
      || '\U{d8}' <= r <= '\U{f6}' || '\U{f8}' <= r <= '\U{37d}' || '\U{37f}' <= r <= '\U{1fff}' || '\U{200c}' <= r <= '\U{200d}'
      || '\U{203f}' <= r <= '\U{2040}' || '\U{2070}' <= r <= '\U{218f}' || '\U{2460}' <= r <= '\U{24ff}'
      || '\U{2c00}' <= r <= '\U{2fef}' || '\U{3001}' <= r <= '\U{d7ff}' || '\U{f900}' <= r <= '\U{fdcf}'
      || '\U{fdf0}' <= r <= '\U{fffd}' || '\U{10000}' <= r <= '\U{effff}'))
  }

  // ------------------------------------------------------------ stretches

  datatype Class = Digits | Decimals | HexDigits | OctalDigits | BinaryDigits | FloatTail | DateTail | Bare | BareNext
    | RawText | Line

  predicate In(cl: Class, r: char)
  {
    match cl
    case Digits => IsDigit(r)
    case Decimals => IsDigit(r) || r == '_'
    case HexDigits => IsHex(r) || r == '_'
    case OctalDigits => IsOctal(r) || r == '_'
    case BinaryDigits => IsBinary(r) || r == '_'
    case FloatTail => IsDigit(r) || r == '_' || r == '.' || r == '-' || r == '+' || r == 'e' || r == 'E'
    case DateTail =>
      IsDigit(r) || r == '-' || r == ':' || r == 'T' || r == 't' || r == ' ' || r == '.' || r == 'Z' || r == 'z' || r == '+'
    case Bare => IsBareKeyChar(r, false)
    case BareNext => IsBareKeyChar(r, true)
    case RawText => r != '\'' && !IsNL(r)
    case Line => !IsNL(r)
  }

  /** All characters of a stretch are of a class. */
  predicate Span(input: seq<Unit>, a: nat, b: nat, cl: Class)
  {
    a <= b <= |input| && forall k :: a <= k < b ==> input[k].Rune? && In(cl, input[k].c)
  }

  /** No character of the class at b. */
  predicate Stop(input: seq<Unit>, b: nat, cl: Class) { b < |input| ==> input[b].Malformed? || !In(cl, input[b].c) }

  /** The character at k. */
  predicate Is(input: seq<Unit>, k: int, r: char) { 0 <= k < |input| && input[k] == Rune(r) }

  /** A text of one character. */
  predicate One(input: seq<Unit>, a: int, b: int, r: char) { b == a + 1 && Is(input, a, r) }

  predicate IsOneOf(input: seq<Unit>, k: int, rs: string) { 0 <= k < |input| && input[k].Rune? && input[k].c in rs }

  /** Three quotes at k. */
  predicate Three(input: seq<Unit>, k: int, q: char) { Is(input, k, q) && Is(input, k + 1, q) && Is(input, k + 2, q) }

  /** Three quotes at k, and no fourth. */
  predicate LastThree(input: seq<Unit>, k: int, q: char) { Three(input, k, q) && !Is(input, k + 3, q) }

  /** What may stand between the texts of items: space, and the marks that divide items. */
  predicate IsMark(r: char)
  {
    IsWhitespace(r) || IsNL(r) || IsQuote(r) || r == '.' || r == ',' || r == '=' || r == '#' || r == '[' || r == ']' || r == '{' || r == '}'
  }

  lemma MarksAre(r: char)
    ensures IsWhitespace(r) || IsNL(r) || r == '.' || r == ',' || r == '#' || r == ']' || r == '}' ==> IsMark(r)
    ensures r == ',' || r == '#' || r == ']' || r == '}' || r == '\0' ==> !IsWhitespace(r) && !IsNL(r)
    ensures !(IsWhitespace(r) && IsNL(r))
  {
  }

  predicate Marks(input: seq<Unit>, a: nat, b: nat)
  {
    a <= b <= |input| && forall k :: a <= k < b ==> input[k].Rune? && IsMark(input[k].c)
  }

  /** The backslashes directly in front of k, back to a. */
  function Slashes(input: seq<Unit>, a: nat, k: nat): nat
  {
    if a < k <= |input| && input[k - 1] == Rune('\\') then 1 + Slashes(input, a, k - 1) else 0
  }

  /** In a text from a on, the character at k belongs to an escape that a backslash began. */
  predicate IsEscaped(input: seq<Unit>, a: nat, k: nat) { Slashes(input, a, k) % 2 == 1 }

  predicate Spells(input: seq<Unit>, a: nat, b: nat, text: string)
  {
    b <= |input| && b == a + |text| && forall k :: 0 <= k < |text| ==> input[a + k] == Rune(text[k])
  }

  predicate SpaceAt(input: seq<Unit>, k: nat) { k < |input| && input[k].Rune? && IsWhitespace(input[k].c) }

  predicate NewlineAt(input: seq<Unit>, k: nat) { k < |input| && input[k].Rune? && IsNL(input[k].c) }

  predicate DigitAt(input: seq<Unit>, k: nat) { k < |input| && input[k].Rune? && IsDigit(input[k].c) }

  /** A digit of the base whose letter is at k. */
  predicate BaseDigit(input: seq<Unit>, k: nat)
  {
    k + 1 < |input| && input[k + 1].Rune?
    && if Is(input, k, 'b') then IsBinary(input[k + 1].c) else if Is(input, k, 'o') then IsOctal(input[k + 1].c) else IsHex(input[k + 1].c)
  }

  /** The first position from k on without a space. */
  function SkipSpace(input: seq<Unit>, k: nat): nat
    decreases |input| - k
  {
    if SpaceAt(input, k) then SkipSpace(input, k + 1) else k
  }

  lemma SkipSpaceStops(input: seq<Unit>, k: nat)
    ensures !SpaceAt(input, SkipSpace(input, k)) && SkipSpace(input, k) >= k
    ensures forall j :: k <= j < SkipSpace(input, k) ==> SpaceAt(input, j)
    decreases |input| - k
  {
    if SpaceAt(input, k) { SkipSpaceStops(input, k + 1); }
  }

  // ------------------------------------------------------------- literals

  /** A sign, if any. */
  predicate Signed(input: seq<Unit>, a: nat, m: nat) { m == a || (m == a + 1 && IsOneOf(input, a, "+-")) }

  /** A decimal number, at least one digit long. */
  predicate Decimal(input: seq<Unit>, a: nat, b: nat)
  {
    exists m: nat :: Signed(input, a, m) && m < b && Span(input, m, m + 1, Digits) && Span(input, m, b, Decimals)
  }

  /** 0x, 0o or 0b and digits, at least one character long. */
  predicate Based(input: seq<Unit>, a: nat, b: nat, base: char, cl: Class)
  {
    Is(input, a, '0') && Is(input, a + 1, base) && a + 2 <= b && Span(input, a + 2, b, cl)
  }

  /** A decimal number, then a point or an exponent. */
  predicate Floating(input: seq<Unit>, a: nat, b: nat)
  {
    exists m: nat :: Decimal(input, a, m) && IsOneOf(input, m, ".eE") && m < b && Span(input, m + 1, b, FloatTail)
  }

  /** Digits, at least two if the first is 0, then a dash or a colon. */
  predicate Dated(input: seq<Unit>, a: nat, b: nat)
  {
    exists m: nat :: DateYear(input, a, m) && IsOneOf(input, m, "-:") && m < b && Span(input, m + 1, b, DateTail)
  }

  predicate DateYear(input: seq<Unit>, a: nat, m: nat) { a < m && Span(input, a, m, Digits) && !One(input, a, m, '0') }

  /** inf and nan, and what else the source's test lets through. */
  predicate FloatWord(input: seq<Unit>, a: nat, b: nat)
  {
    Spells(input, a, b, "inf") || Spells(input, a, b, "nan") || Spells(input, a, b, "nnf") || Spells(input, a, b, "ian")
    || Spells(input, a, b, "inan") || Spells(input, a, b, "nnan")
  }

  predicate SignedWord(input: seq<Unit>, a: nat, b: nat)
  {
    IsOneOf(input, a, "+-") && (Spells(input, a + 1, b, "inf") || Spells(input, a + 1, b, "nan"))
  }

  // -------------------------------------------------------------- lexemes

  /** In a basic string every quote is escaped. */
  predicate Basic(input: seq<Unit>, a: nat, b: nat)
  {
    Is(input, a - 1, '"') && a <= b <= |input|
    && forall k :: a <= k < b && Is(input, k, '"') ==> IsEscaped(input, a, k)
  }

  /** In a multi-line string three quotes without a fourth are escaped. */
  predicate Multi(input: seq<Unit>, a: nat, b: nat)
  {
    Three(input, a - 3, '"') && a <= b <= |input|
    && forall k :: a <= k < b && LastThree(input, k, '"') ==> IsEscaped(input, a, k)
  }

  predicate Raw(input: seq<Unit>, a: nat, b: nat) { Is(input, a - 1, '\'') && Span(input, a, b, RawText) }

  predicate MultiRaw(input: seq<Unit>, a: nat, b: nat)
  {
    Three(input, a - 3, '\'') && a <= b <= |input| && forall k :: a <= k < b ==> !LastThree(input, k, '\'')
  }

  predicate Name(input: seq<Unit>, tomlNext: bool, a: nat, b: nat) { Span(input, a, b, if tomlNext then BareNext else Bare) }

  predicate Remark(input: seq<Unit>, a: nat, b: nat) { Is(input, a - 1, '#') && Span(input, a, b, Line) }

  /** Neither a base nor a date begins here. */
  predicate NoOther(input: seq<Unit>, a: nat, b: nat)
  {
    if One(input, a, b, '0') then !IsOneOf(input, b, "xob") else Span(input, a, b, Digits) ==> !IsOneOf(input, b, "-:")
  }

  predicate Integer(input: seq<Unit>, a: nat, b: nat)
  {
    (Decimal(input, a, b) && Stop(input, b, Decimals) && !IsOneOf(input, b, ".eE") && NoOther(input, a, b))
    || (a + 2 < b && Based(input, a, b, 'x', HexDigits) && Stop(input, b, HexDigits))
    || (a + 2 < b && Based(input, a, b, 'o', OctalDigits) && Stop(input, b, OctalDigits))
    || (a + 2 < b && Based(input, a, b, 'b', BinaryDigits) && Stop(input, b, BinaryDigits))
  }

  /** What an item of type t covers; comment says whether the item before it begins a comment. */
  predicate Lexeme(input: seq<Unit>, tomlNext: bool, comment: bool, t: Type, a: nat, b: nat)
  {
    match t
    case ItemError => true
    case ItemEOF => b == |input| && Marks(input, a, b)
    case ItemText =>
      if comment then Remark(input, a, b) && Stop(input, b, Line)
      else Name(input, tomlNext, a, b) && Stop(input, b, if tomlNext then BareNext else Bare)
    case ItemString => Basic(input, a, b) && Is(input, b, '"') && !IsEscaped(input, a, b)
    case ItemStringEsc => Basic(input, a, b) && Is(input, b, '"') && !IsEscaped(input, a, b)
    case ItemRawString => Raw(input, a, b) && Is(input, b, '\'')
    case ItemMultilineString => Multi(input, a, b) && LastThree(input, b, '"') && !IsEscaped(input, a, b)
    case ItemRawMultilineString => MultiRaw(input, a, b) && LastThree(input, b, '\'')
    case ItemBool => Spells(input, a, b, "true") || Spells(input, a, b, "false")
    case ItemInteger => Integer(input, a, b)
    case ItemFloat =>
      (Floating(input, a, b) && Stop(input, b, FloatTail)) || FloatWord(input, a, b) || SignedWord(input, a, b)
    case ItemDatetime => Dated(input, a, b) && Stop(input, b, DateTail)
    case ItemArray => a == b && Is(input, a - 1, '[')
    case ItemArrayEnd => a == b && Is(input, a - 1, ']')
    case ItemTableStart => One(input, a, b, '[') && !Is(input, b, '[')
    case ItemTableEnd => One(input, a, b, ']')
    case ItemArrayTableStart => One(input, a, b - 1, '[') && Is(input, b - 1, '[')
    case ItemArrayTableEnd => One(input, a, b - 1, ']') && Is(input, b - 1, ']')
    case ItemKeyStart => a == b < |input|
    case ItemKeyEnd => One(input, a, b, '=')
    case ItemCommentStart => a == b && Is(input, a - 1, '#')
    case ItemInlineTableStart => a == b && Is(input, a - 1, '{')
    case ItemInlineTableEnd => a == b && Is(input, a - 1, '}')
  }

  // ----------------------------------------------- what a state has seen

  datatype Phase = Fresh | Loose | OpenBracket | CloseBracket | BehindBracket | BehindBrace | BehindHash | NamePart | InLine
    | InBasic | InMulti | InRaw | InMultiRaw | InMultiSlash | BasicSlash | Sign | Zero | InDigits | InDecimal | InHex | InOctal
    | InBinary | InFloat | InDate | InWord

  predicate Covered(phase: Phase, input: seq<Unit>, tomlNext: bool, a: nat, b: nat)
  {
    match phase
    case Fresh => a == b
    case Loose => Marks(input, a, b)
    case OpenBracket => One(input, a, b, '[')
    case CloseBracket => One(input, a, b, ']')
    case BehindBracket => Marks(input, a, b) && Is(input, b - 1, ']')
    case BehindBrace => Marks(input, a, b) && Is(input, b - 1, '}')
    case BehindHash => Marks(input, a, b) && Is(input, b - 1, '#')
    case NamePart => Name(input, tomlNext, a, b)
    case InLine => Remark(input, a, b)
    case InBasic => Basic(input, a, b) && !IsEscaped(input, a, b)
    case InMulti => Multi(input, a, b) && !IsEscaped(input, a, b)
    case InRaw => Raw(input, a, b)
    case InMultiRaw => MultiRaw(input, a, b)
    case InMultiSlash => Multi(input, a, b) && IsEscaped(input, a, b)
    case BasicSlash => Basic(input, a, b) && IsEscaped(input, a, b)
    case Sign => b == a + 1 && IsOneOf(input, a, "+-")
    case Zero => One(input, a, b, '0')
    case InDigits => DateYear(input, a, b)
    case InDecimal => Decimal(input, a, b) && !Span(input, a, b, Digits)
    case InHex => Based(input, a, b, 'x', HexDigits) && (a + 2 < b || Span(input, b, b + 1, HexDigits))
    case InOctal => Based(input, a, b, 'o', OctalDigits) && (a + 2 < b || Span(input, b, b + 1, OctalDigits))
    case InBinary => Based(input, a, b, 'b', BinaryDigits) && (a + 2 < b || Span(input, b, b + 1, BinaryDigits))
    case InFloat => Floating(input, a, b)
    case InDate => Dated(input, a, b)
    case InWord => a == b || (a < b && (Is(input, b, 'n') || Is(input, b, 'a')))
  }

  /** One more character takes a phase to another one. */
  predicate Follows(phase: Phase, to: Phase, tomlNext: bool, r: char)
  {
    match phase
    case Fresh =>
      (to == InDigits && IsDigit(r) && r != '0') || (to == Zero && r == '0') || (to == Sign && (r == '+' || r == '-'))
      || (to == OpenBracket && r == '[') || (to == CloseBracket && r == ']')
    case Zero =>
      (to == InDigits && IsDigit(r)) || (to == InDecimal && r == '_') || (to == InFloat && (r == '.' || r == 'e' || r == 'E'))
    case InDigits =>
      (to == InDigits && IsDigit(r)) || (to == InDecimal && r == '_') || (to == InDate && (r == '-' || r == ':'))
      || (to == InFloat && (r == '.' || r == 'e' || r == 'E'))
    case Sign => to == InDecimal && IsDigit(r)
    case InDecimal => (to == InDecimal && In(Decimals, r)) || (to == InFloat && (r == '.' || r == 'e' || r == 'E'))
    case InHex => to == InHex && In(HexDigits, r)
    case InOctal => to == InOctal && In(OctalDigits, r)
    case InBinary => to == InBinary && In(BinaryDigits, r)
    case InFloat => to == InFloat && In(FloatTail, r)
    case InDate => to == InDate && In(DateTail, r)
    case NamePart => to == NamePart && IsBareKeyChar(r, tomlNext)
    case InLine => to == InLine && !IsNL(r)
    case InRaw => to == InRaw && r != '\'' && !IsNL(r)
    case InMultiRaw => to == InMultiRaw && r != '\''
    case InBasic => r != '"' && to == if r == '\\' then BasicSlash else InBasic
    case BasicSlash => to == InBasic
    case InMulti => r != '"' && to == if r == '\\' then InMultiSlash else InMulti
    case InMultiSlash => to == InMulti
    case _ => false
  }

  lemma Goes(phase: Phase, to: Phase, input: seq<Unit>, tomlNext: bool, a: nat, p: nat, r: char)
    requires Covered(phase, input, tomlNext, a, p) && Is(input, p, r) && Follows(phase, to, tomlNext, r)
    ensures Covered(to, input, tomlNext, a, p + 1)
  {
    hide Covered, Follows, Decimal, Floating, Dated;
    if phase.Fresh? || phase.Zero? || phase.Sign? { GoesFirst(phase, to, input, tomlNext, a, p, r); }
    else if phase.InDigits? || phase.InDecimal? { GoesDigits(phase, to, input, tomlNext, a, p, r); }
    else if phase.InFloat? { GoesFloat(to, input, tomlNext, a, p, r); }
    else if phase.InDate? { GoesDate(to, input, tomlNext, a, p, r); }
    else { GoesText(phase, to, input, tomlNext, a, p, r); }
  }

  lemma DigitsAreDecimal(input: seq<Unit>, a: nat, m: nat, b: nat)
    requires Signed(input, a, m) && m < b && Span(input, m, m + 1, Digits) && Span(input, m, b, Decimals)
    ensures Decimal(input, a, b)
  {
  }

  lemma GoesFirst(phase: Phase, to: Phase, input: seq<Unit>, tomlNext: bool, a: nat, p: nat, r: char)
    requires Covered(phase, input, tomlNext, a, p) && Is(input, p, r) && Follows(phase, to, tomlNext, r)
    requires phase.Fresh? || phase.Zero? || phase.Sign?
    ensures Covered(to, input, tomlNext, a, p + 1)
  {
    if to == InDecimal || to == InFloat {
      var m := if phase.Sign? then p else a;
      var end := if to == InFloat then p else p + 1;
      DigitsAreDecimal(input, a, m, end);
      if to == InFloat { FloatBegins(input, a, p); }
    }
  }

  lemma FloatBegins(input: seq<Unit>, a: nat, m: nat)
    requires Decimal(input, a, m) && IsOneOf(input, m, ".eE")
    ensures Floating(input, a, m + 1)
  {
    hide Decimal;
    assert Span(input, m + 1, m + 1, FloatTail);
  }

  lemma GoesDigits(phase: Phase, to: Phase, input: seq<Unit>, tomlNext: bool, a: nat, p: nat, r: char)
    requires Covered(phase, input, tomlNext, a, p) && Is(input, p, r) && Follows(phase, to, tomlNext, r)
    requires phase.InDigits? || phase.InDecimal?
    ensures Covered(to, input, tomlNext, a, p + 1)
  {
    if phase.InDigits? { DigitsAreDecimal(input, a, a, p); }
    if to == InDecimal {
      DecimalGoes(input, a, p, r);
      hide Decimal;
    } else if to == InFloat {
      hide Decimal, Floating;
      FloatBegins(input, a, p);
    } else if to == InDate {
      assert Span(input, p + 1, p + 1, DateTail);
    }
  }

  lemma DecimalGoes(input: seq<Unit>, a: nat, p: nat, r: char)
    requires Decimal(input, a, p) && Is(input, p, r) && In(Decimals, r)
    ensures Decimal(input, a, p + 1)
  {
    var m: nat :| Signed(input, a, m) && m < p && Span(input, m, m + 1, Digits) && Span(input, m, p, Decimals);
    DigitsAreDecimal(input, a, m, p + 1);
  }

  lemma GoesFloat(to: Phase, input: seq<Unit>, tomlNext: bool, a: nat, p: nat, r: char)
    requires Covered(InFloat, input, tomlNext, a, p) && Is(input, p, r) && Follows(InFloat, to, tomlNext, r)
    ensures Covered(to, input, tomlNext, a, p + 1)
  {
    hide Decimal;
    var m: nat :| Decimal(input, a, m) && IsOneOf(input, m, ".eE") && m < p && Span(input, m + 1, p, FloatTail);
    assert Span(input, m + 1, p + 1, FloatTail);
  }

  lemma GoesDate(to: Phase, input: seq<Unit>, tomlNext: bool, a: nat, p: nat, r: char)
    requires Covered(InDate, input, tomlNext, a, p) && Is(input, p, r) && Follows(InDate, to, tomlNext, r)
    ensures Covered(to, input, tomlNext, a, p + 1)
  {
    hide DateYear;
    var m: nat :| DateYear(input, a, m) && IsOneOf(input, m, "-:") && m < p && Span(input, m + 1, p, DateTail);
    assert Span(input, m + 1, p + 1, DateTail);
  }

  lemma GoesText(phase: Phase, to: Phase, input: seq<Unit>, tomlNext: bool, a: nat, p: nat, r: char)
    requires Covered(phase, input, tomlNext, a, p) && Is(input, p, r) && Follows(phase, to, tomlNext, r)
    requires !phase.Fresh? && !phase.Zero? && !phase.Sign? && !phase.InDigits? && !phase.InDecimal? && !phase.InFloat? && !phase.InDate?
    ensures Covered(to, input, tomlNext, a, p + 1)
  {
    hide Decimal, Floating, Dated;
    if phase.InBasic? || phase.InMulti? || phase.BasicSlash? || phase.InMultiSlash? {
      GoesString(phase, to, input, tomlNext, a, p, r);
    } else {
      hide IsEscaped;
    }
  }

  lemma GoesString(phase: Phase, to: Phase, input: seq<Unit>, tomlNext: bool, a: nat, p: nat, r: char)
    requires Covered(phase, input, tomlNext, a, p) && Is(input, p, r) && Follows(phase, to, tomlNext, r)
    requires phase.InBasic? || phase.InMulti? || phase.BasicSlash? || phase.InMultiSlash?
    ensures Covered(to, input, tomlNext, a, p + 1)
  {
    assert Slashes(input, a, p + 1) == if r == '\\' then 1 + Slashes(input, a, p) else 0;
  }

  /** The character that ends a text, or the end of the input. */
  predicate Ahead(input: seq<Unit>, b: nat, r: char) { b <= |input| && (b < |input| ==> input[b] == Rune(r)) }

  predicate Ends(phase: Phase, t: Type, tomlNext: bool, r: char)
  {
    match phase
    case Zero => t == ItemInteger && !In(Decimals, r) && r != '.' && r != 'e' && r != 'E' && r != 'x' && r != 'o' && r != 'b'
    case InDigits => t == ItemInteger && !In(Decimals, r) && r != '.' && r != 'e' && r != 'E' && r != '-' && r != ':'
    case InDecimal => t == ItemInteger && !In(Decimals, r) && r != '.' && r != 'e' && r != 'E'
    case InHex => t == ItemInteger && !In(HexDigits, r)
    case InOctal => t == ItemInteger && !In(OctalDigits, r)
    case InBinary => t == ItemInteger && !In(BinaryDigits, r)
    case InFloat => t == ItemFloat && !In(FloatTail, r)
    case InDate => t == ItemDatetime && !In(DateTail, r)
    case NamePart => t == ItemText && !IsBareKeyChar(r, tomlNext)
    case _ => false
  }

  /** What a literal or a bare name covers once it has ended. */
  lemma Ended(phase: Phase, t: Type, input: seq<Unit>, tomlNext: bool, a: nat, b: nat, r: char)
    requires Covered(phase, input, tomlNext, a, b) && Ahead(input, b, r) && Ends(phase, t, tomlNext, r)
    ensures Lexeme(input, tomlNext, false, t, a, b)
  {
    if phase.Zero? || phase.InDigits? {
      DigitsAreDecimal(input, a, a, b);
    }
    hide Decimal, Floating, Dated;
  }

  // ------------------------------------------------ beginnings and ends

  lemma Settled(input: seq<Unit>, tomlNext: bool, a: nat)
    requires a <= |input|
    ensures Covered(Fresh, input, tomlNext, a, a) && Covered(NamePart, input, tomlNext, a, a) && Covered(Loose, input, tomlNext, a, a)
  {
  }

  /** One more mark between items. */
  lemma MarkGoes(input: seq<Unit>, tomlNext: bool, a: nat, p: nat, r: char)
    requires (Covered(Fresh, input, tomlNext, a, p) || Covered(Loose, input, tomlNext, a, p)) && Is(input, p, r) && IsMark(r)
    ensures Covered(Loose, input, tomlNext, a, p + 1)
  {
  }

  lemma QuotesGo(input: seq<Unit>, tomlNext: bool, a: nat, q: char)
    requires IsQuote(q)
    ensures Is(input, a, q) ==> Covered(Loose, input, tomlNext, a, a + 1)
    ensures Three(input, a, q) ==> Covered(Loose, input, tomlNext, a, a + 3)
  {
  }

  /** The closing quotes of a multi-line string. */
  lemma ClosingThree(input: seq<Unit>, tomlNext: bool, t: Type, a: nat, b: nat)
    requires t.ItemMultilineString? || t.ItemRawMultilineString?
    requires Lexeme(input, tomlNext, false, t, a, b)
    ensures Covered(Loose, input, tomlNext, b, b + 3)
    ensures Three(input, b, if t.ItemMultilineString? then '"' else '\'')
  {
  }

  lemma FreshMeans(input: seq<Unit>, tomlNext: bool, a: nat, b: nat)
    requires Covered(Fresh, input, tomlNext, a, b)
    ensures a == b
  {
  }

  /** One more mark, which begins a comment or ends a group. */
  lemma BehindGoes(input: seq<Unit>, tomlNext: bool, a: nat, p: nat, r: char)
    requires (Covered(Fresh, input, tomlNext, a, p) || Covered(Loose, input, tomlNext, a, p)) && Is(input, p, r)
    ensures r == ']' ==> Covered(BehindBracket, input, tomlNext, a, p + 1)
    ensures r == '}' ==> Covered(BehindBrace, input, tomlNext, a, p + 1)
    ensures r == '#' ==> Covered(BehindHash, input, tomlNext, a, p + 1)
  {
  }

  lemma BehindMeans(phase: Phase, input: seq<Unit>, tomlNext: bool, a: nat, b: nat)
    requires Covered(phase, input, tomlNext, a, b) && (phase.BehindBracket? || phase.BehindBrace? || phase.BehindHash?)
    ensures Covered(Loose, input, tomlNext, a, b)
    ensures Is(input, b - 1, if phase.BehindBracket? then ']' else if phase.BehindBrace? then '}' else '#')
  {
  }

  lemma TextBegins(input: seq<Unit>, tomlNext: bool, a: nat)
    requires a <= |input|
    ensures Is(input, a - 1, '"') ==> Covered(InBasic, input, tomlNext, a, a)
    ensures Is(input, a - 1, '\'') ==> Covered(InRaw, input, tomlNext, a, a)
    ensures Is(input, a - 1, '#') ==> Covered(InLine, input, tomlNext, a, a)
    ensures Three(input, a - 3, '"') ==> Covered(InMulti, input, tomlNext, a, a)
    ensures Three(input, a - 3, '\'') ==> Covered(InMultiRaw, input, tomlNext, a, a)
  {
  }

  lemma QuoteBegins(input: seq<Unit>, tomlNext: bool, a: nat, q: char)
    requires a <= |input| && Is(input, a - 1, q) && IsQuote(q)
    ensures Covered(if q == '"' then InBasic else InRaw, input, tomlNext, a, a)
  {
    hide Covered;
    TextBegins(input, tomlNext, a);
  }

  lemma ThreeBegin(input: seq<Unit>, tomlNext: bool, a: nat, q: char)
    requires a <= |input| && Is(input, a - 3, q) && Is(input, a - 2, q) && Is(input, a - 1, q) && IsQuote(q)
    ensures Covered(if q == '"' then InMulti else InMultiRaw, input, tomlNext, a, a)
  {
    hide Covered;
    TextBegins(input, tomlNext, a);
  }

  /** A quote inside a multi-line string. */
  lemma QuoteInside(phase: Phase, q: char, input: seq<Unit>, tomlNext: bool, a: nat, p: nat)
    requires (phase == InMulti && q == '"') || (phase == InMultiRaw && q == '\'')
    requires Covered(phase, input, tomlNext, a, p) && Is(input, p, q) && !LastThree(input, p, q)
    ensures Covered(phase, input, tomlNext, a, p + 1)
  {
    hide LastThree, Three;
  }

  lemma BasedBegins(input: seq<Unit>, tomlNext: bool, a: nat, r: char, d: char)
    requires Covered(Zero, input, tomlNext, a, a + 1) && Is(input, a + 1, r) && Is(input, a + 2, d)
    ensures r == 'x' && IsHex(d) ==> Covered(InHex, input, tomlNext, a, a + 2)
    ensures r == 'o' && IsOctal(d) ==> Covered(InOctal, input, tomlNext, a, a + 2)
    ensures r == 'b' && IsBinary(d) ==> Covered(InBinary, input, tomlNext, a, a + 2)
  {
  }

  lemma ZeroMeans(input: seq<Unit>, tomlNext: bool, a: nat, b: nat)
    requires Covered(Zero, input, tomlNext, a, b)
    ensures b == a + 1
  {
  }

  lemma SignMeans(input: seq<Unit>, tomlNext: bool, a: nat, b: nat)
    requires Covered(Sign, input, tomlNext, a, b)
    ensures b == a + 1 && IsOneOf(input, a, "+-")
  {
  }

  lemma BracketOpens(input: seq<Unit>, tomlNext: bool, a: nat, p: nat)
    requires Covered(Fresh, input, tomlNext, a, p) && Is(input, p, '[')
    ensures Covered(OpenBracket, input, tomlNext, a, p + 1)
  {
  }

  lemma SignBegins(input: seq<Unit>, tomlNext: bool, a: nat, p: nat, r: char)
    requires Covered(Fresh, input, tomlNext, a, p) && Is(input, p, r) && (r == '+' || r == '-')
    ensures Covered(Sign, input, tomlNext, a, p + 1)
  {
  }

  lemma SignGoes(input: seq<Unit>, tomlNext: bool, a: nat, p: nat, r: char)
    requires Covered(Sign, input, tomlNext, a, p) && Is(input, p, r) && IsDigit(r)
    ensures Covered(InDecimal, input, tomlNext, a, p + 1)
  {
    hide Covered;
    Goes(Sign, InDecimal, input, tomlNext, a, p, r);
  }

  lemma ZeroGoes(input: seq<Unit>, tomlNext: bool, a: nat, p: nat, r: char)
    requires Covered(Zero, input, tomlNext, a, p) && Is(input, p, r)
    ensures IsDigit(r) ==> Covered(InDigits, input, tomlNext, a, p + 1)
    ensures r == '_' ==> Covered(InDecimal, input, tomlNext, a, p + 1)
    ensures r == '.' || r == 'e' || r == 'E' ==> Covered(InFloat, input, tomlNext, a, p + 1)
  {
    hide Covered;
    if IsDigit(r) { Goes(Zero, InDigits, input, tomlNext, a, p, r); }
    if r == '_' { Goes(Zero, InDecimal, input, tomlNext, a, p, r); }
    if r == '.' || r == 'e' || r == 'E' { Goes(Zero, InFloat, input, tomlNext, a, p, r); }
  }

  lemma BasicGoes(input: seq<Unit>, tomlNext: bool, a: nat, p: nat, r: char)
    requires Covered(InBasic, input, tomlNext, a, p) && Is(input, p, r) && r != '"'
    ensures Covered(if r == '\\' then BasicSlash else InBasic, input, tomlNext, a, p + 1)
  {
    hide Covered;
    Goes(InBasic, if r == '\\' then BasicSlash else InBasic, input, tomlNext, a, p, r);
  }

  lemma MultiGoes(input: seq<Unit>, tomlNext: bool, a: nat, p: nat, r: char)
    requires Covered(InMulti, input, tomlNext, a, p) && Is(input, p, r) && r != '"'
    ensures Covered(if r == '\\' then InMultiSlash else InMulti, input, tomlNext, a, p + 1)
  {
    hide Covered;
    Goes(InMulti, if r == '\\' then InMultiSlash else InMulti, input, tomlNext, a, p, r);
  }

  lemma Word3(input: seq<Unit>, a: nat, c: char)
    requires Is(input, a, c) && (c == 'i' || c == 'n') && Is(input, a + 1, 'n') && Is(input, a + 2, 'f')
    ensures FloatWord(input, a, a + 3)
  {
    if c == 'i' { assert Spells(input, a, a + 3, "inf"); } else { assert Spells(input, a, a + 3, "nnf"); }
  }

  /** nan and its kin: an n that led nowhere may stand in front of an. */
  lemma Word4(input: seq<Unit>, a: nat, b: nat, c: char)
    requires Is(input, a, c) && (c == 'i' || c == 'n') && a + 3 <= b <= a + 4
    requires (b == a + 4 ==> Is(input, a + 1, 'n')) && Is(input, b - 2, 'a') && Is(input, b - 1, 'n')
    ensures FloatWord(input, a, b)
  {
    if b == a + 3 {
      if c == 'i' { assert Spells(input, a, b, "ian"); } else { assert Spells(input, a, b, "nan"); }
    } else {
      if c == 'i' { assert Spells(input, a, b, "inan"); } else { assert Spells(input, a, b, "nnan"); }
    }
  }

  /** Items that are made of brackets, signs and positions. */
  lemma MarkIs(input: seq<Unit>, tomlNext: bool, a: nat, b: nat)
    ensures b == |input| && Covered(Loose, input, tomlNext, a, b) ==> Lexeme(input, tomlNext, false, ItemEOF, a, b)
    ensures a == b < |input| ==> Lexeme(input, tomlNext, false, ItemKeyStart, a, b)
    ensures One(input, a, b, '=') ==> Lexeme(input, tomlNext, false, ItemKeyEnd, a, b)
  {
  }

  lemma BehindMarks(input: seq<Unit>, tomlNext: bool, a: nat)
    ensures Is(input, a - 1, '[') ==> Lexeme(input, tomlNext, false, ItemArray, a, a)
    ensures Is(input, a - 1, ']') ==> Lexeme(input, tomlNext, false, ItemArrayEnd, a, a)
    ensures Is(input, a - 1, '{') ==> Lexeme(input, tomlNext, false, ItemInlineTableStart, a, a)
    ensures Is(input, a - 1, '}') ==> Lexeme(input, tomlNext, false, ItemInlineTableEnd, a, a)
    ensures Is(input, a - 1, '#') ==> Lexeme(input, tomlNext, false, ItemCommentStart, a, a)
  {
  }

  lemma HeaderMarks(input: seq<Unit>, tomlNext: bool, a: nat, b: nat)
    ensures Covered(OpenBracket, input, tomlNext, a, b) && !Is(input, b, '[') ==> Lexeme(input, tomlNext, false, ItemTableStart, a, b)
    ensures Covered(OpenBracket, input, tomlNext, a, b) && Is(input, b, '[') ==>
      Lexeme(input, tomlNext, false, ItemArrayTableStart, a, b + 1)
    ensures Covered(CloseBracket, input, tomlNext, a, b) ==> Lexeme(input, tomlNext, false, ItemTableEnd, a, b)
    ensures Covered(CloseBracket, input, tomlNext, a, b) && Is(input, b, ']') ==>
      Lexeme(input, tomlNext, false, ItemArrayTableEnd, a, b + 1)
  {
  }

  lemma TextEnds(input: seq<Unit>, tomlNext: bool, a: nat, b: nat)
    ensures Covered(InBasic, input, tomlNext, a, b) && Is(input, b, '"') ==>
      Lexeme(input, tomlNext, false, ItemString, a, b) && Lexeme(input, tomlNext, false, ItemStringEsc, a, b)
    ensures Covered(InRaw, input, tomlNext, a, b) && Is(input, b, '\'') ==> Lexeme(input, tomlNext, false, ItemRawString, a, b)
    ensures Covered(InMulti, input, tomlNext, a, b) && LastThree(input, b, '"') ==>
      Lexeme(input, tomlNext, false, ItemMultilineString, a, b)
    ensures Covered(InMultiRaw, input, tomlNext, a, b) && LastThree(input, b, '\'') ==>
      Lexeme(input, tomlNext, false, ItemRawMultilineString, a, b)
  {
  }

  lemma RemarkEnds(input: seq<Unit>, tomlNext: bool, a: nat, b: nat, r: char)
    requires Covered(InLine, input, tomlNext, a, b) && Ahead(input, b, r) && (b < |input| ==> IsNL(r))
    ensures Lexeme(input, tomlNext, true, ItemText, a, b)
  {
  }

  lemma WordIs(input: seq<Unit>, tomlNext: bool, a: nat, b: nat)
    ensures FloatWord(input, a, b) || SignedWord(input, a, b) ==> Lexeme(input, tomlNext, false, ItemFloat, a, b)
  {
  }

  lemma FirstLetter(input: seq<Unit>, p: nat, b: nat)
    requires Spells(input, p, b, "true") || Spells(input, p, b, "false")
    ensures Is(input, p, 't') || Is(input, p, 'f')
  {
    assert Spells(input, p, b, "true") ==> input[p + 0] == Rune("true"[0]);
    assert Spells(input, p, b, "false") ==> input[p + 0] == Rune("false"[0]);
  }

  lemma BoolIs(input: seq<Unit>, tomlNext: bool, a: nat, p: nat, b: nat)
    requires Covered(InWord, input, tomlNext, a, p) && (Spells(input, p, b, "true") || Spells(input, p, b, "false"))
    ensures Lexeme(input, tomlNext, false, ItemBool, a, b)
  {
    FirstLetter(input, p, b);
  }

  /** A word spelled out, one character at a time. */
  lemma SpellsNext(input: seq<Unit>, a: nat, b: nat, text: string, r: char)
    requires Spells(input, a, b, text) && Is(input, b, r)
    ensures Spells(input, a, b + 1, text + [r])
  {
  }

  lemma SpellsNothing(input: seq<Unit>, a: nat)
    requires a <= |input|
    ensures Spells(input, a, a, "")
  {
  }

  // -------------------------------------------------------- all the items

  /** Where the n-th item begins to look for its text: behind the one before. */
  function EndOf(items: seq<Item>, n: nat): nat
    requires n <= |items|
  {
    if n == 0 then 0 else items[n - 1].end
  }

  /** Up to a, only marks follow the last item. */
  predicate Tidy(input: seq<Unit>, items: seq<Item>, a: nat) { Marks(input, EndOf(items, |items|), a) }

  /** All items cover what their types say, and only marks lie between them. */
  predicate Lexed(input: seq<Unit>, tomlNext: bool, items: seq<Item>)
  {
    forall i :: 0 <= i < |items| ==> LexedAt(input, tomlNext, items, i)
  }

  predicate LexedAt(input: seq<Unit>, tomlNext: bool, items: seq<Item>, i: nat)
    requires i < |items|
  {
    Marks(input, EndOf(items, i), items[i].start) && items[i].start <= items[i].end <= |input|
    && Lexeme(input, tomlNext, items[i].typ.ItemText? && i > 0 && items[i - 1].typ.ItemCommentStart?, items[i].typ, items[i].start, items[i].end)
  }

  /** The last item begins a comment. */
  predicate Commenting(items: seq<Item>) { items != [] && items[|items| - 1].typ.ItemCommentStart? }

  lemma LexedNext(input: seq<Unit>, tomlNext: bool, items: seq<Item>, i: Item)
    requires Lexed(input, tomlNext, items) && Tidy(input, items, i.start) && i.start <= i.end <= |input|
    requires Lexeme(input, tomlNext, i.typ.ItemText? && Commenting(items), i.typ, i.start, i.end)
    ensures Lexed(input, tomlNext, items + [i]) && Tidy(input, items + [i], i.end)
  {
    hide Lexeme;
    forall k | 0 <= k < |items + [i]| ensures LexedAt(input, tomlNext, items + [i], k) {
      if k < |items| { assert LexedAt(input, tomlNext, items, k); }
    }
  }

  lemma LexedError(input: seq<Unit>, tomlNext: bool, items: seq<Item>, i: Item)
    requires Lexed(input, tomlNext, items) && i.typ.ItemError? && Tidy(input, items, i.start) && i.start <= i.end <= |input|
    ensures Lexed(input, tomlNext, items + [i])
  {
    LexedNext(input, tomlNext, items, i);
  }

  /** Marks passed over behind the last item. */
  lemma TidyOn(input: seq<Unit>, tomlNext: bool, items: seq<Item>, a: nat, b: nat)
    requires Tidy(input, items, a) && Covered(Loose, input, tomlNext, a, b)
    ensures Tidy(input, items, b)
  {
  }

  // ------------------------------------------ what texts are determined by

  /** The items of an input that was read to its end hold every character of it but marks. */
  lemma {:induction false} NothingLost(input: seq<Unit>, tomlNext: bool, items: seq<Item>, k: nat)
    requires Lexed(input, tomlNext, items) && items != [] && items[|items| - 1].typ.ItemEOF? && k < |input|
    ensures (input[k].Rune? && IsMark(input[k].c)) || exists i :: 0 <= i < |items| && items[i].start <= k < items[i].end
  {
    assert LexedAt(input, tomlNext, items, |items| - 1);
    HeldBefore(input, tomlNext, items, |items|, k);
  }

  lemma {:induction false} HeldBefore(input: seq<Unit>, tomlNext: bool, items: seq<Item>, n: nat, k: nat)
    requires Lexed(input, tomlNext, items) && n <= |items| && k < EndOf(items, n) <= |input|
    ensures (input[k].Rune? && IsMark(input[k].c)) || exists i :: 0 <= i < n && items[i].start <= k < items[i].end
  {
    hide Lexeme, IsMark;
    assert LexedAt(input, tomlNext, items, n - 1);
    if k < EndOf(items, n - 1) { HeldBefore(input, tomlNext, items, n - 1, k); }
  }

  /** No character is in two items, and they come in the order of the input. */
  lemma {:induction false} InOrder(input: seq<Unit>, tomlNext: bool, items: seq<Item>, i: nat, j: nat)
    requires Lexed(input, tomlNext, items) && i < j < |items|
    ensures items[i].start <= items[i].end <= items[j].start <= items[j].end <= |input|
  {
    hide Lexeme, IsMark;
    assert LexedAt(input, tomlNext, items, i) && LexedAt(input, tomlNext, items, j);
    if i + 1 < j { InOrder(input, tomlNext, items, i, j - 1); }
  }

  /** A decimal number begins behind its sign, if it has one. */
  function Head(input: seq<Unit>, a: nat): nat { if IsOneOf(input, a, "+-") then a + 1 else a }

  lemma DecimalHead(input: seq<Unit>, a: nat, b: nat)
    requires Decimal(input, a, b)
    ensures Head(input, a) < b && Span(input, Head(input, a), Head(input, a) + 1, Digits) && Span(input, Head(input, a), b, Decimals)
  {
    var m: nat :| Signed(input, a, m) && m < b && Span(input, m, m + 1, Digits) && Span(input, m, b, Decimals);
    assert input[m].Rune? && IsDigit(input[m].c);
  }

  lemma SpanEnd(input: seq<Unit>, a: nat, b: nat, b': nat, cl: Class)
    requires Span(input, a, b, cl) && Stop(input, b, cl) && Span(input, a, b', cl) && Stop(input, b', cl)
    ensures b == b'
  {
  }

  lemma DecimalEnd(input: seq<Unit>, a: nat, b: nat, b': nat)
    requires Decimal(input, a, b) && Stop(input, b, Decimals) && Decimal(input, a, b') && Stop(input, b', Decimals)
    ensures b == b'
  {
    hide Decimal, Head;
    DecimalHead(input, a, b);
    DecimalHead(input, a, b');
    SpanEnd(input, Head(input, a), b, b', Decimals);
  }

  /** In front of a base letter there is only a zero. */
  lemma ZeroHead(input: seq<Unit>, a: nat, b: nat)
    requires Decimal(input, a, b) && Is(input, a, '0') && IsOneOf(input, a + 1, "xob")
    ensures b == a + 1
  {
    hide Decimal;
    DecimalHead(input, a, b);
    assert !In(Decimals, input[a + 1].c);
  }

  predicate IsBased(input: seq<Unit>, a: nat) { Is(input, a, '0') && IsOneOf(input, a + 1, "xob") }

  /** Integers are decimal exactly if no base letter follows a leading zero. */
  lemma IntegerKind(input: seq<Unit>, a: nat, b: nat)
    requires Integer(input, a, b)
    ensures if IsBased(input, a)
      then Based(input, a, b, input[a + 1].c, BaseClass(input[a + 1].c)) && Stop(input, b, BaseClass(input[a + 1].c))
      else Decimal(input, a, b) && Stop(input, b, Decimals) && !IsOneOf(input, b, ".eE") && NoOther(input, a, b)
  {
    hide Decimal;
    if IsBased(input, a) && Decimal(input, a, b) { ZeroHead(input, a, b); }
  }

  function BaseClass(base: char): Class { if base == 'x' then HexDigits else if base == 'o' then OctalDigits else BinaryDigits }

  lemma IntegerEnd(input: seq<Unit>, a: nat, b: nat, b': nat)
    requires Integer(input, a, b) && Integer(input, a, b')
    ensures b == b'
  {
    hide Integer, Decimal, IsBased, NoOther;
    IntegerKind(input, a, b);
    IntegerKind(input, a, b');
    if IsBased(input, a) {
      SpanEnd(input, a + 2, b, b', BaseClass(input[a + 1].c));
    } else {
      DecimalEnd(input, a, b, b');
    }
  }

  /** The point or exponent of a float ends its decimal number. */
  lemma FloatPoint(input: seq<Unit>, a: nat, b: nat) returns (m: nat)
    requires Floating(input, a, b)
    ensures Decimal(input, a, m) && IsOneOf(input, m, ".eE") && Stop(input, m, Decimals) && m < b && Span(input, m + 1, b, FloatTail)
  {
    hide Decimal;
    m :| Decimal(input, a, m) && IsOneOf(input, m, ".eE") && m < b && Span(input, m + 1, b, FloatTail);
  }

  lemma FloatingEnd(input: seq<Unit>, a: nat, b: nat, b': nat)
    requires Floating(input, a, b) && Stop(input, b, FloatTail) && Floating(input, a, b') && Stop(input, b', FloatTail)
    ensures b == b'
  {
    hide Floating, Decimal;
    var m := FloatPoint(input, a, b);
    var m' := FloatPoint(input, a, b');
    DecimalEnd(input, a, m, m');
    SpanEnd(input, m + 1, b, b', FloatTail);
  }

  lemma DateEnd(input: seq<Unit>, a: nat, b: nat, b': nat)
    requires Dated(input, a, b) && Stop(input, b, DateTail) && Dated(input, a, b') && Stop(input, b', DateTail)
    ensures b == b'
  {
    hide Dated;
    var m := DateYearEnd(input, a, b);
    var m' := DateYearEnd(input, a, b');
    SpanEnd(input, a, m, m', Digits);
    SpanEnd(input, m + 1, b, b', DateTail);
  }

  lemma DateYearEnd(input: seq<Unit>, a: nat, b: nat) returns (m: nat)
    requires Dated(input, a, b)
    ensures DateYear(input, a, m) && IsOneOf(input, m, "-:") && Stop(input, m, Digits) && Stop(input, m, Decimals)
    ensures m < b && Span(input, m + 1, b, DateTail)
  {
    m :| DateYear(input, a, m) && IsOneOf(input, m, "-:") && m < b && Span(input, m + 1, b, DateTail);
  }

  lemma Letter(input: seq<Unit>, a: nat, b: nat, text: string, k: nat)
    requires Spells(input, a, b, text) && k < |text|
    ensures Is(input, a + k, text[k])
  {
  }

  lemma ThreeLetters(input: seq<Unit>, a: nat, b: nat, text: string)
    requires Spells(input, a, b, text) && |text| >= 3
    ensures Is(input, a, text[0]) && Is(input, a + 1, text[1]) && Is(input, a + 2, text[2])
  {
    hide Spells, Is;
    Letter(input, a, b, text, 0);
    Letter(input, a, b, text, 1);
    Letter(input, a, b, text, 2);
  }

  /** The letters of a word decide where it ends. */
  lemma WordEnd(input: seq<Unit>, a: nat, b: nat)
    requires FloatWord(input, a, b)
    ensures b == if Is(input, a + 1, 'n') && Is(input, a + 2, 'a') then a + 4 else a + 3
    ensures Is(input, a, 'i') || Is(input, a, 'n')
  {
    var text: string :| text in ["inf", "nan", "nnf", "ian", "inan", "nnan"] && Spells(input, a, b, text);
    ThreeLetters(input, a, b, text);
  }

  lemma SignedWordEnd(input: seq<Unit>, a: nat, b: nat)
    requires SignedWord(input, a, b)
    ensures b == a + 4 && IsOneOf(input, a, "+-") && (Is(input, a + 1, 'i') || Is(input, a + 1, 'n'))
  {
    var text: string :| text in ["inf", "nan"] && Spells(input, a + 1, b, text);
    ThreeLetters(input, a + 1, b, text);
  }

  lemma BoolEnd(input: seq<Unit>, a: nat, b: nat)
    requires Spells(input, a, b, "true") || Spells(input, a, b, "false")
    ensures b == if Is(input, a, 't') then a + 4 else a + 5
    ensures Is(input, a, 't') || Is(input, a, 'f')
  {
    var text: string :| text in ["true", "false"] && Spells(input, a, b, text);
    ThreeLetters(input, a, b, text);
  }

  /** What the first character says, or the one behind a sign. */
  lemma FloatingHead(input: seq<Unit>, a: nat, b: nat)
    requires Floating(input, a, b)
    ensures Span(input, Head(input, a), Head(input, a) + 1, Digits)
  {
    hide Floating, Decimal;
    var m := FloatPoint(input, a, b);
    DecimalHead(input, a, m);
  }

  lemma FloatEnd(input: seq<Unit>, a: nat, b: nat, b': nat)
    requires (Floating(input, a, b) && Stop(input, b, FloatTail)) || FloatWord(input, a, b) || SignedWord(input, a, b)
    requires (Floating(input, a, b') && Stop(input, b', FloatTail)) || FloatWord(input, a, b') || SignedWord(input, a, b')
    ensures b == b'
  {
    hide Floating, FloatWord, SignedWord;
    if Floating(input, a, b) && Floating(input, a, b') && Stop(input, b, FloatTail) && Stop(input, b', FloatTail) {
      FloatingEnd(input, a, b, b');
    } else {
      FloatBeginning(input, a, b);
      FloatBeginning(input, a, b');
    }
  }

  /** Digits, letters and signs tell floats apart. */
  lemma FloatBeginning(input: seq<Unit>, a: nat, b: nat)
    ensures Floating(input, a, b) ==> Span(input, Head(input, a), Head(input, a) + 1, Digits)
    ensures FloatWord(input, a, b) ==> b == if Is(input, a + 1, 'n') && Is(input, a + 2, 'a') then a + 4 else a + 3
    ensures FloatWord(input, a, b) ==> Is(input, a, 'i') || Is(input, a, 'n')
    ensures SignedWord(input, a, b) ==> b == a + 4 && IsOneOf(input, a, "+-") && (Is(input, a + 1, 'i') || Is(input, a + 1, 'n'))
  {
    hide Floating, FloatWord, SignedWord;
    if Floating(input, a, b) { FloatingHead(input, a, b); }
    if FloatWord(input, a, b) { WordEnd(input, a, b); }
    if SignedWord(input, a, b) { SignedWordEnd(input, a, b); }
  }

  /** Where an item ends is determined by its type and where it begins. */
  lemma LexemeEnd(input: seq<Unit>, tomlNext: bool, comment: bool, t: Type, a: nat, b: nat, b': nat)
    requires !t.ItemError? && Lexeme(input, tomlNext, comment, t, a, b) && Lexeme(input, tomlNext, comment, t, a, b')
    ensures b == b'
  {
    hide Integer, Floating, Dated, FloatWord, SignedWord, IsEscaped, Spells, LastThree;
    if t.ItemInteger? { IntegerEnd(input, a, b, b'); }
    else if t.ItemFloat? { FloatEnd(input, a, b, b'); }
    else if t.ItemDatetime? { DateEnd(input, a, b, b'); }
    else if t.ItemText? { SpanEnd(input, a, b, b', if comment then Line else if tomlNext then BareNext else Bare); }
    else if t.ItemBool? { BoolEnd(input, a, b); BoolEnd(input, a, b'); }
    else if IsText(t) { TextEnd(input, tomlNext, t, a, b, b'); }
  }

  /** The closing quote is the first that is not escaped. */
  lemma TextEnd(input: seq<Unit>, tomlNext: bool, t: Type, a: nat, b: nat, b': nat)
    requires IsText(t) && Lexeme(input, tomlNext, false, t, a, b) && Lexeme(input, tomlNext, false, t, a, b')
    ensures b == b'
  {
    hide IsEscaped, LastThree;
  }

  // ---------------------------------------------------- kinds of values

  lemma IntegerNoFloat(input: seq<Unit>, a: nat, b: nat, b': nat)
    requires Integer(input, a, b)
    ensures !Floating(input, a, b')
  {
    hide Integer, Decimal, Floating, NoOther;
    if Floating(input, a, b') {
      IntegerKind(input, a, b);
      var m := FloatPoint(input, a, b');
      if IsBased(input, a) {
        ZeroHead(input, a, m);
      } else {
        DecimalEnd(input, a, b, m);
      }
    }
  }

  lemma DigitsFirst(input: seq<Unit>, a: nat, m: nat)
    requires DateYear(input, a, m)
    ensures Head(input, a) == a && Span(input, a, a + 1, Digits) && Span(input, a, m, Decimals)
  {
  }

  lemma DateNoDecimal(input: seq<Unit>, a: nat, m: nat, b: nat)
    requires DateYear(input, a, m) && IsOneOf(input, m, "-:") && Decimal(input, a, b) && Stop(input, b, Decimals)
    ensures b == m
  {
    hide Decimal, Head;
    DigitsFirst(input, a, m);
    DecimalHead(input, a, b);
    SpanEnd(input, a, b, m, Decimals);
  }

  lemma DateNoInteger(input: seq<Unit>, a: nat, b: nat, b': nat)
    requires Dated(input, a, b')
    ensures !Integer(input, a, b)
  {
    hide Integer, Decimal, Dated, IsBased;
    if Integer(input, a, b) {
      IntegerKind(input, a, b);
      var m := DateYearEnd(input, a, b');
      if IsBased(input, a) {
        BaseNoDate(input, a, m);
      } else {
        DateNoDecimal(input, a, m, b);
      }
    }
  }

  lemma BaseNoDate(input: seq<Unit>, a: nat, m: nat)
    requires DateYear(input, a, m) && IsOneOf(input, m, "-:")
    ensures !IsBased(input, a)
  {
  }

  lemma DateNoFloat(input: seq<Unit>, a: nat, b: nat, b': nat)
    requires Dated(input, a, b')
    ensures !Floating(input, a, b)
  {
    hide Decimal, Dated, Floating;
    if Floating(input, a, b) {
      var m := DateYearEnd(input, a, b');
      var p := FloatPoint(input, a, b);
      DateNoDecimal(input, a, m, p);
    }
  }

  /** Integers and dates begin with digits. */
  lemma NumberBeginning(input: seq<Unit>, a: nat, b: nat)
    ensures Integer(input, a, b) ==> Span(input, Head(input, a), Head(input, a) + 1, Digits)
    ensures Dated(input, a, b) ==> Span(input, Head(input, a), Head(input, a) + 1, Digits)
  {
    hide Decimal, Integer, Dated, IsBased;
    if Integer(input, a, b) {
      IntegerKind(input, a, b);
      if IsBased(input, a) { BaseFirst(input, a); } else { DecimalHead(input, a, b); }
    }
    if Dated(input, a, b) {
      var m := DateYearEnd(input, a, b);
      DigitsFirst(input, a, m);
    }
  }

  lemma BaseFirst(input: seq<Unit>, a: nat)
    requires IsBased(input, a)
    ensures Span(input, Head(input, a), Head(input, a) + 1, Digits)
  {
  }

  predicate Numeric(t: Type) { t.ItemInteger? || t.ItemFloat? || t.ItemDatetime? || t.ItemBool? }

  /** A value that is no string is determined by where it begins: its type, and its text. */
  lemma ValueDetermined(input: seq<Unit>, tomlNext: bool, t: Type, t': Type, a: nat, b: nat, b': nat)
    requires Numeric(t) && Lexeme(input, tomlNext, false, t, a, b)
    requires Numeric(t') && Lexeme(input, tomlNext, false, t', a, b')
    ensures t == t' && b == b'
  {
    hide Lexeme;
    KindsApart(input, tomlNext, t, t', a, b, b');
    LexemeEnd(input, tomlNext, false, t, a, b, b');
  }

  lemma KindsApart(input: seq<Unit>, tomlNext: bool, t: Type, t': Type, a: nat, b: nat, b': nat)
    requires Numeric(t) && Lexeme(input, tomlNext, false, t, a, b)
    requires Numeric(t') && Lexeme(input, tomlNext, false, t', a, b')
    ensures t == t'
  {
    hide Integer, Floating, Dated, FloatWord, SignedWord, Spells;
    Beginning(input, tomlNext, t, a, b);
    Beginning(input, tomlNext, t', a, b');
    if t.ItemInteger? { IntegerNoFloat(input, a, b, b'); }
    if t'.ItemInteger? { IntegerNoFloat(input, a, b', b); }
    if t.ItemDatetime? { DateNoInteger(input, a, b', b); DateNoFloat(input, a, b', b); }
    if t'.ItemDatetime? { DateNoInteger(input, a, b, b'); DateNoFloat(input, a, b, b'); }
  }

  /** How the four kinds begin. */
  lemma Beginning(input: seq<Unit>, tomlNext: bool, t: Type, a: nat, b: nat)
    requires Numeric(t) && Lexeme(input, tomlNext, false, t, a, b)
    ensures t.ItemInteger? || t.ItemDatetime? ==> Span(input, Head(input, a), Head(input, a) + 1, Digits)
    ensures t.ItemFloat? ==>
      Floating(input, a, b) || Is(input, a, 'i') || Is(input, a, 'n')
      || (IsOneOf(input, a, "+-") && (Is(input, a + 1, 'i') || Is(input, a + 1, 'n')))
    ensures t.ItemFloat? && Floating(input, a, b) ==> Span(input, Head(input, a), Head(input, a) + 1, Digits)
    ensures t.ItemBool? ==> Is(input, a, 't') || Is(input, a, 'f')
  {
    hide Integer, Floating, Dated, FloatWord, SignedWord, Spells;
    NumberBeginning(input, a, b);
    FloatBeginning(input, a, b);
    if t.ItemBool? { BoolEnd(input, a, b); }
  }
}
