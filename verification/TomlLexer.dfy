/** The TOML lexer (lex.go): a stack machine of 41 states.

    The input is a sequence of code points, or bytes that are no valid UTF-8; a position counts
    these. Once an error item is out the parser reads no further, so a state function ends there
    in the model. What each state may find on the stack, and what the parser expects when it is
    about to run, is written down once, as Shape; every state function is proved to keep it and to
    come nearer to the end. So the items it emits are always items the parser can use. */
module TomlLexer {
  import opened TomlItems
  import opened TomlText

  datatype State = Top | TopEnd | TableStart | TableEnd | ArrayTableEnd | TableNameStart | TableNameEnd | BareName
    | QuotedName | KeyStart | KeyNameStart | KeyEnd | Value | ArrayValue | ArrayValueEnd | ArrayEnd | InlineTableValue
    | InlineTableValueEnd | InlineTableEnd | String | MultilineString | RawString | MultilineRawString
    | MultilineStringEscape | StringEscape | HexEscape | ShortUnicodeEscape | LongUnicodeEscape | NumberOrDateStart
    | NumberOrDate | Datetime | HexInteger | OctalInteger | BinaryInteger | DecimalNumber | DecimalNumberStart
    | BaseNumberOrDate | Float | Bool | CommentStart | Comment | Nil

  const EOF: char := '\0'

  // ------------------------------------------------------ stack shapes

  /** A value is being lexed: the stack ends at the top level, and on the way up every value is
      inside an array or an inline table. */
  predicate InValue(stack: seq<State>)
  {
    |stack| > 0 &&
    var n := |stack| - 1;
    (stack[n] == TopEnd && n == 0) || ((stack[n] == ArrayValueEnd || stack[n] == InlineTableValueEnd) && InValue(stack[..n]))
  }

  /** A table header is being lexed. */
  predicate InHeader(stack: seq<State>) { |stack| == 1 && (stack[0] == TableEnd || stack[0] == ArrayTableEnd) }

  /** A key in front of a value is being lexed, or the value. */
  predicate InKey(stack: seq<State>) { InValue(stack) && stack[|stack| - 1] != ArrayValueEnd }

  /** A part of a name is being lexed: of a key in front of a value, or of a table header. */
  predicate InName(stack: seq<State>)
  {
    |stack| > 0 &&
    var n := |stack| - 1;
    (stack[n] == KeyEnd && InKey(stack[..n])) || (stack[n] == TableNameEnd && InHeader(stack[..n]))
  }

  /** A comment is being lexed. */
  predicate InComment(stack: seq<State>)
  {
    |stack| > 0 &&
    var n := |stack| - 1;
    (stack[n] == Top && n == 0)
    || ((stack[n] == ArrayValue || stack[n] == ArrayValueEnd || stack[n] == InlineTableValue || stack[n] == InlineTableValueEnd)
        && InValue(stack[..n]))
  }

  // --------------------------------------------- what the parser expects

  /** When the value on top of which the stack stands is complete. */
  function Rest(stack: seq<State>): seq<Symbol>
  {
    if stack == [] then [TopItems]
    else if stack[|stack| - 1] == ArrayValueEnd then Rest(stack[..|stack| - 1]) + [Elements]
    else if stack[|stack| - 1] == InlineTableValueEnd then Rest(stack[..|stack| - 1]) + [Fields]
    else [TopItems]
  }

  /** When the value is still to come. */
  function Slot(stack: seq<State>): seq<Symbol>
  {
    if stack != [] && stack[|stack| - 1] == ArrayValueEnd then Rest(stack) else Rest(stack) + [OneValue]
  }

  function KeyWant(stack: seq<State>, some: bool): seq<Symbol> { Rest(stack) + [OneValue, Parts(ItemKeyEnd, some)] }

  function HeaderWant(stack: seq<State>, some: bool): seq<Symbol>
  {
    [TopItems, Parts(if stack == [TableEnd] then ItemTableEnd else ItemArrayTableEnd, some)]
  }

  /** Between the parts of a name. */
  function NameWant(stack: seq<State>, some: bool): seq<Symbol>
  {
    if stack == [] then []
    else if stack[|stack| - 1] == KeyEnd then KeyWant(stack[..|stack| - 1], some)
    else HeaderWant(stack[..|stack| - 1], some)
  }

  /** After a comment. */
  function Back(stack: seq<State>): seq<Symbol>
  {
    if stack == [] || stack[|stack| - 1] == Top then [TopItems]
    else if stack[|stack| - 1] == ArrayValue || stack[|stack| - 1] == ArrayValueEnd then Rest(stack[..|stack| - 1]) + [Elements]
    else Rest(stack[..|stack| - 1]) + [Fields]
  }

  /** A name is being lexed, its first part or a later one. */
  predicate NameAwaits(stack: seq<State>, want: seq<Symbol>)
  {
    InName(stack) && (want == NameWant(stack, false) || want == NameWant(stack, true))
  }

  /** A string is being lexed: as a value or as part of a name. */
  predicate InString(stack: seq<State>, want: seq<Symbol>)
  {
    (InValue(stack) && want == Slot(stack)) || NameAwaits(stack, want)
  }

  /** After the string. */
  function Passed(stack: seq<State>): seq<Symbol> { if InValue(stack) then Rest(stack) else NameWant(stack, true) }

  /** An escape sequence is being lexed, and after it the string goes on. */
  predicate InEscape(stack: seq<State>, want: seq<Symbol>)
  {
    |stack| > 0 &&
    var n := |stack| - 1;
    (stack[n] == String && InString(stack[..n], want))
    || (stack[n] == MultilineString && InValue(stack[..n]) && want == Slot(stack[..n]))
  }

  datatype Place = AtTop | AtTableEnd | AtArrayTableEnd | AtHeader | AtHeaderEnd | AtName | AtString | AtEscape
    | AtCommentStart | AtComment | AtKeyStart | AtKeyName | AtKeyEnd | AtElements | AtFields | AtValue | Nowhere

  /** Where in the grammar a state belongs. */
  function PlaceOf(s: State): Place
  {
    match s
    case Top => AtTop
    case TopEnd => AtTop
    case TableStart => AtTop
    case TableEnd => AtTableEnd
    case ArrayTableEnd => AtArrayTableEnd
    case TableNameStart => AtHeader
    case TableNameEnd => AtHeaderEnd
    case BareName => AtName
    case QuotedName => AtName
    case KeyStart => AtKeyStart
    case KeyNameStart => AtKeyName
    case KeyEnd => AtKeyEnd
    case ArrayValue => AtElements
    case ArrayValueEnd => AtElements
    case ArrayEnd => AtElements
    case InlineTableValue => AtFields
    case InlineTableValueEnd => AtFields
    case InlineTableEnd => AtFields
    case String => AtString
    case RawString => AtString
    case StringEscape => AtEscape
    case HexEscape => AtEscape
    case ShortUnicodeEscape => AtEscape
    case LongUnicodeEscape => AtEscape
    case CommentStart => AtCommentStart
    case Comment => AtComment
    case Nil => Nowhere
    case _ => AtValue
  }

  predicate Fits(place: Place, stack: seq<State>, want: seq<Symbol>)
  {
    match place
    case AtTop => stack == [] && want == [TopItems]
    case AtTableEnd => stack == [] && want == HeaderWant([TableEnd], true)
    case AtArrayTableEnd => stack == [] && want == HeaderWant([ArrayTableEnd], true)
    case AtHeader => InHeader(stack) && (want == HeaderWant(stack, false) || want == HeaderWant(stack, true))
    case AtHeaderEnd => InHeader(stack) && want == HeaderWant(stack, true)
    case AtName => NameAwaits(stack, want)
    case AtString => InString(stack, want)
    case AtEscape => InEscape(stack, want)
    case AtCommentStart => InComment(stack) && want == Back(stack)
    case AtComment => InComment(stack) && want == Back(stack) + [CommentText]
    case AtKeyStart => InKey(stack) && want == Rest(stack)
    case AtKeyName => InKey(stack) && (want == KeyWant(stack, false) || want == KeyWant(stack, true))
    case AtKeyEnd => InKey(stack) && want == KeyWant(stack, true)
    case AtElements => InValue(stack) && want == Rest(stack) + [Elements]
    case AtFields => InValue(stack) && want == Rest(stack) + [Fields]
    case AtValue => InValue(stack) && want == Slot(stack)
    case Nowhere => false
  }

  /** What a state finds on the stack, and the parser in want of. */
  predicate Shape(s: State, stack: seq<State>, want: seq<Symbol>) { Fits(PlaceOf(s), stack, want) }

  lemma ValueShape(stack: seq<State>, want: seq<Symbol>)
    ensures Fits(AtValue, stack, want) <==> InValue(stack) && want == Slot(stack)
  {
  }

  lemma HeaderGoesOn(stack: seq<State>, want: seq<Symbol>)
    requires Fits(AtHeaderEnd, stack, want)
    ensures Fits(AtHeader, stack, want) && InHeader(stack) && want == HeaderWant(stack, true)
  {
  }

  lemma KeyGoesOn(stack: seq<State>, want: seq<Symbol>)
    requires Fits(AtKeyEnd, stack, want)
    ensures Fits(AtKeyName, stack, want)
  {
  }

  lemma HeaderBegins(stack: seq<State>, want: seq<Symbol>)
    ensures Fits(AtTop, stack, want) ==> stack == [] && want == [TopItems]
    ensures Fits(AtHeader, [TableEnd], HeaderWant([TableEnd], false))
    ensures Fits(AtHeader, [ArrayTableEnd], HeaderWant([ArrayTableEnd], false))
  {
  }

  /** What a state has seen of the text of its item. An escape in a string has two more phases. */
  datatype Progress = Seen(phase: Phase) | Slash | Escaped

  function ProgressOf(s: State): Progress
  {
    match s
    case Top => Seen(Fresh)
    case TableStart => Seen(OpenBracket)
    case TableEnd => Seen(CloseBracket)
    case ArrayTableEnd => Seen(CloseBracket)
    case BareName => Seen(NamePart)
    case QuotedName => Seen(Fresh)
    case Value => Seen(Fresh)
    case ArrayValue => Seen(Fresh)
    case ArrayValueEnd => Seen(Fresh)
    case ArrayEnd => Seen(BehindBracket)
    case InlineTableValue => Seen(Fresh)
    case InlineTableValueEnd => Seen(Fresh)
    case InlineTableEnd => Seen(BehindBrace)
    case String => Seen(InBasic)
    case MultilineString => Seen(InMulti)
    case RawString => Seen(InRaw)
    case MultilineRawString => Seen(InMultiRaw)
    case MultilineStringEscape => Seen(InMultiSlash)
    case StringEscape => Slash
    case HexEscape => Escaped
    case ShortUnicodeEscape => Escaped
    case LongUnicodeEscape => Escaped
    case NumberOrDateStart => Seen(Fresh)
    case NumberOrDate => Seen(InDigits)
    case Datetime => Seen(InDate)
    case HexInteger => Seen(InHex)
    case OctalInteger => Seen(InOctal)
    case BinaryInteger => Seen(InBinary)
    case DecimalNumber => Seen(InDecimal)
    case DecimalNumberStart => Seen(Sign)
    case BaseNumberOrDate => Seen(Zero)
    case Float => Seen(InFloat)
    case Bool => Seen(InWord)
    case CommentStart => Seen(BehindHash)
    case Comment => Seen(InLine)
    case _ => Seen(Loose)
  }

  /** An escape belongs to the string state on top of the stack. */
  predicate InsideMulti(stack: seq<State>) { stack != [] && stack[|stack| - 1] == MultilineString }

  function Resolve(g: Progress, multi: bool): Phase
  {
    if g.Seen? then g.phase
    else if g.Slash? then (if multi then InMultiSlash else BasicSlash)
    else if multi then InMulti else InBasic
  }

  function Last(stack: seq<State>): State
    requires |stack| > 0
  {
    stack[|stack| - 1]
  }

  function Below(stack: seq<State>): seq<State>
    requires |stack| > 0
  {
    stack[..|stack| - 1]
  }

  /** What the tables say of states that belong together. */
  lemma TopTable()
    ensures PlaceOf(Top) == PlaceOf(TopEnd) == PlaceOf(TableStart) == AtTop
    ensures PlaceOf(CommentStart) == AtCommentStart
    ensures PlaceOf(KeyStart) == AtKeyStart
    ensures Rank(Top) == 4
    ensures Rank(TopEnd) == 0
    ensures Rank(TableStart) == Rank(KeyStart) == 3
    ensures Rank(CommentStart) == 6
    ensures ProgressOf(Top) == Seen(Fresh)
    ensures ProgressOf(TopEnd) == ProgressOf(KeyStart) == Seen(Loose)
    ensures ProgressOf(TableStart) == Seen(OpenBracket)
    ensures ProgressOf(CommentStart) == Seen(BehindHash)
  {
  }

  lemma TopBegins()
    ensures PlaceOf(Top) == PlaceOf(TopEnd) == PlaceOf(TableStart) == AtTop
    ensures Rank(KeyStart) < Rank(Top)
    ensures ProgressOf(Top) == Seen(Fresh) && ProgressOf(TableStart) == Seen(OpenBracket)
  {
  }

  lemma HeaderTable()
    ensures PlaceOf(TableStart) == PlaceOf(TopEnd) == AtTop
    ensures PlaceOf(TableEnd) == AtTableEnd
    ensures PlaceOf(ArrayTableEnd) == AtArrayTableEnd
    ensures PlaceOf(TableNameStart) == AtHeader
    ensures PlaceOf(TableNameEnd) == AtHeaderEnd
    ensures Rank(TableStart) == 3
    ensures Rank(TableEnd) == 1
    ensures Rank(ArrayTableEnd) == Rank(TableNameEnd) == Rank(TopEnd) == 0
    ensures Rank(TableNameStart) == 2
    ensures ProgressOf(TableStart) == Seen(OpenBracket)
    ensures ProgressOf(TableEnd) == ProgressOf(ArrayTableEnd) == Seen(CloseBracket)
    ensures ProgressOf(TableNameStart) == ProgressOf(TableNameEnd) == ProgressOf(TopEnd) == Seen(Loose)
  {
  }

  lemma KeyTable()
    ensures PlaceOf(KeyStart) == AtKeyStart
    ensures PlaceOf(KeyNameStart) == AtKeyName
    ensures PlaceOf(KeyEnd) == AtKeyEnd
    ensures PlaceOf(Value) == AtValue
    ensures PlaceOf(BareName) == PlaceOf(QuotedName) == AtName
    ensures Rank(KeyStart) == 3
    ensures Rank(KeyNameStart) == Rank(Value) == 2
    ensures Rank(KeyEnd) == 0
    ensures Rank(BareName) == Rank(QuotedName) == 1
    ensures ProgressOf(KeyStart) == ProgressOf(KeyNameStart) == ProgressOf(KeyEnd) == Seen(Loose)
    ensures ProgressOf(Value) == ProgressOf(QuotedName) == Seen(Fresh)
    ensures ProgressOf(BareName) == Seen(NamePart)
  {
  }

  lemma ValuePlaces()
    ensures PlaceOf(Value) == PlaceOf(NumberOrDateStart) == PlaceOf(Bool) == PlaceOf(DecimalNumberStart) == AtValue
    ensures PlaceOf(ArrayValue) == AtElements
  {
  }

  lemma ValuePlaces2()
    ensures PlaceOf(InlineTableValue) == AtFields
    ensures PlaceOf(String) == PlaceOf(RawString) == AtString
    ensures PlaceOf(MultilineString) == PlaceOf(MultilineRawString) == AtValue
  {
  }

  lemma ValueRanks()
    ensures Rank(Value) == 2
    ensures Rank(NumberOrDateStart) == Rank(Bool) == Rank(DecimalNumberStart) == 1
    ensures Rank(ArrayValue) == 3
  {
  }

  lemma ValueRanks2()
    ensures Rank(InlineTableValue) == 4
    ensures Rank(String) == Rank(MultilineString) == 0
    ensures Rank(RawString) == Rank(MultilineRawString) == 1
  {
  }

  lemma ValueProgress()
    ensures ProgressOf(Value) == ProgressOf(NumberOrDateStart) == ProgressOf(ArrayValue) == Seen(Fresh)
    ensures ProgressOf(Bool) == Seen(InWord)
    ensures ProgressOf(DecimalNumberStart) == Seen(Sign)
  {
  }

  lemma ValueProgress2()
    ensures ProgressOf(InlineTableValue) == Seen(Fresh)
    ensures ProgressOf(String) == Seen(InBasic)
    ensures ProgressOf(MultilineString) == Seen(InMulti)
    ensures ProgressOf(RawString) == Seen(InRaw)
    ensures ProgressOf(MultilineRawString) == Seen(InMultiRaw)
  {
  }

  lemma ValueTable()
    ensures PlaceOf(Value) == PlaceOf(NumberOrDateStart) == PlaceOf(Bool) == PlaceOf(DecimalNumberStart)
      == PlaceOf(MultilineString) == PlaceOf(MultilineRawString) == AtValue
    ensures PlaceOf(ArrayValue) == AtElements
    ensures PlaceOf(InlineTableValue) == AtFields
    ensures PlaceOf(String) == PlaceOf(RawString) == AtString
    ensures Rank(Value) == 2
    ensures Rank(NumberOrDateStart) == Rank(Bool) == Rank(DecimalNumberStart) == Rank(RawString)
      == Rank(MultilineRawString) == 1
    ensures Rank(ArrayValue) == 3
    ensures Rank(InlineTableValue) == 4
    ensures Rank(String) == Rank(MultilineString) == 0
    ensures ProgressOf(Value) == ProgressOf(NumberOrDateStart) == ProgressOf(ArrayValue)
      == ProgressOf(InlineTableValue) == Seen(Fresh)
    ensures ProgressOf(Bool) == Seen(InWord)
    ensures ProgressOf(DecimalNumberStart) == Seen(Sign)
    ensures ProgressOf(String) == Seen(InBasic)
    ensures ProgressOf(MultilineString) == Seen(InMulti)
    ensures ProgressOf(RawString) == Seen(InRaw)
    ensures ProgressOf(MultilineRawString) == Seen(InMultiRaw)
  {
    hide PlaceOf, Rank, ProgressOf;
    ValuePlaces();
    ValuePlaces2();
    ValueRanks();
    ValueRanks2();
    ValueProgress();
    ValueProgress2();
  }

  lemma ArrayPlaces()
    ensures PlaceOf(ArrayValue) == PlaceOf(ArrayValueEnd) == PlaceOf(ArrayEnd) == AtElements
  {
  }

  lemma ArrayTable()
    ensures PlaceOf(ArrayValue) == PlaceOf(ArrayValueEnd) == PlaceOf(ArrayEnd) == AtElements
    ensures Rank(ArrayValue) == 3
    ensures Rank(ArrayValueEnd) == 0
    ensures Rank(ArrayEnd) == 1
    ensures ProgressOf(ArrayValue) == ProgressOf(ArrayValueEnd) == Seen(Fresh)
    ensures ProgressOf(ArrayEnd) == Seen(BehindBracket)
  {
  }

  lemma InlinePlaces()
    ensures PlaceOf(InlineTableValue) == PlaceOf(InlineTableValueEnd) == PlaceOf(InlineTableEnd) == AtFields
  {
  }

  lemma InlineTable()
    ensures PlaceOf(InlineTableValue) == PlaceOf(InlineTableValueEnd) == PlaceOf(InlineTableEnd) == AtFields
    ensures Rank(InlineTableValue) == 4
    ensures Rank(InlineTableValueEnd) == 0
    ensures Rank(InlineTableEnd) == 1
    ensures ProgressOf(InlineTableValue) == ProgressOf(InlineTableValueEnd) == Seen(Fresh)
    ensures ProgressOf(InlineTableEnd) == Seen(BehindBrace)
  {
  }

  /** The states a comment returns to. */
  lemma CommentPlaces()
    ensures PlaceOf(Top) == AtTop
    ensures PlaceOf(CommentStart) == AtCommentStart && ProgressOf(CommentStart) == Seen(BehindHash)
  {
  }

  lemma QuotePlaces()
    ensures PlaceOf(String) == PlaceOf(RawString) == AtString
    ensures PlaceOf(MultilineString) == PlaceOf(MultilineRawString) == AtValue
  {
  }

  lemma QuoteProgress()
    ensures ProgressOf(String) == Seen(InBasic)
    ensures ProgressOf(RawString) == Seen(InRaw)
    ensures ProgressOf(MultilineString) == Seen(InMulti)
    ensures ProgressOf(MultilineRawString) == Seen(InMultiRaw)
  {
  }

  lemma RemarkTable()
    ensures PlaceOf(CommentStart) == AtCommentStart
    ensures PlaceOf(Comment) == AtComment
    ensures Rank(CommentStart) == 6
    ensures Rank(Comment) == 5
    ensures ProgressOf(CommentStart) == Seen(BehindHash)
    ensures ProgressOf(Comment) == Seen(InLine)
  {
  }

  lemma StringPlaces()
    ensures PlaceOf(String) == PlaceOf(RawString) == AtString
    ensures PlaceOf(MultilineString) == PlaceOf(MultilineRawString) == PlaceOf(MultilineStringEscape) == AtValue
  {
  }

  lemma StringPlaces2()
    ensures PlaceOf(StringEscape) == PlaceOf(HexEscape) == PlaceOf(ShortUnicodeEscape) == PlaceOf(LongUnicodeEscape)
      == AtEscape
  {
  }

  lemma StringRanks()
    ensures Rank(String) == Rank(MultilineString) == 0
    ensures Rank(RawString) == Rank(MultilineRawString) == Rank(MultilineStringEscape) == 1
  {
  }

  lemma StringRanks2()
    ensures Rank(StringEscape) == Rank(HexEscape) == Rank(ShortUnicodeEscape) == Rank(LongUnicodeEscape) == 1
  {
  }

  lemma StringProgress()
    ensures ProgressOf(String) == Seen(InBasic)
    ensures ProgressOf(RawString) == Seen(InRaw)
    ensures ProgressOf(MultilineString) == Seen(InMulti)
    ensures ProgressOf(MultilineRawString) == Seen(InMultiRaw)
    ensures ProgressOf(MultilineStringEscape) == Seen(InMultiSlash)
  {
  }

  lemma StringProgress2()
    ensures ProgressOf(StringEscape) == Slash
    ensures ProgressOf(HexEscape) == ProgressOf(ShortUnicodeEscape) == ProgressOf(LongUnicodeEscape) == Escaped
  {
  }

  lemma StringTable()
    ensures PlaceOf(String) == PlaceOf(RawString) == AtString
    ensures PlaceOf(MultilineString) == PlaceOf(MultilineRawString) == PlaceOf(MultilineStringEscape) == AtValue
    ensures PlaceOf(StringEscape) == PlaceOf(HexEscape) == PlaceOf(ShortUnicodeEscape) == PlaceOf(LongUnicodeEscape)
      == AtEscape
    ensures Rank(String) == Rank(MultilineString) == 0
    ensures Rank(RawString) == Rank(MultilineRawString) == Rank(MultilineStringEscape) == Rank(StringEscape)
      == Rank(HexEscape) == Rank(ShortUnicodeEscape) == Rank(LongUnicodeEscape) == 1
    ensures ProgressOf(String) == Seen(InBasic)
    ensures ProgressOf(RawString) == Seen(InRaw)
    ensures ProgressOf(MultilineString) == Seen(InMulti)
    ensures ProgressOf(MultilineRawString) == Seen(InMultiRaw)
    ensures ProgressOf(MultilineStringEscape) == Seen(InMultiSlash)
    ensures ProgressOf(StringEscape) == Slash
    ensures ProgressOf(HexEscape) == ProgressOf(ShortUnicodeEscape) == ProgressOf(LongUnicodeEscape) == Escaped
  {
    hide PlaceOf, Rank, ProgressOf;
    StringPlaces();
    StringPlaces2();
    StringRanks();
    StringRanks2();
    StringProgress();
    StringProgress2();
  }

  lemma NumberPlaces()
    ensures PlaceOf(NumberOrDateStart) == PlaceOf(NumberOrDate) == PlaceOf(Datetime) == PlaceOf(DecimalNumber)
      == PlaceOf(DecimalNumberStart) == AtValue
  {
  }

  lemma NumberPlaces2()
    ensures PlaceOf(BaseNumberOrDate) == PlaceOf(Float) == PlaceOf(Bool) == AtValue
  {
  }

  lemma NumberRanks()
    ensures Rank(NumberOrDateStart) == Rank(NumberOrDate) == Rank(Datetime) == Rank(DecimalNumber)
      == Rank(DecimalNumberStart) == 1
  {
  }

  lemma NumberRanks2()
    ensures Rank(BaseNumberOrDate) == Rank(Float) == Rank(Bool) == 1
  {
  }

  lemma NumberProgress()
    ensures ProgressOf(NumberOrDateStart) == Seen(Fresh)
    ensures ProgressOf(NumberOrDate) == Seen(InDigits)
    ensures ProgressOf(Datetime) == Seen(InDate)
    ensures ProgressOf(DecimalNumber) == Seen(InDecimal)
    ensures ProgressOf(DecimalNumberStart) == Seen(Sign)
  {
  }

  lemma NumberProgress2()
    ensures ProgressOf(BaseNumberOrDate) == Seen(Zero)
    ensures ProgressOf(Float) == Seen(InFloat)
    ensures ProgressOf(Bool) == Seen(InWord)
  {
  }

  lemma NumberTable()
    ensures PlaceOf(NumberOrDateStart) == PlaceOf(NumberOrDate) == PlaceOf(Datetime) == PlaceOf(DecimalNumber)
      == PlaceOf(DecimalNumberStart) == PlaceOf(BaseNumberOrDate) == PlaceOf(Float) == PlaceOf(Bool) == AtValue
    ensures Rank(NumberOrDateStart) == Rank(NumberOrDate) == Rank(Datetime) == Rank(DecimalNumber)
      == Rank(DecimalNumberStart) == Rank(BaseNumberOrDate) == Rank(Float) == Rank(Bool) == 1
    ensures ProgressOf(NumberOrDateStart) == Seen(Fresh)
    ensures ProgressOf(NumberOrDate) == Seen(InDigits)
    ensures ProgressOf(Datetime) == Seen(InDate)
    ensures ProgressOf(DecimalNumber) == Seen(InDecimal)
    ensures ProgressOf(DecimalNumberStart) == Seen(Sign)
    ensures ProgressOf(BaseNumberOrDate) == Seen(Zero)
    ensures ProgressOf(Float) == Seen(InFloat)
    ensures ProgressOf(Bool) == Seen(InWord)
  {
    hide PlaceOf, Rank, ProgressOf;
    NumberPlaces();
    NumberPlaces2();
    NumberRanks();
    NumberRanks2();
    NumberProgress();
    NumberProgress2();
  }

  lemma BaseTable()
    ensures PlaceOf(HexInteger) == PlaceOf(OctalInteger) == PlaceOf(BinaryInteger) == AtValue
    ensures Rank(HexInteger) == Rank(OctalInteger) == Rank(BinaryInteger) == 1
    ensures ProgressOf(HexInteger) == Seen(InHex)
    ensures ProgressOf(OctalInteger) == Seen(InOctal)
    ensures ProgressOf(BinaryInteger) == Seen(InBinary)
  {
  }

  lemma BeginRanks()
    ensures Rank(Value) == 2
    ensures Rank(KeyStart) == 3
    ensures Rank(TopEnd) == 0
    ensures Rank(Top) == 4
  {
  }

  lemma BeginTable()
    ensures PlaceOf(Value) == AtValue
    ensures PlaceOf(KeyStart) == AtKeyStart
    ensures PlaceOf(TopEnd) == PlaceOf(Top) == AtTop
    ensures Rank(Value) == 2
    ensures Rank(KeyStart) == 3
    ensures Rank(TopEnd) == 0
    ensures Rank(Top) == 4
    ensures ProgressOf(Value) == ProgressOf(Top) == Seen(Fresh)
    ensures ProgressOf(KeyStart) == ProgressOf(TopEnd) == Seen(Loose)
  {
  }

  lemma SignTable()
    ensures PlaceOf(DecimalNumberStart) == AtValue && ProgressOf(DecimalNumberStart) == Seen(Sign)
  {
  }

  lemma DecimalTable()
    ensures PlaceOf(DecimalNumberStart) == PlaceOf(DecimalNumber) == AtValue
    ensures ProgressOf(DecimalNumberStart) == Seen(Sign) && ProgressOf(DecimalNumber) == Seen(InDecimal)
  {
  }

  lemma BoolTable()
    ensures PlaceOf(Bool) == AtValue && Rank(Bool) == 1 && ProgressOf(Bool) == Seen(InWord)
  {
  }

  /** The states that pop where a text has ended. */
  lemma LastOfValue(stack: seq<State>)
    requires InValue(stack)
    ensures var g := ProgressOf(Last(stack)); g == Seen(Fresh) || g == Seen(Loose)
  {
  }

  lemma LastOfName(stack: seq<State>)
    requires InName(stack)
    ensures ProgressOf(Last(stack)) == Seen(Loose)
  {
  }

  lemma LastOfString(stack: seq<State>, want: seq<Symbol>)
    requires InString(stack, want)
    ensures var g := ProgressOf(Last(stack)); g == Seen(Fresh) || g == Seen(Loose)
  {
    hide ProgressOf;
    if InValue(stack) { LastOfValue(stack); } else { LastOfName(stack); }
  }

  lemma LastOfComment(stack: seq<State>)
    requires InComment(stack)
    ensures ProgressOf(Last(stack)) == Seen(Fresh)
  {
  }

  lemma LastOfHeader(stack: seq<State>)
    requires InHeader(stack)
    ensures ProgressOf(Last(stack)) == Seen(CloseBracket)
  {
  }

  lemma LastOfEscape(stack: seq<State>, want: seq<Symbol>)
    requires InEscape(stack, want)
    ensures ProgressOf(Last(stack)) == Seen(if InsideMulti(stack) then InMulti else InBasic)
  {
  }

  /** How many state changes without reading can follow. */
  function Rank(s: State): nat
  {
    match s
    case CommentStart => 6
    case Comment => 5
    case Top => 4
    case InlineTableValue => 4
    case KeyStart => 3
    case TableStart => 3
    case ArrayValue => 3
    case KeyNameStart => 2
    case TableNameStart => 2
    case Value => 2
    case TopEnd => 0
    case ArrayTableEnd => 0
    case TableNameEnd => 0
    case KeyEnd => 0
    case ArrayValueEnd => 0
    case InlineTableValueEnd => 0
    case String => 0
    case MultilineString => 0
    case _ => 1
  }

  /** The two tables, entry by entry. */
  lemma Places1()
    ensures PlaceOf(Top) == PlaceOf(TopEnd) == PlaceOf(TableStart) == AtTop
    ensures PlaceOf(TableEnd) == AtTableEnd
    ensures PlaceOf(ArrayTableEnd) == AtArrayTableEnd
    ensures PlaceOf(TableNameStart) == AtHeader
    ensures PlaceOf(TableNameEnd) == AtHeaderEnd
    ensures PlaceOf(BareName) == PlaceOf(QuotedName) == AtName
  {
  }

  lemma Places2()
    ensures PlaceOf(String) == PlaceOf(RawString) == AtString
    ensures PlaceOf(CommentStart) == AtCommentStart
    ensures PlaceOf(Comment) == AtComment
  {
  }

  lemma Places3()
    ensures PlaceOf(KeyStart) == AtKeyStart
    ensures PlaceOf(KeyNameStart) == AtKeyName
    ensures PlaceOf(KeyEnd) == AtKeyEnd
    ensures PlaceOf(ArrayValue) == PlaceOf(ArrayValueEnd) == PlaceOf(ArrayEnd) == AtElements
    ensures PlaceOf(InlineTableValue) == PlaceOf(InlineTableValueEnd) == PlaceOf(InlineTableEnd) == AtFields
  {
  }

  lemma Places4()
    ensures PlaceOf(Value) == PlaceOf(MultilineString) == PlaceOf(MultilineRawString)
      == PlaceOf(MultilineStringEscape) == PlaceOf(NumberOrDateStart) == PlaceOf(NumberOrDate) == PlaceOf(Datetime) == AtValue
  {
  }

  lemma Places5()
    ensures PlaceOf(HexInteger) == PlaceOf(OctalInteger) == PlaceOf(BinaryInteger) == PlaceOf(DecimalNumber) == AtValue
    ensures PlaceOf(Nil) == Nowhere
  {
  }

  lemma Places6()
    ensures PlaceOf(DecimalNumberStart) == PlaceOf(BaseNumberOrDate) == PlaceOf(Float) == PlaceOf(Bool) == AtValue
  {
  }

  lemma Places7()
    ensures PlaceOf(StringEscape) == PlaceOf(HexEscape) == PlaceOf(ShortUnicodeEscape) == PlaceOf(LongUnicodeEscape) == AtEscape
  {
  }

  lemma Places()
    ensures PlaceOf(Top) == PlaceOf(TopEnd) == PlaceOf(TableStart) == AtTop
    ensures PlaceOf(TableEnd) == AtTableEnd
    ensures PlaceOf(ArrayTableEnd) == AtArrayTableEnd
    ensures PlaceOf(TableNameStart) == AtHeader
    ensures PlaceOf(TableNameEnd) == AtHeaderEnd
    ensures PlaceOf(BareName) == PlaceOf(QuotedName) == AtName
    ensures PlaceOf(String) == PlaceOf(RawString) == AtString
    ensures PlaceOf(StringEscape) == PlaceOf(HexEscape)
      == PlaceOf(ShortUnicodeEscape) == PlaceOf(LongUnicodeEscape) == AtEscape
    ensures PlaceOf(CommentStart) == AtCommentStart
    ensures PlaceOf(Comment) == AtComment
    ensures PlaceOf(KeyStart) == AtKeyStart
    ensures PlaceOf(KeyNameStart) == AtKeyName
    ensures PlaceOf(KeyEnd) == AtKeyEnd
    ensures PlaceOf(ArrayValue) == PlaceOf(ArrayValueEnd) == PlaceOf(ArrayEnd) == AtElements
    ensures PlaceOf(InlineTableValue) == PlaceOf(InlineTableValueEnd) == PlaceOf(InlineTableEnd) == AtFields
    ensures PlaceOf(Value) == PlaceOf(MultilineString) == PlaceOf(MultilineRawString)
      == PlaceOf(MultilineStringEscape) == PlaceOf(NumberOrDateStart) == PlaceOf(NumberOrDate) == PlaceOf(Datetime) == AtValue
    ensures PlaceOf(HexInteger) == PlaceOf(OctalInteger) == PlaceOf(BinaryInteger) == PlaceOf(DecimalNumber)
      == PlaceOf(DecimalNumberStart) == PlaceOf(BaseNumberOrDate) == PlaceOf(Float) == PlaceOf(Bool) == AtValue
    ensures PlaceOf(Nil) == Nowhere
  {
    hide PlaceOf;
    Places1();
    Places2();
    Places3();
    Places4();
    Places5();
    Places6();
    Places7();
  }

  lemma Ranks1()
    ensures Rank(TopEnd) == Rank(ArrayTableEnd) == Rank(TableNameEnd) == Rank(KeyEnd) == Rank(ArrayValueEnd)
      == Rank(InlineTableValueEnd) == Rank(String) == Rank(MultilineString) == 0
  {
  }

  lemma Ranks2()
    ensures Rank(TableEnd) == Rank(BareName) == Rank(QuotedName) == Rank(ArrayEnd) == Rank(InlineTableEnd)
      == Rank(RawString) == Rank(MultilineRawString) == Rank(MultilineStringEscape) == 1
  {
  }

  lemma Ranks3()
    ensures Rank(StringEscape) == Rank(HexEscape) == Rank(ShortUnicodeEscape) == Rank(LongUnicodeEscape)
      == Rank(NumberOrDateStart) == Rank(NumberOrDate) == Rank(Datetime) == Rank(HexInteger) == 1
  {
  }

  lemma Ranks4()
    ensures Rank(OctalInteger) == Rank(BinaryInteger) == Rank(DecimalNumber) == Rank(DecimalNumberStart)
      == Rank(BaseNumberOrDate) == Rank(Float) == Rank(Bool) == 1
    ensures Rank(TableNameStart) == Rank(KeyNameStart) == Rank(Value) == 2
  {
  }

  lemma Ranks5()
    ensures Rank(TableStart) == Rank(KeyStart) == Rank(ArrayValue) == 3
    ensures Rank(Top) == Rank(InlineTableValue) == 4
    ensures Rank(Comment) == 5
    ensures Rank(CommentStart) == 6
  {
  }

  lemma Ranks()
    ensures Rank(TopEnd) == Rank(ArrayTableEnd) == Rank(TableNameEnd) == Rank(KeyEnd) == Rank(ArrayValueEnd)
      == Rank(InlineTableValueEnd) == Rank(String) == Rank(MultilineString) == 0
    ensures Rank(TableEnd) == Rank(BareName) == Rank(QuotedName) == Rank(ArrayEnd) == Rank(InlineTableEnd)
      == Rank(RawString) == Rank(MultilineRawString) == Rank(MultilineStringEscape) == 1
    ensures Rank(StringEscape) == Rank(HexEscape) == Rank(ShortUnicodeEscape) == Rank(LongUnicodeEscape)
      == Rank(NumberOrDateStart) == Rank(NumberOrDate) == Rank(Datetime) == Rank(HexInteger) == 1
    ensures Rank(OctalInteger) == Rank(BinaryInteger) == Rank(DecimalNumber) == Rank(DecimalNumberStart)
      == Rank(BaseNumberOrDate) == Rank(Float) == Rank(Bool) == 1
    ensures Rank(TableNameStart) == Rank(KeyNameStart) == Rank(Value) == 2
    ensures Rank(TableStart) == Rank(KeyStart) == Rank(ArrayValue) == 3
    ensures Rank(Top) == Rank(InlineTableValue) == 4
    ensures Rank(Comment) == 5
    ensures Rank(CommentStart) == 6
  {
    hide Rank;
    Ranks1();
    Ranks2();
    Ranks3();
    Ranks4();
    Ranks5();
  }

  /** Whatever a state pops fits the stack below, and is of lower rank. */
  lemma PopValue(stack: seq<State>)
    requires InValue(stack)
    ensures |stack| > 0 && Shape(Last(stack), Below(stack), Rest(stack)) && Rank(Last(stack)) == 0 && !Last(stack).QuotedName?
  {
    hide PlaceOf, Rank;
    Places();
    Ranks();
    if Last(stack) == TopEnd { assert Below(stack) == []; }
  }

  lemma PopHeader(stack: seq<State>)
    requires InHeader(stack)
    ensures |stack| > 0 && Shape(Last(stack), Below(stack), HeaderWant(stack, true)) && !Last(stack).QuotedName?
  {
    assert Below(stack) == [] && stack == [Last(stack)];
  }

  lemma PopName(stack: seq<State>)
    requires InName(stack)
    ensures |stack| > 0 && Shape(Last(stack), Below(stack), NameWant(stack, true)) && Rank(Last(stack)) == 0 && !Last(stack).QuotedName?
  {
    hide PlaceOf, Rank;
    Places();
    Ranks();
  }

  lemma PopString(stack: seq<State>, want: seq<Symbol>)
    requires InString(stack, want)
    ensures |stack| > 0 && Shape(Last(stack), Below(stack), Passed(stack)) && Rank(Last(stack)) == 0 && !Last(stack).QuotedName?
  {
    if InValue(stack) { PopValue(stack); } else { PopName(stack); }
  }

  lemma PopEscape(stack: seq<State>, want: seq<Symbol>)
    requires InEscape(stack, want)
    ensures |stack| > 0 && Shape(Last(stack), Below(stack), want) && Rank(Last(stack)) == 0 && !Last(stack).QuotedName?
  {
    hide PlaceOf, Rank;
    Places();
    Ranks();
  }

  lemma PopComment(stack: seq<State>)
    requires InComment(stack)
    ensures |stack| > 0 && Shape(Last(stack), Below(stack), Back(stack)) && Rank(Last(stack)) < Rank(Comment) && !Last(stack).QuotedName?
  {
    hide PlaceOf, Rank;
    Places();
    Ranks();
    if Last(stack) == Top { assert Below(stack) == []; }
  }

  lemma RestAbove(t: seq<State>)
    requires |t| > 0
    ensures Rest(t) ==
      if Last(t) == ArrayValueEnd then Rest(Below(t)) + [Elements]
      else if Last(t) == InlineTableValueEnd then Rest(Below(t)) + [Fields] else [TopItems]
    ensures Last(t) == ArrayValueEnd ==> Slot(t) == Rest(t)
  {
  }

  lemma InsideAbove(t: seq<State>)
    requires |t| > 0
    requires (InValue(Below(t)) && (Last(t) == ArrayValueEnd || Last(t) == InlineTableValueEnd)) || (Below(t) == [] && Last(t) == TopEnd)
    ensures InValue(t) && (Last(t) != ArrayValueEnd ==> InKey(t))
  {
  }

  /** What a state pushes fits the states that run above it. */
  lemma PushValue(stack: seq<State>, s: State)
    requires (InValue(stack) && (s == ArrayValueEnd || s == InlineTableValueEnd)) || (stack == [] && s == TopEnd)
    ensures InValue(stack + [s]) && (s != ArrayValueEnd ==> InKey(stack + [s]))
    ensures Rest(stack + [s]) ==
      if s == ArrayValueEnd then Rest(stack) + [Elements] else if s == TopEnd then [TopItems] else Rest(stack) + [Fields]
    ensures s == ArrayValueEnd ==> Slot(stack + [s]) == Rest(stack + [s])
  {
    hide InValue, InKey, Rest, Slot;
    var t := stack + [s];
    assert Below(t) == stack && Last(t) == s;
    RestAbove(t);
    InsideAbove(t);
  }

  lemma PushName(stack: seq<State>, s: State)
    requires (InKey(stack) && s == KeyEnd) || (InHeader(stack) && s == TableNameEnd)
    ensures InName(stack + [s])
    ensures NameWant(stack + [s], false) == if s == KeyEnd then KeyWant(stack, false) else HeaderWant(stack, false)
    ensures NameWant(stack + [s], true) == if s == KeyEnd then KeyWant(stack, true) else HeaderWant(stack, true)
  {
    assert (stack + [s])[..|stack|] == stack;
  }

  lemma PushEscape(stack: seq<State>, s: State, want: seq<Symbol>)
    requires (InString(stack, want) && s == String) || (InValue(stack) && want == Slot(stack) && s == MultilineString)
    ensures InEscape(stack + [s], want)
  {
    assert (stack + [s])[..|stack|] == stack;
  }

  lemma PushComment(stack: seq<State>, s: State)
    requires (stack == [] && s == Top)
      || (InValue(stack) && (s == ArrayValue || s == ArrayValueEnd || s == InlineTableValue || s == InlineTableValueEnd))
    ensures InComment(stack + [s])
    ensures Back(stack + [s]) ==
      if s == Top then [TopItems] else if s == ArrayValue || s == ArrayValueEnd then Rest(stack) + [Elements] else Rest(stack) + [Fields]
  {
    assert (stack + [s])[..|stack|] == stack;
  }

  lemma BracketProgress()
    ensures ProgressOf(ArrayEnd) == Seen(BehindBracket)
    ensures ProgressOf(InlineTableEnd) == Seen(BehindBrace)
    ensures ProgressOf(TableStart) == Seen(OpenBracket)
  {
  }

  lemma BeginProgress()
    ensures ProgressOf(Value) == Seen(Fresh) && ProgressOf(KeyStart) == Seen(Loose)
  {
  }

  lemma EnterShape(stack: seq<State>, back: State, next: State, want: seq<Symbol>)
    requires Shape(back, stack, want) && next == if back == ArrayValueEnd then Value else KeyStart
    requires back == ArrayValueEnd || back == InlineTableValueEnd || back == TopEnd
    ensures Shape(next, stack + [back], want)
  {
    hide InValue, InKey, InHeader, InName, InString, InEscape, InComment, NameAwaits, Rest, Slot, KeyWant, HeaderWant, NameWant, Back, PlaceOf, Rank, ProgressOf;
    BeginTable();
    ArrayPlaces();
    InlinePlaces();
    PushValue(stack, back);
  }

  lemma CommentShape(stack: seq<State>, back: State, want: seq<Symbol>)
    requires Shape(back, stack, want)
    requires back == Top || back == ArrayValue || back == ArrayValueEnd || back == InlineTableValue || back == InlineTableValueEnd
    ensures Fits(AtCommentStart, stack + [back], want)
  {
    hide InValue, InKey, InHeader, InName, InString, InEscape, InComment, NameAwaits, Rest, Slot, KeyWant, HeaderWant, NameWant, Back, PlaceOf, Rank, ProgressOf;
    CommentPlaces();
    ArrayPlaces();
    InlinePlaces();
    PushComment(stack, back);
  }

  // ------------------------------------- what the items do to the parser

  lemma TopTakes()
    ensures Take([TopItems], ItemEOF) == Await([TopItems])
    ensures Take([TopItems], ItemTableStart) == Await(HeaderWant([TableEnd], false))
    ensures Take([TopItems], ItemArrayTableStart) == Await(HeaderWant([ArrayTableEnd], false))
  {
    assert [TopItems][..0] == [];
  }

  lemma HeaderTakes()
    ensures Take(HeaderWant([TableEnd], true), ItemTableEnd) == Await([TopItems])
    ensures Take(HeaderWant([ArrayTableEnd], true), ItemArrayTableEnd) == Await([TopItems])
  {
    TakeLast([TopItems], Parts(ItemTableEnd, true), ItemTableEnd);
    TakeLast([TopItems], Parts(ItemArrayTableEnd, true), ItemArrayTableEnd);
  }

  lemma PartTaken(w: seq<Symbol>, end: Type, some: bool, t: Type)
    requires IsName(t) && !IsName(end)
    ensures Take(w + [Parts(end, some)], t) == Await(w + [Parts(end, true)])
  {
    TakeLast(w, Parts(end, some), t);
  }

  lemma NameTaken(stack: seq<State>, want: seq<Symbol>, t: Type)
    requires NameAwaits(stack, want) && IsName(t)
    ensures Take(want, t) == Await(NameWant(stack, true))
  {
    hide Take;
    var below := stack[..|stack| - 1];
    var some := want == NameWant(stack, true);
    var end := if stack[|stack| - 1] == KeyEnd then ItemKeyEnd else if below == [TableEnd] then ItemTableEnd else ItemArrayTableEnd;
    var w := if stack[|stack| - 1] == KeyEnd then Rest(below) + [OneValue] else [TopItems];
    assert want == w + [Parts(end, some)] && NameWant(stack, true) == w + [Parts(end, true)];
    PartTaken(w, end, some, t);
  }

  lemma TopStarts()
    ensures Take([TopItems], ItemKeyStart) == Await([TopItems] + [OneValue, Parts(ItemKeyEnd, false)])
  {
    TakeLast([], TopItems, ItemKeyStart);
    assert [] + [TopItems] == [TopItems];
    assert [] + [TopItems, OneValue, Parts(ItemKeyEnd, false)] == [TopItems] + [OneValue, Parts(ItemKeyEnd, false)];
  }

  lemma FieldStarts(w: seq<Symbol>)
    ensures Take(w + [Fields], ItemKeyStart) == Await(w + [Fields] + [OneValue, Parts(ItemKeyEnd, false)])
  {
    TakeLast(w, Fields, ItemKeyStart);
    assert w + [Fields, OneValue, Parts(ItemKeyEnd, false)] == w + [Fields] + [OneValue, Parts(ItemKeyEnd, false)];
  }

  lemma KeyStarts(stack: seq<State>)
    requires InKey(stack)
    ensures Take(Rest(stack), ItemKeyStart) == Await(KeyWant(stack, false))
  {
    hide Take;
    TopStarts();
    FieldStarts(Rest(stack[..|stack| - 1]));
  }

  lemma KeyEnds(stack: seq<State>)
    requires InKey(stack)
    ensures Take(KeyWant(stack, true), ItemKeyEnd) == Await(Slot(stack))
  {
    var w := Rest(stack) + [OneValue];
    assert KeyWant(stack, true) == w + [Parts(ItemKeyEnd, true)];
    TakeLast(w, Parts(ItemKeyEnd, true), ItemKeyEnd);
    assert w + [] == w;
  }

  /** The item that is a value, or that begins one. */
  predicate Opens(t: Type) { IsScalar(t) || t.ItemArray? || t.ItemInlineTableStart? }

  function Opened(w: seq<Symbol>, t: Type): seq<Symbol>
  {
    if t.ItemArray? then w + [Elements] else if t.ItemInlineTableStart? then w + [Fields] else w
  }

  lemma ElementTaken(w: seq<Symbol>, t: Type)
    requires Opens(t)
    ensures Take(w + [Elements], t) == Await(Opened(w + [Elements], t))
  {
    TakeLast(w, Elements, t);
    assert w + [Elements, Elements] == (w + [Elements]) + [Elements];
    assert w + [Elements, Fields] == (w + [Elements]) + [Fields];
  }

  lemma OneTaken(w: seq<Symbol>, t: Type)
    requires Opens(t)
    ensures Take(w + [OneValue], t) == Await(Opened(w, t))
  {
    TakeLast(w, OneValue, t);
    assert w + [] == w;
  }

  lemma ValueTaken(stack: seq<State>, t: Type)
    requires InValue(stack) && Opens(t)
    ensures Take(Slot(stack), t) == Await(Opened(Rest(stack), t))
  {
    hide Take, Opens, Opened;
    var n := |stack| - 1;
    if stack[n] == ArrayValueEnd {
      ElementTaken(Rest(stack[..n]), t);
    } else {
      OneTaken(Rest(stack), t);
    }
  }

  lemma GroupEnds(stack: seq<State>)
    ensures Take(Rest(stack) + [Elements], ItemArrayEnd) == Await(Rest(stack))
    ensures Take(Rest(stack) + [Fields], ItemInlineTableEnd) == Await(Rest(stack))
  {
    TakeLast(Rest(stack), Elements, ItemArrayEnd);
    TakeLast(Rest(stack), Fields, ItemInlineTableEnd);
    assert Rest(stack) + [] == Rest(stack);
  }

  lemma StringTaken(stack: seq<State>, want: seq<Symbol>, t: Type)
    requires InString(stack, want) && IsText(t)
    ensures Take(want, t) == Await(Passed(stack))
  {
    hide Take;
    if InValue(stack) {
      assert !InName(stack);
      ValueTaken(stack, t);
      assert Opened(Rest(stack), t) == Rest(stack);
    } else {
      NameTaken(stack, want, t);
    }
  }

  lemma CommentStarts(w: seq<Symbol>, symbol: Symbol)
    requires symbol == TopItems || symbol == Elements || symbol == Fields
    ensures Take(w + [symbol], ItemCommentStart) == Await(w + [symbol] + [CommentText])
  {
    TakeLast(w, symbol, ItemCommentStart);
    assert w + [symbol, CommentText] == w + [symbol] + [CommentText];
  }

  lemma CommentEnds(w: seq<Symbol>)
    ensures Take(w + [CommentText], ItemText) == Await(w)
  {
    TakeLast(w, CommentText, ItemText);
    assert w + [] == w;
  }

  lemma CommentTaken(stack: seq<State>)
    requires InComment(stack)
    ensures Take(Back(stack), ItemCommentStart) == Await(Back(stack) + [CommentText])
    ensures Take(Back(stack) + [CommentText], ItemText) == Await(Back(stack))
  {
    hide Take;
    CommentEnds(Back(stack));
    CommentStarts([], TopItems);
    assert [] + [TopItems] == [TopItems];
    CommentStarts(Rest(stack[..|stack| - 1]), Elements);
    CommentStarts(Rest(stack[..|stack| - 1]), Fields);
  }

  /** Only the innermost symbol can be the text of a comment. */
  predicate Calm(want: seq<Symbol>)
  {
    (forall i :: 0 <= i < |want| - 1 ==> want[i] != CommentText)
    && (forall i :: 0 <= i < |want| && want[i].Parts? ==> !want[i].end.ItemCommentStart?)
  }

  predicate Remarking(want: seq<Symbol>) { want != [] && want[|want| - 1] == CommentText }

  /** The items so far leave the parser in want of this. */
  predicate Understood(items: seq<Item>, want: seq<Symbol>) { Consumed([TopItems], items) == Await(want) }

  /** It is in want of the text of a comment exactly behind the item that begins one. */
  predicate Remarked(items: seq<Item>, want: seq<Symbol>) { Calm(want) && (Remarking(want) <==> Commenting(items)) }

  lemma CalmAfter(want: seq<Symbol>, t: Type)
    requires Calm(want) && Take(want, t).Await? && !t.ItemError? && (Remarking(want) ==> t.ItemText?)
    ensures Calm(Take(want, t).symbols)
    ensures Remarking(Take(want, t).symbols) <==> t.ItemCommentStart?
  {
    var w, last := want[..|want| - 1], want[|want| - 1];
    var more := After(last, t).symbols;
    var next := w + more;
    assert forall i :: 0 <= i < |w| ==> w[i] == want[i] && w[i] != CommentText;
    AfterCalm(last, t);
    assert forall i :: 0 <= i < |next| ==> if i < |w| then next[i] == w[i] else next[i] == more[i - |w|];
    if more == [] {
      assert next == w;
    } else {
      assert next[|next| - 1] == more[|more| - 1];
    }
  }

  lemma AfterCalm(s: Symbol, t: Type)
    requires After(s, t).Await? && (s.Parts? ==> !s.end.ItemCommentStart?)
    ensures var more := After(s, t).symbols;
      Calm(more) && (Remarking(more) <==> t.ItemCommentStart?)
  {
    var more := After(s, t).symbols;
    if t.ItemCommentStart? {
      assert more == [s, CommentText];
    } else if more != [] {
      assert more[|more| - 1] != CommentText;
    }
  }

  lemma RemarkOnlyText(want: seq<Symbol>, t: Type)
    requires Take(want, t).Await? && !t.ItemError? && Remarking(want)
    ensures t.ItemText?
  {
  }

  lemma RemarkedNext(items: seq<Item>, want: seq<Symbol>, i: Item)
    requires Remarked(items, want) && Take(want, i.typ).Await? && !i.typ.ItemError?
    ensures Remarked(items + [i], Take(want, i.typ).symbols)
  {
    if Remarking(want) { RemarkOnlyText(want, i.typ); }
    CalmAfter(want, i.typ);
  }

  lemma UnderstoodNext(items: seq<Item>, want: seq<Symbol>, i: Item)
    requires Understood(items, want) && Take(want, i.typ).Await?
    ensures Understood(items + [i], Take(want, i.typ).symbols)
  {
    hide Take;
    ConsumedNext([TopItems], items, i);
  }

  lemma UnderstoodError(items: seq<Item>, want: seq<Symbol>, i: Item)
    requires Understood(items, want) && i.typ.ItemError?
    ensures Understood(items + [i], want)
  {
    UnderstoodNext(items, want, i);
  }

  lemma NameIsNoRemark(items: seq<Item>, stack: seq<State>, want: seq<Symbol>)
    requires Remarked(items, want) && NameAwaits(stack, want)
    ensures !Commenting(items)
  {
    assert want[|want| - 1].Parts?;
  }

  lemma RemarkIsOne(items: seq<Item>, w: seq<Symbol>)
    requires Remarked(items, w + [CommentText])
    ensures Commenting(items)
  {
  }

  function Newlines(input: seq<Unit>): nat
  {
    if input == [] then 0 else Newlines(input[..|input| - 1]) + if input[|input| - 1] == Rune('\n') then 1 else 0
  }

  lemma NewlinesNext(input: seq<Unit>, k: nat)
    requires k < |input|
    ensures Newlines(input[..k + 1]) == Newlines(input[..k]) + if input[k] == Rune('\n') then 1 else 0
  {
    assert input[..k + 1][..k] == input[..k];
  }

  /** At most the last item ends the run. */
  predicate Orderly(items: seq<Item>, done: bool)
  {
    (forall i :: 0 <= i < |items| - 1 ==> !Final(items[i].typ))
    && (done ==> |items| > 0 && Final(items[|items| - 1].typ))
    && (!done ==> |items| > 0 ==> !Final(items[|items| - 1].typ))
  }

  class Lexer {
    const input: seq<Unit>
    const tomlNext: bool
    const isLetter: char -> bool
    var start: nat
    var pos: nat
    var line: int
    var items: seq<Item>
    var esc: bool
    var nprev: nat
    var atEOF: bool
    var stack: seq<State>
    /** An error or end-of-file item has been sent. */
    var done: bool
    /** What the parser expects, having read the items so far. */
    ghost var want: seq<Symbol>

    constructor (input: seq<Unit>, tomlNext: bool, isLetter: char -> bool)
      requires !isLetter(EOF)
      ensures Ready() && stack == [] && items == [] && want == [TopItems] && start == pos && this.input == input
    {
      this.input, this.tomlNext, this.isLetter := input, tomlNext, isLetter;
      start, pos, line, items, esc, nprev, atEOF, stack, done := 0, 0, 1, [], false, 0, false, [], false;
      want := [TopItems];
    }

    /** Positions make sense, the line number is right, and the run goes on. */
    ghost predicate Going()
      reads this
    {
      start <= pos <= |input| && nprev <= 4 && (atEOF ==> pos == |input|) && !isLetter(EOF)
      && line == 1 + Newlines(input[..pos]) && !done && Orderly(items, false)
      && Understood(items, want) && Remarked(items, want) && Lexed(input, tomlNext, items) && Tidy(input, items, start)
    }

    ghost predicate Stopped()
      reads this
    {
      done && Orderly(items, true) && Understood(items, want) && Lexed(input, tomlNext, items)
    }

    /** Between two state functions. */
    ghost predicate Ready()
      reads this
    {
      Going() && !atEOF
    }

    /** The text since start is of the kind that state s goes on with. */
    ghost predicate Reached(s: State)
      reads this
    {
      Covered(Resolve(ProgressOf(s), InsideMulti(stack)), input, tomlNext, start, pos)
    }

    /** What is known when state s is about to run. */
    ghost predicate At(s: State)
      reads this
    {
      Ready() && Shape(s, stack, want) && Reached(s) && (s.QuotedName? ==> pos < |input| && input[pos].Rune? && IsQuote(input[pos].c))
    }

    /** State s has run and handed over to r: the run is over, or it is nearer to its end. */
    twostate predicate Ran(s: State, r: State)
      reads this
    {
      |items| <= |old(items)| + 2
      && if done then Stopped() else At(r) && (pos > old(pos) || (pos == old(pos) && Rank(r) < Rank(s)))
    }

    /** A code point that Next accepts. */
    predicate Readable(k: nat)
    {
      k < |input| && input[k].Rune? && !IsControl(input[k].c)
      && (input[k].c == '\r' ==> k + 1 < |input| && input[k + 1] == Rune('\n'))
    }

    /** A code point that Next refuses. */
    predicate Broken(k: nat) { k < |input| && !Readable(k) }

    /** A digit behind a sign, and no base. */
    predicate SignedDigit(k: nat) { DigitAt(input, k) && (Is(input, k, '0') ==> !Broken(k + 1) && !IsOneOf(input, k + 1, "xob")) }

    predicate SignedInf(k: nat)
    {
      (Is(input, k, 'i') && Is(input, k + 1, 'n') && Is(input, k + 2, 'f')) || (Is(input, k, 'n') && Is(input, k + 1, 'a') && Is(input, k + 2, 'n'))
    }

    /** A quote at k begins a quoted name. */
    function NameState(k: nat): State { if Is(input, k, '"') || Is(input, k, '\'') then QuotedName else BareName }

    lemma PlainReads(k: nat)
      ensures k < |input| && input[k].Rune? && (input[k].c == '\t' || ' ' <= input[k].c <= '~') ==> !Broken(k)
    {
    }

    /** Behind a quote at k, one of the next two code points cannot be read. */
    predicate QuoteBreaks(k: nat, q: char) { Broken(k + 1) || (Is(input, k + 1, q) && Broken(k + 2)) }

    /** Behind a quote at k, a code point cannot be read that decides whether three quotes close the string. */
    predicate QuotesBreak(k: nat, q: char)
    {
      Broken(k + 1) || (Is(input, k + 1, q) && (Broken(k + 2) || (Is(input, k + 2, q) && Broken(k + 3))))
    }

    /** Six quotes around k, the first of them behind a, and not escaped if escapes count. */
    predicate TooMany(a: nat, k: nat, q: char, slashes: bool)
    {
      a <= k - 2 && Three(input, k - 2, q) && Three(input, k + 1, q) && !(slashes && a <= k - 3 && Is(input, k - 3, '\\'))
    }

    predicate HexAhead(k: nat, n: nat)
    {
      k + n <= |input| && forall i :: k <= i < k + n ==> input[i].Rune? && IsHex(input[i].c)
    }

    predicate Holds(i: Item, typ: Type, from: nat, to: nat) { i.typ == typ && i.start == from && i.end == to }

    twostate predicate Kept()
      reads this
    {
      items == old(items) && start == old(start) && want == old(want)
    }

    /** Behind a comma of an inline table. */
    twostate predicate AfterComma(r: State, k: nat)
      reads this
    {
      r == (if Is(input, k, '}') then InlineTableValueEnd else InlineTableValue) && stack == old(stack) && pos == k
    }

    /** A quote at k opens a string, three of them a multi-line one. */
    twostate predicate Quoted(r: State, k: nat, q: char)
      reads this
    {
      if Three(input, k, q) then r == (if q == '"' then MultilineString else MultilineRawString) && stack == old(stack) && pos == k + 3
      else r == (if q == '"' then String else RawString) && stack == old(stack) && pos == k + 1
    }

    /** Where the first character c of a value leads, at k: c is neither a space nor a digit. */
    twostate predicate Marked(r: State, k: nat, c: char)
      reads this
    {
      if c == '[' then !done && r == ArrayValue && stack == old(stack) && pos == k + 1
      else if c == '{' then !done && r == InlineTableValue && stack == old(stack) && pos == k + 1
      else if IsQuote(c) then (if QuoteBreaks(k, c) then done else !done && Quoted(r, k, c))
      else if c == '.' then done
      else if c == '-' || c == '+' then !done && r == DecimalNumberStart && stack == old(stack) && pos == k + 1
      else Worded(r, k, c)
    }

    /** Behind i and n there may be a float; other letters can only begin a boolean. */
    twostate predicate Worded(r: State, k: nat, c: char)
      reads this
    {
      if c == 'i' || c == 'n' then
        done || (|old(stack)| > 0 && r == Last(old(stack)) && stack == Below(old(stack))) || (r == Bool && stack == old(stack))
      else if isLetter(c) then !done && r == Bool && stack == old(stack) && pos == k
      else done
    }

    /** The run ended with the input. */
    ghost predicate Finished()
      reads this
    {
      items != [] && items[|items| - 1].typ.ItemEOF?
    }

    // ------------------------------------------------------------ primitives

    /** error, errorf and their kin. */
    method Fail()
      requires Going()
      modifies this`items, this`done
      ensures Stopped() && |items| == |old(items)| + 1
    {
      hide Take, Understood, Remarked, Lexed, Lexeme, Tidy;
      UnderstoodError(items, want, Item(ItemError, start, pos, line));
      LexedError(input, tomlNext, items, Item(ItemError, start, pos, line));
      items := items + [Item(ItemError, start, pos, line)];
      done := true;
    }

    /** Sends an item the parser can use. */
    method Emit(typ: Type)
      requires Going() && !typ.ItemError? && Take(want, typ).Await?
      requires Lexeme(input, tomlNext, typ.ItemText? && Commenting(items), typ, start, pos)
      modifies this`items, this`start, this`done, this`want
      ensures items == old(items) + [Item(typ, old(start), pos, line)] && start == pos
      ensures want == Take(old(want), typ).symbols
      ensures if typ.ItemEOF? then Stopped() else Going()
    {
      hide Take, Understood, Remarked, Lexed, Lexeme, Tidy;
      UnderstoodNext(items, want, Item(typ, start, pos, line));
      RemarkedNext(items, want, Item(typ, start, pos, line));
      LexedNext(input, tomlNext, items, Item(typ, start, pos, line));
      want := Take(want, typ).symbols;
      items := items + [Item(typ, start, pos, line)];
      start := pos;
      done := Final(typ);
    }

    /** Passes over marks between items. */
    method Ignore()
      requires Going() && Covered(Loose, input, tomlNext, start, pos)
      modifies this`start
      ensures Going() && start == pos
    {
      hide Understood, Remarked, Lexed, Tidy, Covered;
      TidyOn(input, tomlNext, items, start, pos);
      start := pos;
    }

    method Push(s: State)
      requires Going()
      modifies this`stack
      ensures Going() && stack == old(stack) + [s]
    {
      stack := stack + [s];
    }

    /** Never called on an empty stack. */
    method Pop() returns (s: State)
      requires Going() && |stack| > 0
      modifies this`stack
      ensures Going() && s == Last(old(stack)) && stack == Below(old(stack))
    {
      s := stack[|stack| - 1];
      stack := stack[..|stack| - 1];
    }

    /** The next code point; EOF at the end; an error for malformed input and control characters.
        Never called after EOF. */
    method Next() returns (r: char)
      requires Going() && !atEOF
      modifies this`pos, this`line, this`nprev, this`atEOF, this`items, this`done
      ensures done ==> Stopped() && |items| == |old(items)| + 1
      ensures !done ==> Going() && items == old(items)
      ensures done <==> Broken(old(pos))
      ensures !done && atEOF ==> r == EOF && pos == old(pos) == |input| && nprev == old(nprev) && line == old(line)
      ensures !done && !atEOF ==> pos == old(pos) + 1 && input[old(pos)] == Rune(r) && r != EOF && !IsControl(r)
      ensures !done && !atEOF ==> nprev == if old(nprev) < 4 then old(nprev) + 1 else 4
    {
      hide Understood, Remarked, Lexed, Tidy;
      r := EOF;
      if pos >= |input| {
        atEOF := true;
        return;
      }
      NewlinesNext(input, pos);
      if input[pos] == Rune('\n') {
        line := line + 1;
      }
      if nprev < 4 {
        nprev := nprev + 1;
      }
      if input[pos].Malformed? || IsControl(input[pos].c)
        || (input[pos].c == '\r' && (pos == |input| - 1 || input[pos + 1] != Rune('\n')))
      {
        UnderstoodError(items, want, Item(ItemError, start, pos, line));
        LexedError(input, tomlNext, items, Item(ItemError, start, pos, line));
        items := items + [Item(ItemError, start, pos, line)];
        done := true;
        return;
      }
      r := input[pos].c;
      pos := pos + 1;
    }

    /** Steps back over what the last Next read. Never called more often than Next. */
    method Backup()
      requires Going() && (atEOF || (nprev > 0 && pos > start))
      modifies this`pos, this`line, this`nprev, this`atEOF
      ensures Going() && !atEOF
      ensures old(atEOF) ==> pos == old(pos) && nprev == old(nprev)
      ensures !old(atEOF) ==> pos == old(pos) - 1 && nprev == old(nprev) - 1
    {
      hide Understood, Remarked, Lexed, Tidy;
      if atEOF {
        atEOF := false;
        return;
      }
      nprev := nprev - 1;
      pos := pos - 1;
      NewlinesNext(input, pos);
      if input[pos] == Rune('\n') {
        line := line - 1;
      }
    }

    method Peek() returns (r: char)
      requires Ready()
      modifies this`pos, this`line, this`nprev, this`atEOF, this`items, this`done
      ensures done ==> Stopped() && |items| == |old(items)| + 1
      ensures !done ==> Ready() && items == old(items) && pos == old(pos) && nprev >= (if old(nprev) < 3 then old(nprev) else 3)
      ensures !done ==> if pos < |input| then input[pos] == Rune(r) && r != EOF else r == EOF
      ensures done <==> Broken(old(pos))
    {
      r := Next();
      if !done { Backup(); }
    }

    method Accept(c: char) returns (b: bool)
      requires Ready() && c != EOF
      modifies this`pos, this`line, this`nprev, this`atEOF, this`items, this`done
      ensures done ==> Stopped() && |items| == |old(items)| + 1
      ensures !done ==> Ready() && items == old(items) && pos == old(pos) + (if b then 1 else 0)
      ensures !done ==> (b <==> Is(input, old(pos), c))
      ensures !done && b ==> nprev == if old(nprev) < 4 then old(nprev) + 1 else 4
      ensures !done && !b ==> nprev >= if old(nprev) < 3 then old(nprev) else 3
      ensures done <==> Broken(old(pos))
    {
      var r := Next();
      b := r == c;
      if !done && !b { Backup(); }
    }

    /** lexSkip: passes over the mark c, which has just been read. */
    method Skip(c: char)
      requires Ready() && pos > 0 && Is(input, pos - 1, c) && IsMark(c)
      requires Covered(Fresh, input, tomlNext, start, pos - 1) || Covered(Loose, input, tomlNext, start, pos - 1)
      modifies this`start
      ensures Ready() && start == pos
      ensures Covered(Fresh, input, tomlNext, start, pos) && Covered(Loose, input, tomlNext, start, pos)
    {
      hide Understood, Remarked, Lexed, Tidy, Covered, IsMark, Newlines, Orderly;
      MarkGoes(input, tomlNext, start, pos - 1, c);
      Ignore();
      Settled(input, tomlNext, start);
    }

    /** lexSkip, with the state to go on with. */
    method SkipTo(c: char, s: State) returns (r: State)
      requires Ready() && Shape(s, stack, want) && ProgressOf(s) == Seen(Fresh) && !s.QuotedName?
      requires pos > 0 && Is(input, pos - 1, c) && IsMark(c)
      requires Covered(Fresh, input, tomlNext, start, pos - 1) || Covered(Loose, input, tomlNext, start, pos - 1)
      modifies this`start
      ensures At(r) && r == s && start == pos
    {
      hide Shape, Understood, Remarked, Lexed, Tidy, Covered, ProgressOf, PlaceOf, IsMark, IsWhitespace, IsNL, Newlines, Orderly;
      Skip(c);
      r := s;
    }

    /** A newline in an inline table is passed over in the next TOML version, and an error in this one. */
    method SkipNewline(c: char, s: State) returns (r: State)
      requires Ready() && Shape(s, stack, want) && ProgressOf(s) == Seen(Fresh) && !s.QuotedName?
      requires pos > 0 && Is(input, pos - 1, c) && IsNL(c)
      requires Covered(Fresh, input, tomlNext, start, pos - 1) || Covered(Loose, input, tomlNext, start, pos - 1)
      modifies this`start, this`items, this`done
      ensures if tomlNext then At(r) && r == s && items == old(items) else Stopped() && |items| == |old(items)| + 1
    {
      hide Shape, Understood, Remarked, Lexed, Tidy, Covered, ProgressOf, PlaceOf, IsMark, IsWhitespace, IsNL, Newlines, Orderly;
      if tomlNext {
        MarksAre(c);
        r := SkipTo(c, s);
        return;
      }
      Fail();
      r := Nil;
    }

    /** What a state that begins with nothing seen has seen. */
    lemma FreshHere(s: State)
      requires Reached(s) && ProgressOf(s) == Seen(Fresh)
      ensures Covered(Fresh, input, tomlNext, start, pos)
    {
    }

    /** A bracket or brace has been read. */
    lemma BracketRead(c: char)
      requires pos > 0 && Is(input, pos - 1, c) && Covered(Fresh, input, tomlNext, start, pos - 1)
      ensures c == ']' ==> Reached(ArrayEnd)
      ensures c == '}' ==> Reached(InlineTableEnd)
      ensures c == '[' ==> Reached(TableStart)
    {
      hide ProgressOf, Covered;
      BracketProgress();
      BehindGoes(input, tomlNext, start, pos - 1, c);
      if c == '[' { BracketOpens(input, tomlNext, start, pos - 1); }
    }

    /** skip(isWhitespace). */
    method SkipWhitespace()
      requires Ready() && Covered(Loose, input, tomlNext, start, pos)
      modifies this`pos, this`line, this`nprev, this`atEOF, this`items, this`done, this`start
      ensures done ==> Stopped() && |items| == |old(items)| + 1
      ensures !done ==> Ready() && items == old(items) && pos >= old(pos) && start == pos
      ensures done <==> Broken(SkipSpace(input, old(pos)))
      ensures !done ==> pos == SkipSpace(input, old(pos))
    {
      hide Understood, Remarked, Lexed, Tidy, Covered, Newlines, Orderly;
      while true
        invariant Ready() && items == old(items) && pos >= old(pos) && start == old(start)
        invariant Covered(Loose, input, tomlNext, start, pos)
        invariant SkipSpace(input, pos) == SkipSpace(input, old(pos))
        decreases |input| - pos
      {
        var r := Next();
        if done {
          return;
        }
        if !IsWhitespace(r) {
          Backup();
          Ignore();
          return;
        }
        MarkGoes(input, tomlNext, start, pos - 1, r);
      }
    }

    // ------------------------------------- popping: the state to go on with

    method PopV() returns (r: State)
      requires Ready() && InValue(stack) && want == Rest(stack)
      requires start == pos
      modifies this`stack
      ensures At(r) && Rank(r) == 0
      ensures |old(stack)| > 0 && r == Last(old(stack)) && stack == Below(old(stack))
    {
      hide Shape, InValue, InKey, InHeader, InName, InString, InEscape, InComment, NameAwaits, Understood, Remarked, Lexed, Lexeme, Covered, Tidy, ProgressOf, InsideMulti, Take, Rest, Slot, KeyWant, HeaderWant, NameWant, Back, Passed, Newlines, Orderly, Rank;
      PopValue(stack);
      LastOfValue(stack);
      Settled(input, tomlNext, start);
      r := Pop();
    }

    method PopS(ghost was: seq<Symbol>) returns (r: State)
      requires Ready() && InString(stack, was) && want == Passed(stack)
      requires start == pos
      modifies this`stack
      ensures At(r) && Rank(r) == 0
      ensures |old(stack)| > 0 && r == Last(old(stack)) && stack == Below(old(stack))
    {
      hide Shape, InValue, InKey, InHeader, InName, InString, InEscape, InComment, NameAwaits, Understood, Remarked, Lexed, Lexeme, Covered, Tidy, ProgressOf, InsideMulti, Take, Rest, Slot, KeyWant, HeaderWant, NameWant, Back, Passed, Newlines, Orderly, Rank;
      PopString(stack, was);
      LastOfString(stack, was);
      Settled(input, tomlNext, start);
      r := Pop();
    }

    method PopN() returns (r: State)
      requires Ready() && InName(stack) && want == NameWant(stack, true)
      requires start == pos
      modifies this`stack
      ensures At(r) && Rank(r) == 0
      ensures |old(stack)| > 0 && r == Last(old(stack)) && stack == Below(old(stack))
    {
      hide Shape, InValue, InKey, InHeader, InName, InString, InEscape, InComment, NameAwaits, Understood, Remarked, Lexed, Lexeme, Covered, Tidy, ProgressOf, InsideMulti, Take, Rest, Slot, KeyWant, HeaderWant, NameWant, Back, Passed, Newlines, Orderly, Rank;
      PopName(stack);
      LastOfName(stack);
      Settled(input, tomlNext, start);
      r := Pop();
    }

    method PopE() returns (r: State)
      requires Ready() && InEscape(stack, want)
      requires Covered(if InsideMulti(stack) then InMulti else InBasic, input, tomlNext, start, pos)
      modifies this`stack
      ensures At(r) && Rank(r) == 0
      ensures |old(stack)| > 0 && r == Last(old(stack)) && stack == Below(old(stack))
    {
      hide Shape, InValue, InKey, InHeader, InName, InString, InEscape, InComment, NameAwaits, Understood, Remarked, Lexed, Lexeme, Covered, Tidy, ProgressOf, InsideMulti, Take, Rest, Slot, KeyWant, HeaderWant, NameWant, Back, Passed, Newlines, Orderly, Rank;
      PopEscape(stack, want);
      LastOfEscape(stack, want);
      r := Pop();
    }

    method PopC() returns (r: State)
      requires Ready() && InComment(stack) && want == Back(stack)
      requires start == pos
      modifies this`stack
      ensures At(r) && Rank(r) < Rank(Comment)
      ensures |old(stack)| > 0 && r == Last(old(stack)) && stack == Below(old(stack))
    {
      hide Shape, InValue, InKey, InHeader, InName, InString, InEscape, InComment, NameAwaits, Understood, Remarked, Lexed, Lexeme, Covered, Tidy, ProgressOf, InsideMulti, Take, Rest, Slot, KeyWant, HeaderWant, NameWant, Back, Passed, Newlines, Orderly, Rank;
      PopComment(stack);
      LastOfComment(stack);
      Settled(input, tomlNext, start);
      r := Pop();
    }

    method PopH() returns (r: State)
      requires Ready() && InHeader(stack) && want == HeaderWant(stack, true)
      requires Covered(CloseBracket, input, tomlNext, start, pos)
      modifies this`stack
      ensures At(r)
      ensures |old(stack)| > 0 && r == Last(old(stack)) && stack == Below(old(stack))
    {
      hide Shape, InValue, InKey, InHeader, InName, InString, InEscape, InComment, NameAwaits, Understood, Remarked, Lexed, Lexeme, Covered, Tidy, ProgressOf, InsideMulti, Take, Rest, Slot, KeyWant, HeaderWant, NameWant, Back, Passed, Newlines, Orderly, Rank;
      PopHeader(stack);
      LastOfHeader(stack);
      r := Pop();
    }

    /** Emits a value and goes on behind it. */
    method EmitValue(typ: Type) returns (r: State)
      requires Ready() && InValue(stack) && want == Slot(stack) && IsScalar(typ)
      requires Lexeme(input, tomlNext, false, typ, start, pos)
      modifies this`stack, this`items, this`start, this`done, this`want
      ensures At(r) && Rank(r) == 0
      ensures |old(stack)| > 0 && r == Last(old(stack)) && stack == Below(old(stack)) && |items| == |old(items)| + 1
    {
      hide InValue, InKey, InHeader, InName, InString, InEscape, InComment, NameAwaits, Understood, Remarked, Lexed, Lexeme, Covered, Tidy, ProgressOf, InsideMulti, Take, Rest, Slot, KeyWant, HeaderWant, NameWant, Back, Passed, Newlines, Orderly, Rank;
      ValueTaken(stack, typ);
      Emit(typ);
      r := PopV();
    }

    // -------------------------------------- pushing: where to go on afterwards

    method EnterComment(back: State) returns (r: State)
      requires Ready() && Shape(back, stack, want)
      requires back == Top || back == ArrayValue || back == ArrayValueEnd || back == InlineTableValue || back == InlineTableValueEnd
      requires pos > 0 && Is(input, pos - 1, '#')
      requires Covered(Fresh, input, tomlNext, start, pos - 1) || Covered(Loose, input, tomlNext, start, pos - 1)
      modifies this`stack
      ensures At(r) && r == CommentStart && stack == old(stack) + [back] && pos == old(pos)
    {
      hide Fits, InValue, InKey, InHeader, InName, InString, InEscape, InComment, NameAwaits, Understood, Remarked, Lexed, Lexeme, Covered, Tidy, ProgressOf, InsideMulti, Take, Rest, Slot, KeyWant, HeaderWant, NameWant, Back, Passed, Newlines, Orderly, PlaceOf, Rank, Readable, Broken, IsControl, IsBareKeyChar;
      CommentPlaces();
      ArrayPlaces();
      InlinePlaces();
      CommentShape(stack, back, want);
      BehindGoes(input, tomlNext, start, pos - 1, '#');
      Push(back);
      r := CommentStart;
    }

    /** Gives back what was read last, and goes on with a value or a key. */
    method EnterValue(back: State, next: State) returns (r: State)
      requires Going() && Shape(back, stack, want)
      requires next == if back == ArrayValueEnd then Value else KeyStart
      requires if atEOF then start == pos else nprev > 0 && pos == start + 1
      requires back == ArrayValueEnd || back == InlineTableValueEnd || back == TopEnd
      modifies this`stack, this`pos, this`line, this`nprev, this`atEOF
      ensures At(r) && r == next && stack == old(stack) + [back] && pos == start
    {
      hide Shape, InValue, InKey, InHeader, InName, InString, InEscape, InComment, NameAwaits, Understood, Remarked, Lexed, Lexeme, Covered, Tidy, ProgressOf, InsideMulti, Take, Rest, Slot, KeyWant, HeaderWant, NameWant, Back, Passed, Newlines, Orderly, PlaceOf, Rank, Readable, Broken, IsControl, IsBareKeyChar;
      Backup();
      BeginProgress();
      EnterShape(stack, back, next, want);
      Settled(input, tomlNext, start);
      Push(back);
      r := next;
    }

    /** A part of a name, with c the code point ahead. */
    method EnterName(back: State, c: char) returns (r: State)
      requires Ready() && ((Fits(AtKeyName, stack, want) && back == KeyEnd) || (Fits(AtHeader, stack, want) && back == TableNameEnd))
      requires c != EOF && pos < |input| && input[pos] == Rune(c) && start == pos
      modifies this`stack, this`start
      ensures At(r) && r == NameState(old(pos)) && stack == old(stack) + [back] && pos == old(pos)
    {
      hide InValue, InKey, InHeader, InName, InString, InEscape, InComment, NameAwaits, Understood, Remarked, Lexed, Lexeme, Covered, Tidy, ProgressOf, InsideMulti, Take, Rest, Slot, KeyWant, HeaderWant, NameWant, Back, Passed, Newlines, Orderly, PlaceOf, Rank, Readable, Broken, IsControl, IsBareKeyChar;
      KeyTable();
      PushName(stack, back);
      Settled(input, tomlNext, start);
      NameGoesOn(stack, back, want);
      if IsQuote(c) {
        Settled(input, tomlNext, start);
        Ignore();
        Push(back);
        return QuotedName;
      }
      Push(back);
      return BareName;
    }

    // --------------------------------------------------- the state functions

    /** The end of the input, where a pair or a table could begin. */
    method EndAtTop()
      requires Going() && pos == |input| && want == [TopItems]
      modifies this`items, this`start, this`done, this`want
      ensures done && Stopped() && |items| == |old(items)| + 1
      ensures old(start) == pos ==> Finished()
    {
      hide Fits, IsWhitespace, IsNL, IsMark, InValue, InKey, InHeader, InName, InString, InEscape, InComment, NameAwaits, Understood, Remarked, Lexed, Lexeme, Covered, Tidy, ProgressOf, InsideMulti, Take, Rest, Slot, KeyWant, HeaderWant, NameWant, Back, Passed, Newlines, Orderly, PlaceOf, Rank, Readable, IsControl, IsBareKeyChar;
      if pos > start {
        Fail();
        return;
      }
      TopTakes();
      Settled(input, tomlNext, start);
      MarkIs(input, tomlNext, start, pos);
      Emit(ItemEOF);
    }

    method LexTop() returns (r: State)
      requires At(Top)
      modifies this
      ensures Ran(Top, r)
      ensures done <==> Broken(old(pos)) || old(pos) == |input|
      ensures old(pos) == |input| && old(start) == old(pos) ==> Finished()
      ensures !done ==>
        if SpaceAt(input, old(pos)) || NewlineAt(input, old(pos)) then r == Top && stack == old(stack) && pos == old(pos) + 1
        else if Is(input, old(pos), '#') then r == CommentStart && stack == old(stack) + [Top] && pos == old(pos) + 1
        else if Is(input, old(pos), '[') then r == TableStart && stack == old(stack) && pos == old(pos) + 1
        else r == KeyStart && stack == old(stack) + [TopEnd] && pos == old(pos)
    {
      hide Reached, Resolve, Fits, IsWhitespace, IsNL, IsMark, InValue, InKey, InHeader, InName, InString, InEscape, InComment, NameAwaits, Understood, Remarked, Lexed, Lexeme, Covered, Tidy, ProgressOf, InsideMulti, Take, Rest, Slot, KeyWant, HeaderWant, NameWant, Back, Passed, Newlines, Orderly, PlaceOf, Rank, Readable, IsControl, IsBareKeyChar;
      TopBegins();
      HeaderBegins(stack, want);
      FreshHere(Top);
      FreshMeans(input, tomlNext, start, pos);
      var c := Next();
      if done { return Nil; }
      MarksAre(c);
      if IsWhitespace(c) || IsNL(c) {
        r := SkipTo(c, Top);
        return;
      }
      if c == '#' {
        r := EnterComment(Top);
        return;
      }
      if c == '[' {
        BracketRead(c);
        return TableStart;
      }
      if c == EOF {
        EndAtTop();
        return Nil;
      }
      r := EnterValue(TopEnd, KeyStart);
    }

    method LexTopEnd() returns (r: State)
      requires At(TopEnd)
      modifies this
      ensures Ran(TopEnd, r)
      ensures done <==> Broken(old(pos)) || !(SpaceAt(input, old(pos)) || NewlineAt(input, old(pos)) || Is(input, old(pos), '#'))
      ensures old(pos) == |input| ==> Finished()
      ensures !done ==>
        if Is(input, old(pos), '#') then r == CommentStart && stack == old(stack) + [Top] && pos == old(pos) + 1
        else r == (if SpaceAt(input, old(pos)) then TopEnd else Top) && stack == old(stack) && pos == old(pos) + 1
    {
      hide IsWhitespace, IsNL, IsMark, InValue, InKey, InHeader, InName, InString, InEscape, InComment, NameAwaits, Understood, Remarked, Lexed, Lexeme, Covered, Tidy, ProgressOf, InsideMulti, Take, Rest, Slot, KeyWant, HeaderWant, NameWant, Back, Passed, Newlines, Orderly, PlaceOf, Rank, Readable, IsControl, IsBareKeyChar;
      TopTable();
      var c := Next();
      if done { return Nil; }
      MarksAre(c);
      if c == '#' {
        r := EnterComment(Top);
        return;
      } else if IsWhitespace(c) {
        MarkGoes(input, tomlNext, start, pos - 1, c);
        return TopEnd;
      } else if IsNL(c) {
        r := SkipTo(c, Top);
        return;
      } else if c == EOF {
        TopTakes();
        MarkIs(input, tomlNext, start, pos);
        Emit(ItemEOF);
        return Nil;
      }
      Fail();
      return Nil;
    }

    method LexTableStart() returns (r: State)
      requires At(TableStart)
      modifies this
      ensures Ran(TableStart, r)
      ensures done <==> Broken(old(pos))
      ensures !done ==>
        if Is(input, old(pos), '[') then r == TableNameStart && stack == old(stack) + [ArrayTableEnd] && pos == old(pos) + 1
        else r == TableNameStart && stack == old(stack) + [TableEnd] && pos == old(pos)
    {
      hide Fits, InValue, InKey, InHeader, InName, InString, InEscape, InComment, NameAwaits, Understood, Remarked, Lexed, Lexeme, Covered, Tidy, ProgressOf, InsideMulti, Take, Rest, Slot, KeyWant, HeaderWant, NameWant, Back, Passed, Newlines, Orderly, PlaceOf, Rank, Readable, Broken, IsControl, IsBareKeyChar;
      HeaderTable();
      var c := Peek();
      if done { return Nil; }
      TopTakes();
      HeaderBegins(stack, want);
      HeaderMarks(input, tomlNext, start, pos);
      if c == '[' {
        c := Next();
        if done { return Nil; }
        Emit(ItemArrayTableStart);
        Push(ArrayTableEnd);
        assert stack == [ArrayTableEnd];
      } else {
        Emit(ItemTableStart);
        Push(TableEnd);
        assert stack == [TableEnd];
      }
      Settled(input, tomlNext, start);
      return TableNameStart;
    }

    method LexTableEnd() returns (r: State)
      requires At(TableEnd)
      modifies this
      ensures Ran(TableEnd, r)
      ensures !done && r == TopEnd && stack == old(stack) && pos == old(pos)
    {
      hide InValue, InKey, InHeader, InName, InString, InEscape, InComment, NameAwaits, Understood, Remarked, Lexed, Lexeme, Covered, Tidy, ProgressOf, InsideMulti, Take, Rest, Slot, KeyWant, HeaderWant, NameWant, Back, Passed, Newlines, Orderly, PlaceOf, Rank, Readable, Broken, IsControl, IsBareKeyChar;
      HeaderTable();
      HeaderTakes();
      HeaderMarks(input, tomlNext, start, pos);
      Emit(ItemTableEnd);
      Settled(input, tomlNext, start);
      return TopEnd;
    }

    method LexArrayTableEnd() returns (r: State)
      requires At(ArrayTableEnd)
      modifies this
      ensures Ran(ArrayTableEnd, r)
      ensures done <==> !Is(input, old(pos), ']')
      ensures !done ==> r == TopEnd && stack == old(stack) && pos == old(pos) + 1
    {
      hide InValue, InKey, InHeader, InName, InString, InEscape, InComment, NameAwaits, Understood, Remarked, Lexed, Lexeme, Covered, Tidy, ProgressOf, InsideMulti, Take, Rest, Slot, KeyWant, HeaderWant, NameWant, Back, Passed, Newlines, Orderly, PlaceOf, Rank, Readable, Broken, IsControl, IsBareKeyChar;
      HeaderTable();
      HeaderMarks(input, tomlNext, start, pos);
      PlainReads(pos);
      var c := Next();
      if done { return Nil; }
      if c != ']' {
        Fail();
        return Nil;
      }
      HeaderTakes();
      Emit(ItemArrayTableEnd);
      Settled(input, tomlNext, start);
      return TopEnd;
    }

    method LexTableNameStart() returns (r: State)
      requires At(TableNameStart)
      modifies this
      ensures Ran(TableNameStart, r)
      ensures var k := SkipSpace(input, old(pos));
        done <==> k == |input| || Broken(k) || Is(input, k, ']') || Is(input, k, '.')
      ensures !done ==>
        var k := SkipSpace(input, old(pos));
        r == NameState(k) && stack == old(stack) + [TableNameEnd] && pos == k
    {
      hide SkipSpace, InValue, InKey, InHeader, InName, InString, InEscape, InComment, NameAwaits, Understood, Remarked, Lexed, Lexeme, Covered, Tidy, ProgressOf, InsideMulti, Take, Rest, Slot, KeyWant, HeaderWant, NameWant, Back, Passed, Newlines, Orderly, PlaceOf, Rank, Readable, Broken, IsControl, IsBareKeyChar;
      HeaderTable();
      KeyTable();
      SkipWhitespace();
      if done { return Nil; }
      var c := Peek();
      if done { return Nil; }
      if c == ']' || c == EOF || c == '.' {
        Fail();
        return Nil;
      }
      r := EnterName(TableNameEnd, c);
    }

    method LexTableNameEnd() returns (r: State)
      requires At(TableNameEnd)
      modifies this
      ensures Ran(TableNameEnd, r)
      ensures var k := SkipSpace(input, old(pos));
        done <==> !(SpaceAt(input, k) || Is(input, k, '.') || Is(input, k, ']'))
      ensures !done ==>
        var k := SkipSpace(input, old(pos));
        if SpaceAt(input, k) then r == TableNameEnd && stack == old(stack) && pos == k + 1
        else if Is(input, k, '.') then r == TableNameStart && stack == old(stack) && pos == k + 1
        else |old(stack)| > 0 && r == Last(old(stack)) && stack == Below(old(stack)) && pos == k + 1
    {
      hide Fits, SkipSpace, InValue, InKey, InHeader, InName, InString, InEscape, InComment, NameAwaits, Understood, Remarked, Lexed, Lexeme, Covered, Tidy, ProgressOf, InsideMulti, Take, Rest, Slot, KeyWant, HeaderWant, NameWant, Back, Passed, Newlines, Orderly, PlaceOf, Rank, Readable, Broken, IsControl, IsBareKeyChar;
      HeaderTable();
      PlainReads(SkipSpace(input, pos));
      SkipWhitespace();
      if done { return Nil; }
      Settled(input, tomlNext, start);
      var c := Next();
      if done { return Nil; }
      if IsWhitespace(c) {
        MarkGoes(input, tomlNext, start, pos - 1, c);
        return TableNameEnd;
      } else if c == '.' {
        Skip(c);
        HeaderGoesOn(stack, want);
        return TableNameStart;
      } else if c == ']' {
        Goes(Fresh, CloseBracket, input, tomlNext, start, pos - 1, c);
        HeaderGoesOn(stack, want);
        r := PopH();
        return;
      }
      Fail();
      return Nil;
    }

    method LexBareName() returns (r: State)
      requires At(BareName)
      modifies this
      ensures Ran(BareName, r)
      ensures done <==> Broken(old(pos))
      ensures !done ==>
        if old(pos) < |input| && input[old(pos)].Rune? && IsBareKeyChar(input[old(pos)].c, tomlNext) then
          r == BareName && stack == old(stack) && pos == old(pos) + 1
        else |old(stack)| > 0 && r == Last(old(stack)) && stack == Below(old(stack)) && pos == old(pos)
    {
      hide InValue, InKey, InHeader, InName, InString, InEscape, InComment, NameAwaits, Understood, Remarked, Lexed, Lexeme, Covered, Tidy, ProgressOf, InsideMulti, Take, Rest, Slot, KeyWant, HeaderWant, NameWant, Back, Passed, Newlines, Orderly, PlaceOf, Rank, Readable, Broken, IsControl;
      KeyTable();
      var c := Next();
      if done { return Nil; }
      if IsBareKeyChar(c, tomlNext) {
        Goes(NamePart, NamePart, input, tomlNext, start, pos - 1, c);
        return BareName;
      }
      Backup();
      Ended(NamePart, ItemText, input, tomlNext, start, pos, c);
      NameIsNoRemark(items, stack, want);
      NameTaken(stack, want, ItemText);
      NameAwaited(stack, want);
      Emit(ItemText);
      r := PopN();
    }

    /** The source also has cases for whitespace, end of file and anything else; the state is only
        entered with a quote ahead, so they never apply. */
    method LexQuotedName() returns (r: State)
      requires At(QuotedName)
      modifies this
      ensures Ran(QuotedName, r)
      ensures !done && r == (if Is(input, old(pos), '"') then String else RawString) && stack == old(stack) && pos == old(pos) + 1 && start == pos
    {
      hide InValue, InKey, InHeader, InName, InString, InEscape, InComment, NameAwaits, Understood, Remarked, Lexed, Lexeme, Covered, Tidy, ProgressOf, InsideMulti, Take, Rest, Slot, KeyWant, HeaderWant, NameWant, Back, Passed, Newlines, Orderly, PlaceOf, Rank, Readable, Broken, IsControl, IsBareKeyChar;
      KeyTable();
      StringTable();
      NameIsString(stack, want);
      PlainReads(pos);
      var c := Next();
      if done { return Nil; }
      if c == '"' {
        MarkGoes(input, tomlNext, start, pos - 1, c);
        Ignore();
        TextBegins(input, tomlNext, start);
        return String;
      }
      MarkGoes(input, tomlNext, start, pos - 1, c);
      Ignore();
      TextBegins(input, tomlNext, start);
      return RawString;
    }

    method LexKeyStart() returns (r: State)
      requires At(KeyStart)
      modifies this
      ensures Ran(KeyStart, r)
      ensures var k := SkipSpace(input, old(pos));
        done <==> k == |input| || Broken(k) || Is(input, k, '=') || Is(input, k, '.')
      ensures !done ==>
        var k := SkipSpace(input, old(pos));
        r == KeyNameStart && stack == old(stack) && pos == k
    {
      hide SkipSpace, InValue, InKey, InHeader, InName, InString, InEscape, InComment, NameAwaits, Understood, Remarked, Lexed, Lexeme, Covered, Tidy, ProgressOf, InsideMulti, Take, Rest, Slot, KeyWant, HeaderWant, NameWant, Back, Passed, Newlines, Orderly, PlaceOf, Rank, Readable, Broken, IsControl, IsBareKeyChar;
      KeyTable();
      SkipWhitespace();
      if done { return Nil; }
      var c := Peek();
      if done { return Nil; }
      if c == '=' || c == EOF || c == '.' {
        Fail();
        return Nil;
      }
      if IsQuote(c) {
        Settled(input, tomlNext, start);
        Ignore();
      }
      KeyStarts(stack);
      MarkIs(input, tomlNext, start, pos);
      Emit(ItemKeyStart);
      Settled(input, tomlNext, start);
      return KeyNameStart;
    }

    method LexKeyNameStart() returns (r: State)
      requires At(KeyNameStart)
      modifies this
      ensures Ran(KeyNameStart, r)
      ensures var k := SkipSpace(input, old(pos));
        done <==> k == |input| || Broken(k) || Is(input, k, '=') || Is(input, k, '.')
      ensures !done ==>
        var k := SkipSpace(input, old(pos));
        r == NameState(k) && stack == old(stack) + [KeyEnd] && pos == k
    {
      hide SkipSpace, InValue, InKey, InHeader, InName, InString, InEscape, InComment, NameAwaits, Understood, Remarked, Lexed, Lexeme, Covered, Tidy, ProgressOf, InsideMulti, Take, Rest, Slot, KeyWant, HeaderWant, NameWant, Back, Passed, Newlines, Orderly, PlaceOf, Rank, Readable, Broken, IsControl, IsBareKeyChar;
      KeyTable();
      SkipWhitespace();
      if done { return Nil; }
      var c := Peek();
      if done { return Nil; }
      if c == '=' || c == EOF || c == '.' {
        Fail();
        return Nil;
      }
      r := EnterName(KeyEnd, c);
    }

    /** The equals sign behind a key has been read. */
    method EndKey()
      requires Ready() && Fits(AtKeyEnd, stack, want) && pos == start + 1 && Is(input, start, '=')
      modifies this`items, this`start, this`done, this`want
      ensures At(Value) && |items| == |old(items)| + 1
    {
      hide SkipSpace, InValue, InKey, InHeader, InName, InString, InEscape, InComment, NameAwaits, Understood, Remarked, Lexed, Lexeme, Covered, Tidy, ProgressOf, InsideMulti, Take, Rest, Slot, KeyWant, HeaderWant, NameWant, Back, Passed, Newlines, Orderly, PlaceOf, Rank, Readable, Broken, IsControl, IsBareKeyChar;
      KeyTable();
      KeyEnds(stack);
      MarkIs(input, tomlNext, start, pos);
      KeyIsValue(stack);
      Emit(ItemKeyEnd);
      Settled(input, tomlNext, start);
      Ignore();
    }

    method LexKeyEnd() returns (r: State)
      requires At(KeyEnd)
      modifies this
      ensures Ran(KeyEnd, r)
      ensures var k := SkipSpace(input, old(pos));
        done <==> !(SpaceAt(input, k) || Is(input, k, '.') || Is(input, k, '='))
      ensures !done ==>
        var k := SkipSpace(input, old(pos));
        r == (if SpaceAt(input, k) then KeyEnd else if Is(input, k, '.') then KeyNameStart else Value) && stack == old(stack) && pos == k + 1
    {
      hide Fits, SkipSpace, InValue, InKey, InHeader, InName, InString, InEscape, InComment, NameAwaits, Understood, Remarked, Lexed, Lexeme, Covered, Tidy, ProgressOf, InsideMulti, Take, Rest, Slot, KeyWant, HeaderWant, NameWant, Back, Passed, Newlines, Orderly, PlaceOf, Rank, Readable, Broken, IsControl, IsBareKeyChar;
      KeyTable();
      PlainReads(SkipSpace(input, pos));
      SkipWhitespace();
      if done { return Nil; }
      Settled(input, tomlNext, start);
      var c := Next();
      if done { return Nil; }
      if IsWhitespace(c) {
        Skip(c);
        return KeyEnd;
      } else if c == '.' {
        Skip(c);
        KeyGoesOn(stack, want);
        return KeyNameStart;
      } else if c == '=' {
        EndKey();
        return Value;
      }
      Fail();
      return Nil;
    }

    /** A value. After "i" or "n" that starts neither inf nor nan, only one code point is given back,
        so letters already accepted are skipped; the word is an error anyway. */
    method LexValue() returns (r: State)
      requires At(Value)
      modifies this
      ensures Ran(Value, r)
      ensures Broken(old(pos)) || old(pos) == |input| ==> done
      ensures old(pos) < |input| && Readable(old(pos)) ==>
        if SpaceAt(input, old(pos)) then !done && r == Value && stack == old(stack) && pos == old(pos) + 1
        else if DigitAt(input, old(pos)) then !done && r == NumberOrDateStart && stack == old(stack) && pos == old(pos)
        else Marked(r, old(pos), input[old(pos)].c)
    {
      hide InValue, InKey, InHeader, InName, InString, InEscape, InComment, NameAwaits, Understood, Remarked, Lexed, Lexeme, Covered, Tidy, ProgressOf, InsideMulti, Take, Rest, Slot, KeyWant, HeaderWant, NameWant, Back, Passed, Newlines, Orderly, PlaceOf, Rank, Readable, IsControl, IsBareKeyChar;
      NumberTable();
      BeginTable();
      FreshMeans(input, tomlNext, start, pos);
      var c := Next();
      if done { return Nil; }
      if IsWhitespace(c) {
        r := SkipTo(c, Value);
        return;
      } else if IsDigit(c) {
        Backup();
        Settled(input, tomlNext, start);
        return NumberOrDateStart;
      }
      r := ValueMark(c);
    }

    /** A value that is no number, by its first character. */
    method ValueMark(c: char) returns (r: State)
      requires Going() && InValue(stack) && want == Slot(stack) && (atEOF <==> c == EOF)
      requires c != EOF ==> nprev > 0 && pos == start + 1 && Is(input, start, c)
      modifies this
      ensures |items| <= |old(items)| + 1 && (c == EOF ==> done)
      ensures if done then Stopped() else At(r) && (pos >= old(pos) || (pos == old(pos) - 1 && Rank(r) < 2))
      ensures c != EOF ==> Marked(r, old(start), c)
    {
      hide InValue, InKey, InHeader, InName, InString, InEscape, InComment, NameAwaits, Understood, Remarked, Lexed, Lexeme, Covered, Tidy, ProgressOf, InsideMulti, Take, Rest, Slot, KeyWant, HeaderWant, NameWant, Back, Passed, Newlines, Orderly, PlaceOf, Rank, Readable, Broken, IsControl, IsBareKeyChar;
      if c == '[' {
        r := OpenGroup(ItemArray, ArrayValue);
        return;
      } else if c == '{' {
        r := OpenGroup(ItemInlineTableStart, InlineTableValue);
        return;
      } else if c == '"' {
        r := OpenQuote('"', MultilineString, String);
        return;
      } else if c == '\'' {
        r := OpenQuote('\'', MultilineRawString, RawString);
        return;
      } else if c == '.' {
        Fail();
        return Nil;
      } else if c == '-' || c == '+' {
        SignTable();
        Settled(input, tomlNext, start);
        SignBegins(input, tomlNext, start, start, c);
        return DecimalNumberStart;
      }
      if c == EOF {
        Fail();
        return Nil;
      }
      r := ValueWord(c);
    }

    /** inf and nan, or a word that can only be a boolean. */
    method ValueWord(c: char) returns (r: State)
      requires Ready() && nprev > 0 && pos == start + 1 && Is(input, start, c) && c != EOF && InValue(stack) && want == Slot(stack)
      modifies this
      ensures |items| <= |old(items)| + 1 && (c == EOF ==> done)
      ensures if done then Stopped() else At(r) && (pos >= old(pos) || (pos == old(pos) - 1 && Rank(r) < 2))
      ensures Worded(r, old(start), c)
    {
      hide InValue, InKey, InHeader, InName, InString, InEscape, InComment, NameAwaits, Understood, Remarked, Lexed, Lexeme, Covered, Tidy, ProgressOf, InsideMulti, Take, Rest, Slot, KeyWant, HeaderWant, NameWant, Back, Passed, Newlines, Orderly, PlaceOf, Rank, Readable, Broken, IsControl, IsBareKeyChar;
      if c == 'i' || c == 'n' {
        var word := InfOrNan(c);
        if done { return Nil; }
        if word {
          WordIs(input, tomlNext, start, pos);
          r := EmitValue(ItemFloat);
          return;
        }
      }
      if isLetter(c) {
        BoolTable();
        Backup();
        WordLeft(input, tomlNext, start, pos);
        return Bool;
      }
      Fail();
      return Nil;
    }

    /** A bracket or brace has been read. */
    method OpenGroup(typ: Type, inside: State) returns (r: State)
      requires Ready() && InValue(stack) && want == Slot(stack)
      requires pos == start + 1 && Is(input, start, if typ == ItemArray then '[' else '{')
      requires (typ == ItemArray && inside == ArrayValue) || (typ == ItemInlineTableStart && inside == InlineTableValue)
      modifies this`items, this`start, this`done, this`want
      ensures At(r) && r == inside && stack == old(stack) && pos == old(pos) && |items| == |old(items)| + 1
    {
      hide InValue, InKey, InHeader, InName, InString, InEscape, InComment, NameAwaits, Understood, Remarked, Lexed, Lexeme, Covered, Tidy, ProgressOf, InsideMulti, Take, Rest, Slot, KeyWant, HeaderWant, NameWant, Back, Passed, Newlines, Orderly, PlaceOf, Rank, Readable, Broken, IsControl, IsBareKeyChar;
      ValueTable();
      Settled(input, tomlNext, start);
      MarkGoes(input, tomlNext, start, start, if typ == ItemArray then '[' else '{');
      Ignore();
      ValueTaken(stack, typ);
      BehindMarks(input, tomlNext, start);
      Settled(input, tomlNext, start);
      Emit(typ);
      r := inside;
    }

    /** One quote has been read: three open a multi-line string, one a plain one. */
    method OpenQuote(q: char, multi: State, single: State) returns (r: State)
      requires Ready() && nprev > 0 && pos == start + 1 && Is(input, start, q) && IsQuote(q) && InValue(stack) && want == Slot(stack)
      requires if q == '"' then multi == MultilineString && single == String else multi == MultilineRawString && single == RawString
      modifies this
      ensures done ==> Stopped() && |items| == |old(items)| + 1
      ensures !done ==> At(r) && items == old(items) && pos >= old(pos) && (r == multi || r == single)
      ensures done <==> QuoteBreaks(old(start), q)
      ensures !done ==> Quoted(r, old(start), q)
    {
      hide InValue, InKey, InHeader, InName, InString, InEscape, InComment, NameAwaits, Understood, Remarked, Lexed, Lexeme, Covered, Tidy, ProgressOf, InsideMulti, Take, Rest, Slot, KeyWant, HeaderWant, NameWant, Back, Passed, Newlines, Orderly, PlaceOf, Rank, Readable, Broken;
      QuotePlaces();
      QuoteProgress();
      ValueIsString(stack);
      var second := Accept(q);
      if done { return Nil; }
      if second {
        var third := Accept(q);
        if done { return Nil; }
        if third {
          QuotesGo(input, tomlNext, start, q);
          Ignore();
          ThreeBegin(input, tomlNext, start, q);
          return multi;
        }
        Backup();
      }
      QuotesGo(input, tomlNext, start, q);
      Ignore();
      QuoteBegins(input, tomlNext, start, q);
      return single;
    }

    /** (accept n and accept f) or (accept a and accept n). */
    method InfOrNan(c: char) returns (b: bool)
      requires Ready() && nprev > 0 && pos == start + 1 && Is(input, start, c) && (c == 'i' || c == 'n')
      modifies this`pos, this`line, this`nprev, this`atEOF, this`items, this`done
      ensures done ==> Stopped() && |items| == |old(items)| + 1
      ensures !done && b ==> FloatWord(input, start, pos)
      ensures !done && !b ==> pos == old(pos) || Is(input, pos - 1, 'n') || Is(input, pos - 1, 'a')
      ensures !done ==> Ready() && items == old(items) && pos >= old(pos) && nprev > 0
    {
      hide FloatWord, Is, Understood, Remarked, Lexed, Tidy, Newlines, Orderly;
      b := Accept('n');
      if done { return; }
      if b {
        b := Accept('f');
        if done { return; }
        if b {
          Word3(input, start, c);
          return;
        }
      }
      b := Accept('a');
      if done { return; }
      if b {
        b := Accept('n');
        if !done && b { Word4(input, start, pos, c); }
      }
    }

    method LexArrayValue() returns (r: State)
      requires At(ArrayValue)
      modifies this
      ensures Ran(ArrayValue, r)
      ensures done <==> Broken(old(pos)) || Is(input, old(pos), ',')
      ensures !done ==>
        if SpaceAt(input, old(pos)) || NewlineAt(input, old(pos)) then r == ArrayValue && stack == old(stack) && pos == old(pos) + 1
        else if Is(input, old(pos), '#') then r == CommentStart && stack == old(stack) + [ArrayValue] && pos == old(pos) + 1
        else if Is(input, old(pos), ']') then r == ArrayEnd && stack == old(stack) && pos == old(pos) + 1
        else r == Value && stack == old(stack) + [ArrayValueEnd] && pos == old(pos)
    {
      hide Reached, Resolve, IsWhitespace, IsNL, IsMark, Fits, InValue, InKey, InHeader, InName, InString, InEscape, InComment, NameAwaits, Understood, Remarked, Lexed, Lexeme, Covered, Tidy, ProgressOf, InsideMulti, Take, Rest, Slot, KeyWant, HeaderWant, NameWant, Back, Passed, Newlines, Orderly, PlaceOf, Rank, Readable, Broken, IsControl, IsBareKeyChar;
      ArrayTable();
      BeginRanks();
      FreshHere(ArrayValue);
      FreshMeans(input, tomlNext, start, pos);
      var c := Next();
      if done { return Nil; }
      MarksAre(c);
      if IsWhitespace(c) || IsNL(c) {
        r := SkipTo(c, ArrayValue);
        return;
      } else if c == '#' {
        r := EnterComment(ArrayValue);
        return;
      } else if c == ',' {
        Fail();
        return Nil;
      } else if c == ']' {
        BracketRead(c);
        return ArrayEnd;
      }
      r := EnterValue(ArrayValueEnd, Value);
    }

    method LexArrayValueEnd() returns (r: State)
      requires At(ArrayValueEnd)
      modifies this
      ensures Ran(ArrayValueEnd, r)
      ensures done <==>
        Broken(old(pos)) || !(SpaceAt(input, old(pos)) || NewlineAt(input, old(pos)) || IsOneOf(input, old(pos), "#,]"))
      ensures !done ==>
        if Is(input, old(pos), '#') then r == CommentStart && stack == old(stack) + [ArrayValueEnd] && pos == old(pos) + 1
        else if Is(input, old(pos), ',') then r == ArrayValue && stack == old(stack) && pos == old(pos) + 1
        else if Is(input, old(pos), ']') then r == ArrayEnd && stack == old(stack) && pos == old(pos) + 1
        else r == ArrayValueEnd && stack == old(stack) && pos == old(pos) + 1
    {
      hide Reached, Resolve, IsWhitespace, IsNL, IsMark, Fits, InValue, InKey, InHeader, InName, InString, InEscape, InComment, NameAwaits, Understood, Remarked, Lexed, Lexeme, Covered, Tidy, ProgressOf, InsideMulti, Take, Rest, Slot, KeyWant, HeaderWant, NameWant, Back, Passed, Newlines, Orderly, PlaceOf, Rank, Readable, Broken, IsControl, IsBareKeyChar;
      ArrayTable();
      PlainReads(pos);
      FreshHere(ArrayValueEnd);
      FreshMeans(input, tomlNext, start, pos);
      var c := Next();
      if done { return Nil; }
      MarksAre(c);
      if IsWhitespace(c) || IsNL(c) {
        r := SkipTo(c, ArrayValueEnd);
        return;
      } else if c == '#' {
        r := EnterComment(ArrayValueEnd);
        return;
      } else if c == ',' {
        r := SkipTo(c, ArrayValue);
        return;
      } else if c == ']' {
        BracketRead(c);
        return ArrayEnd;
      }
      Fail();
      return Nil;
    }

    method LexArrayEnd() returns (r: State)
      requires At(ArrayEnd)
      modifies this
      ensures Ran(ArrayEnd, r)
      ensures !done && |old(stack)| > 0 && r == Last(old(stack)) && stack == Below(old(stack)) && pos == old(pos)
    {
      hide InValue, InKey, InHeader, InName, InString, InEscape, InComment, NameAwaits, Understood, Remarked, Lexed, Lexeme, Covered, Tidy, ProgressOf, InsideMulti, Take, Rest, Slot, KeyWant, HeaderWant, NameWant, Back, Passed, Newlines, Orderly, PlaceOf, Rank, Readable, Broken, IsControl, IsBareKeyChar;
      ArrayTable();
      BehindMeans(BehindBracket, input, tomlNext, start, pos);
      Ignore();
      BehindMarks(input, tomlNext, start);
      GroupEnds(stack);
      Emit(ItemArrayEnd);
      r := PopV();
    }

    method LexInlineTableValue() returns (r: State)
      requires At(InlineTableValue)
      modifies this
      ensures Ran(InlineTableValue, r)
      ensures done <==> Broken(old(pos)) || Is(input, old(pos), ',') || (NewlineAt(input, old(pos)) && !tomlNext)
      ensures !done ==>
        if SpaceAt(input, old(pos)) || NewlineAt(input, old(pos)) then r == InlineTableValue && stack == old(stack) && pos == old(pos) + 1
        else if Is(input, old(pos), '#') then r == CommentStart && stack == old(stack) + [InlineTableValue] && pos == old(pos) + 1
        else if Is(input, old(pos), '}') then r == InlineTableEnd && stack == old(stack) && pos == old(pos) + 1
        else r == KeyStart && stack == old(stack) + [InlineTableValueEnd] && pos == old(pos)
    {
      hide Reached, Resolve, IsWhitespace, IsNL, IsMark, Fits, InValue, InKey, InHeader, InName, InString, InEscape, InComment, NameAwaits, Understood, Remarked, Lexed, Lexeme, Covered, Tidy, ProgressOf, InsideMulti, Take, Rest, Slot, KeyWant, HeaderWant, NameWant, Back, Passed, Newlines, Orderly, PlaceOf, Rank, Readable, Broken, IsControl, IsBareKeyChar;
      InlineTable();
      BeginRanks();
      FreshHere(InlineTableValue);
      FreshMeans(input, tomlNext, start, pos);
      var c := Next();
      if done { return Nil; }
      MarksAre(c);
      if IsWhitespace(c) {
        r := SkipTo(c, InlineTableValue);
        return;
      } else if IsNL(c) {
        r := SkipNewline(c, InlineTableValue);
        return;
      } else if c == '#' {
        r := EnterComment(InlineTableValue);
        return;
      } else if c == ',' {
        Fail();
        return Nil;
      } else if c == '}' {
        BracketRead(c);
        return InlineTableEnd;
      }
      r := EnterValue(InlineTableValueEnd, KeyStart);
    }

    /** Behind a comma: another pair, or, in the next TOML version, the end of the table. */
    method NextField() returns (r: State)
      requires Ready() && Fits(AtFields, stack, want) && Covered(Loose, input, tomlNext, start, pos)
      modifies this`pos, this`line, this`nprev, this`atEOF, this`items, this`done, this`start
      ensures |items| <= |old(items)| + 1
      ensures if done then Stopped() else At(r) && pos >= old(pos)
      ensures var k := SkipSpace(input, old(pos));
        done <==> Broken(k) || (Is(input, k, '}') && !tomlNext)
      ensures !done ==>
        var k := SkipSpace(input, old(pos));
        r == (if Is(input, k, '}') then InlineTableValueEnd else InlineTableValue) && stack == old(stack) && pos == k
    {
      hide SkipSpace, Fits, InValue, InKey, InHeader, InName, InString, InEscape, InComment, NameAwaits, Understood, Remarked, Lexed, Lexeme, Covered, Tidy, ProgressOf, InsideMulti, Take, Rest, Slot, KeyWant, HeaderWant, NameWant, Back, Passed, Newlines, Orderly, PlaceOf, Rank, Readable, Broken, IsControl, IsBareKeyChar;
      InlineTable();
      SkipWhitespace();
      if done { return Nil; }
      var c := Peek();
      if done { return Nil; }
      Settled(input, tomlNext, start);
      if c == '}' {
        if tomlNext {
          return InlineTableValueEnd;
        }
        Fail();
        return Nil;
      }
      return InlineTableValue;
    }

    method LexInlineTableValueEnd() returns (r: State)
      requires At(InlineTableValueEnd)
      modifies this
      ensures Ran(InlineTableValueEnd, r)
      ensures Is(input, old(pos), ',') ==>
        var k := SkipSpace(input, old(pos) + 1);
        done <==> Broken(k) || (Is(input, k, '}') && !tomlNext)
      ensures !Is(input, old(pos), ',') ==>
        (done <==>
          Broken(old(pos)) || !(SpaceAt(input, old(pos)) || (NewlineAt(input, old(pos)) && tomlNext) || IsOneOf(input, old(pos), "#}")))
      ensures !done ==>
        if Is(input, old(pos), '#') then r == CommentStart && stack == old(stack) + [InlineTableValueEnd] && pos == old(pos) + 1
        else if Is(input, old(pos), ',') then AfterComma(r, SkipSpace(input, old(pos) + 1))
        else if Is(input, old(pos), '}') then r == InlineTableEnd && stack == old(stack) && pos == old(pos) + 1
        else r == InlineTableValueEnd && stack == old(stack) && pos == old(pos) + 1
    {
      hide Reached, Resolve, SkipSpace, IsWhitespace, IsNL, IsMark, Fits, InValue, InKey, InHeader, InName, InString, InEscape, InComment, NameAwaits, Understood, Remarked, Lexed, Lexeme, Covered, Tidy, ProgressOf, InsideMulti, Take, Rest, Slot, KeyWant, HeaderWant, NameWant, Back, Passed, Newlines, Orderly, PlaceOf, Rank, Readable, Broken, IsControl, IsBareKeyChar;
      InlineTable();
      PlainReads(pos);
      FreshHere(InlineTableValueEnd);
      FreshMeans(input, tomlNext, start, pos);
      var c := Next();
      if done { return Nil; }
      MarksAre(c);
      if IsWhitespace(c) {
        r := SkipTo(c, InlineTableValueEnd);
        return;
      } else if IsNL(c) {
        r := SkipNewline(c, InlineTableValueEnd);
        return;
      } else if c == '#' {
        r := EnterComment(InlineTableValueEnd);
        return;
      } else if c == ',' {
        Skip(c);
        r := NextField();
        return;
      } else if c == '}' {
        BracketRead(c);
        return InlineTableEnd;
      }
      Fail();
      return Nil;
    }

    method LexInlineTableEnd() returns (r: State)
      requires At(InlineTableEnd)
      modifies this
      ensures Ran(InlineTableEnd, r)
      ensures !done && |old(stack)| > 0 && r == Last(old(stack)) && stack == Below(old(stack)) && pos == old(pos)
    {
      hide InValue, InKey, InHeader, InName, InString, InEscape, InComment, NameAwaits, Understood, Remarked, Lexed, Lexeme, Covered, Tidy, ProgressOf, InsideMulti, Take, Rest, Slot, KeyWant, HeaderWant, NameWant, Back, Passed, Newlines, Orderly, PlaceOf, Rank, Readable, Broken, IsControl, IsBareKeyChar;
      InlineTable();
      BehindMeans(BehindBrace, input, tomlNext, start, pos);
      Ignore();
      BehindMarks(input, tomlNext, start);
      GroupEnds(stack);
      Emit(ItemInlineTableEnd);
      r := PopV();
    }

    /** The closing quote has been read: emits the text before it and reads over it. */
    method CloseString() returns (r: State)
      requires Ready() && InString(stack, want) && nprev > 0 && start < pos && Readable(pos - 1)
      requires Covered(InBasic, input, tomlNext, start, pos - 1) && Is(input, pos - 1, '"')
      modifies this
      ensures At(r) && Rank(r) == 0 && pos == old(pos) && start == pos && !esc
      ensures |old(stack)| > 0 && r == Last(old(stack)) && stack == Below(old(stack)) && |items| == |old(items)| + 1
      ensures Holds(items[|items| - 1], if old(esc) then ItemStringEsc else ItemString, old(start), old(pos) - 1)
    {
      hide InValue, InKey, InHeader, InName, InString, InEscape, InComment, NameAwaits, Understood, Remarked, Lexed, Lexeme, Covered, Tidy, ProgressOf, InsideMulti, Take, Rest, Slot, KeyWant, HeaderWant, NameWant, Back, Passed, Newlines, Orderly, PlaceOf, Rank, IsControl, IsBareKeyChar;
      Backup();
      TextEnds(input, tomlNext, start, pos);
      ghost var was := want;
      StringTaken(stack, want, if esc then ItemStringEsc else ItemString);
      if esc {
        esc := false;
        Emit(ItemStringEsc);
      } else {
        Emit(ItemString);
      }
      QuotesGo(input, tomlNext, start, '"');
      var c := Next();
      Ignore();
      r := PopS(was);
    }

    method LexString() returns (r: State)
      requires At(String)
      modifies this
      ensures Ran(String, r)
      ensures done <==> !old(Readable(pos)) || IsNL(input[old(pos)].c)
      ensures !done ==> pos == old(pos) + 1
      ensures !done && input[old(pos)].c == '"' ==> |old(stack)| > 0 && r == Last(old(stack)) && stack == Below(old(stack)) && !esc && start == pos
      ensures !done && input[old(pos)].c == '"' ==>
        |items| == |old(items)| + 1 && Holds(items[|items| - 1], if old(esc) then ItemStringEsc else ItemString, old(start), old(pos))
      ensures !done && input[old(pos)].c == '\\' ==> r == StringEscape && stack == old(stack) + [String] && Kept() && esc == old(esc)
      ensures !done && input[old(pos)].c != '"' && input[old(pos)].c != '\\' ==>
        r == String && stack == old(stack) && Kept() && esc == old(esc)
    {
      hide InValue, InKey, InHeader, InName, InString, InEscape, InComment, NameAwaits, Understood, Remarked, Lexed, Lexeme, Covered, Tidy, ProgressOf, InsideMulti, Take, Rest, Slot, KeyWant, HeaderWant, NameWant, Back, Passed, Newlines, Orderly, PlaceOf, Rank, IsBareKeyChar;
      StringTable();
      var c := Next();
      if done { return Nil; }
      if c == EOF || IsNL(c) {
        Fail();
        return Nil;
      } else if c == '\\' {
        ghost var was := stack;
        PushEscape(stack, String, want);
        Push(String);
        BasicGoes(input, tomlNext, start, pos - 1, c);
        PushedString(was);
        return StringEscape;
      } else if c == '"' {
        r := CloseString();
        return;
      }
      BasicGoes(input, tomlNext, start, pos - 1, c);
      return String;
    }

    method LexMultilineString() returns (r: State)
      requires At(MultilineString)
      modifies this
      ensures Ran(MultilineString, r)
      ensures done <==>
        old(pos) == |input| || Broken(old(pos))
        || (Is(input, old(pos), '"') && (QuotesBreak(old(pos), '"') || TooMany(old(start), old(pos), '"', true)))
      ensures !done && LastThree(input, old(pos), '"') ==>
        |old(stack)| > 0 && r == Last(old(stack)) && stack == Below(old(stack)) && pos == start == old(pos) + 3 && !esc
      ensures !done && LastThree(input, old(pos), '"') ==>
        |items| == |old(items)| + 1 && Holds(items[|items| - 1], ItemMultilineString, old(start), old(pos))
      ensures !done && !LastThree(input, old(pos), '"') ==>
        r == (if Is(input, old(pos), '\\') then MultilineStringEscape else MultilineString)
        && stack == old(stack) && pos == old(pos) + 1 && Kept()
    {
      hide InValue, InKey, InHeader, InName, InString, InEscape, InComment, NameAwaits, Understood, Remarked, Lexed, Lexeme, Covered, Tidy, ProgressOf, InsideMulti, Take, Rest, Slot, KeyWant, HeaderWant, NameWant, Back, Passed, Newlines, Orderly, PlaceOf, Rank, Readable, Broken, IsControl, IsBareKeyChar;
      StringTable();
      var c := Next();
      if done { return Nil; }
      if c == EOF {
        Fail();
        return Nil;
      }
      if c == '\\' {
        MultiGoes(input, tomlNext, start, pos - 1, c);
        return MultilineStringEscape;
      }
      if c == '"' {
        var three := ThreeQuotes('"', true);
        if done { return Nil; }
        if three {
          esc := false;
          TextEnds(input, tomlNext, start, pos - 3);
          CloseMultiline(ItemMultilineString);
          r := PopV();
          return;
        }
        QuoteInside(InMulti, '"', input, tomlNext, start, pos - 1);
      } else {
        MultiGoes(input, tomlNext, start, pos - 1, c);
      }
      return MultilineString;
    }

    /** The closing quote has been read: emits the text before it and reads over it. */
    method CloseRaw() returns (r: State)
      requires Ready() && InString(stack, want) && nprev > 0 && start < pos && Readable(pos - 1)
      requires Covered(InRaw, input, tomlNext, start, pos - 1) && Is(input, pos - 1, '\'')
      modifies this
      ensures At(r) && Rank(r) == 0 && pos == old(pos) && start == pos
      ensures |old(stack)| > 0 && r == Last(old(stack)) && stack == Below(old(stack)) && |items| == |old(items)| + 1
      ensures Holds(items[|items| - 1], ItemRawString, old(start), old(pos) - 1)
    {
      hide InValue, InKey, InHeader, InName, InString, InEscape, InComment, NameAwaits, Understood, Remarked, Lexed, Lexeme, Covered, Tidy, ProgressOf, InsideMulti, Take, Rest, Slot, KeyWant, HeaderWant, NameWant, Back, Passed, Newlines, Orderly, PlaceOf, Rank, IsBareKeyChar;
      Backup();
      TextEnds(input, tomlNext, start, pos);
      ghost var was := want;
      StringTaken(stack, want, ItemRawString);
      Emit(ItemRawString);
      QuotesGo(input, tomlNext, start, '\'');
      var c := Next();
      Ignore();
      r := PopS(was);
    }

    method LexRawString() returns (r: State)
      requires At(RawString)
      modifies this
      ensures Ran(RawString, r)
      ensures done <==> !old(Readable(pos)) || IsNL(input[old(pos)].c)
      ensures !done ==> pos == old(pos) + 1
      ensures !done && input[old(pos)].c == '\'' ==>
        |old(stack)| > 0 && r == Last(old(stack)) && stack == Below(old(stack)) && start == pos
      ensures !done && input[old(pos)].c == '\'' ==>
        |items| == |old(items)| + 1 && Holds(items[|items| - 1], ItemRawString, old(start), old(pos))
      ensures !done && input[old(pos)].c != '\'' ==> r == RawString && stack == old(stack) && Kept()
    {
      hide InValue, InKey, InHeader, InName, InString, InEscape, InComment, NameAwaits, Understood, Remarked, Lexed, Lexeme, Covered, Tidy, ProgressOf, InsideMulti, Take, Rest, Slot, KeyWant, HeaderWant, NameWant, Back, Passed, Newlines, Orderly, PlaceOf, Rank, IsBareKeyChar;
      StringTable();
      var c := Next();
      if done { return Nil; }
      if c == EOF || IsNL(c) {
        Fail();
        return Nil;
      } else if c == '\'' {
        r := CloseRaw();
        return;
      }
      Goes(InRaw, InRaw, input, tomlNext, start, pos - 1, c);
      return RawString;
    }

    method LexMultilineRawString() returns (r: State)
      requires At(MultilineRawString)
      modifies this
      ensures Ran(MultilineRawString, r)
      ensures done <==>
        old(pos) == |input| || Broken(old(pos))
        || (Is(input, old(pos), '\'') && (QuotesBreak(old(pos), '\'') || TooMany(old(start), old(pos), '\'', false)))
      ensures !done && LastThree(input, old(pos), '\'') ==>
        |old(stack)| > 0 && r == Last(old(stack)) && stack == Below(old(stack)) && pos == start == old(pos) + 3
      ensures !done && LastThree(input, old(pos), '\'') ==>
        |items| == |old(items)| + 1 && Holds(items[|items| - 1], ItemRawMultilineString, old(start), old(pos))
      ensures !done && !LastThree(input, old(pos), '\'') ==>
        r == MultilineRawString && stack == old(stack) && pos == old(pos) + 1 && Kept()
    {
      hide InValue, InKey, InHeader, InName, InString, InEscape, InComment, NameAwaits, Understood, Remarked, Lexed, Lexeme, Covered, Tidy, ProgressOf, InsideMulti, Take, Rest, Slot, KeyWant, HeaderWant, NameWant, Back, Passed, Newlines, Orderly, PlaceOf, Rank, Readable, Broken, IsControl, IsBareKeyChar;
      StringTable();
      var c := Next();
      if done { return Nil; }
      if c == EOF {
        Fail();
        return Nil;
      }
      if c == '\'' {
        var three := ThreeQuotes('\'', false);
        if done { return Nil; }
        if three {
          TextEnds(input, tomlNext, start, pos - 3);
          CloseMultiline(ItemRawMultilineString);
          r := PopV();
          return;
        }
        QuoteInside(InMultiRaw, '\'', input, tomlNext, start, pos - 1);
      } else {
        Goes(InMultiRaw, InMultiRaw, input, tomlNext, start, pos - 1, c);
      }
      return MultilineRawString;
    }

    /** The last n code points read since start are all q; before them comes a backslash, if asked. */
    function Suffix(q: char, n: nat, slash: bool): bool
      reads this
      requires start <= pos <= |input|
    {
      pos - start >= n + (if slash then 1 else 0)
      && (forall k :: pos - n <= k < pos ==> input[k] == Rune(q))
      && (slash ==> input[pos - n - 1] == Rune('\\'))
    }

    lemma TooManyMeans(a: nat, k: nat, q: char, slashes: bool)
      ensures TooMany(a, k, q, slashes) ==> Three(input, k + 1, q)
    {
    }

    /** Three quotes have been read; the source asks how what has been read ends. */
    lemma FiveQuotes(q: char, slashes: bool)
      requires start <= pos - 3 && pos <= |input| && Three(input, pos - 3, q)
      ensures Is(input, pos, q) ==> (Suffix(q, 5, false) && !(slashes && Suffix(q, 5, true)) <==> TooMany(start, pos - 3, q, slashes))
      ensures !Is(input, pos, q) ==> !TooMany(start, pos - 3, q, slashes)
    {
      if Three(input, pos - 5, q) {
        assert forall k :: pos - 5 <= k < pos ==> Is(input, k, q);
      }
    }

    /** One quote has been read. With two more, this closes the string, unless yet another quote
        follows: then the first one belongs to the text, or there are six, which is an error. When
        it returns false exactly one quote stays read; when it returns true, three. */
    method ThreeQuotes(q: char, slashes: bool) returns (b: bool)
      requires Ready() && nprev > 0 && pos > start && IsQuote(q) && Is(input, pos - 1, q)
      modifies this`pos, this`line, this`nprev, this`atEOF, this`items, this`done
      ensures done ==> Stopped() && |items| == |old(items)| + 1
      ensures !done ==> Ready() && items == old(items) && pos == old(pos) + (if b then 2 else 0)
      ensures !done && b ==> nprev >= 3
      ensures !done ==> (b <==> LastThree(input, old(pos) - 1, q))
      ensures done <==> QuotesBreak(old(pos) - 1, q) || TooMany(start, old(pos) - 1, q, slashes)
    {
      hide Understood, Remarked, Lexed, Tidy, Newlines, Orderly, Readable, Broken, Suffix, TooMany;
      TooManyMeans(start, pos - 1, q, slashes);
      b := Accept(q);
      if done || !b { return; }
      b := Accept(q);
      if done { return; }
      if !b {
        Backup();
        return;
      }
      var next := Peek();
      if done { return; }
      FiveQuotes(q, slashes);
      if next == q {
        if Suffix(q, 5, false) && !(slashes && Suffix(q, 5, true)) {
          Fail();
          return;
        }
        Backup();
        Backup();
        b := false;
      }
    }

    /** Emits the text without the three quotes and reads over them. */
    method CloseMultiline(typ: Type)
      requires Ready() && nprev >= 3 && pos >= start + 3 && InValue(stack) && want == Slot(stack)
      requires (typ == ItemMultilineString || typ == ItemRawMultilineString) && Lexeme(input, tomlNext, false, typ, start, pos - 3)
      modifies this`pos, this`line, this`nprev, this`atEOF, this`items, this`done, this`start, this`want
      ensures Ready() && |items| == |old(items)| + 1 && pos == old(pos) && start == pos && want == Rest(stack)
      ensures Holds(items[|items| - 1], typ, old(start), pos - 3)
    {
      hide InValue, InKey, InHeader, InName, InString, InEscape, InComment, NameAwaits, Understood, Remarked, Lexed, Lexeme, Covered, Tidy, ProgressOf, InsideMulti, Take, Rest, Slot, KeyWant, HeaderWant, NameWant, Back, Passed, Newlines, Orderly, Readable, Broken;
      ValueTaken(stack, typ);
      Backup();
      Backup();
      Backup();
      ClosingThree(input, tomlNext, typ, start, pos);
      Emit(typ);
      for k := 0 to 3
        invariant Ready() && |items| == |old(items)| + 1 && pos == old(pos) - 3 + k && want == Rest(stack)
        invariant Holds(items[|items| - 1], typ, old(start), old(pos) - 3)
        invariant Three(input, start, if typ == ItemMultilineString then '"' else '\'')
        invariant start == old(pos) - 3 && Covered(Loose, input, tomlNext, start, start + 3)
      {
        PlainReads(pos);
        var c := Next();
      }
      Ignore();
    }

    method LexMultilineStringEscape() returns (r: State)
      requires At(MultilineStringEscape)
      modifies this
      ensures Ran(MultilineStringEscape, r)
      ensures !tomlNext ==>
        (done <==> !old(Readable(pos)) || !(StartsEscape(input[old(pos)].c) || IsNL(input[old(pos)].c)))
      ensures !done ==> pos == old(pos) + 1 && Kept()
      ensures !done && !tomlNext && input[old(pos)].c != 'u' && input[old(pos)].c != 'U' ==>
        r == MultilineString && stack == old(stack)
      ensures !done && !tomlNext && (input[old(pos)].c == 'u' || input[old(pos)].c == 'U') ==>
        r == (if input[old(pos)].c == 'u' then ShortUnicodeEscape else LongUnicodeEscape) && stack == old(stack) + [MultilineString]
    {
      hide InValue, InKey, InHeader, InName, InString, InEscape, InComment, NameAwaits, Understood, Remarked, Lexed, Lexeme, Covered, Tidy, ProgressOf, InsideMulti, Take, Rest, Slot, KeyWant, HeaderWant, NameWant, Back, Passed, Newlines, Orderly, PlaceOf, Rank, IsBareKeyChar;
      StringTable();
      var c := Next();
      if done { return Nil; }
      if IsNL(c) {
        Goes(InMultiSlash, InMulti, input, tomlNext, start, pos - 1, c);
        return MultilineString;
      }
      Backup();
      ghost var was := stack;
      PushEscape(stack, MultilineString, want);
      Push(MultilineString);
      PushedMulti(was);
      r := LexStringEscape();
    }

    method LexStringEscape() returns (r: State)
      requires At(StringEscape)
      modifies this
      ensures Ran(StringEscape, r)
      ensures !tomlNext ==> (done <==> !old(Readable(pos)) || !StartsEscape(input[old(pos)].c))
      ensures !done ==> pos == old(pos) + 1 && esc && Kept()
      ensures !done && !tomlNext && input[old(pos)].c != 'u' && input[old(pos)].c != 'U' ==>
        |old(stack)| > 0 && r == Last(old(stack)) && stack == Below(old(stack))
      ensures !done && !tomlNext && input[old(pos)].c == 'u' ==> r == ShortUnicodeEscape && stack == old(stack)
      ensures !done && !tomlNext && input[old(pos)].c == 'U' ==> r == LongUnicodeEscape && stack == old(stack)
    {
      hide InValue, InKey, InHeader, InName, InString, InEscape, InComment, NameAwaits, Understood, Remarked, Lexed, Lexeme, Covered, Tidy, ProgressOf, InsideMulti, Take, Rest, Slot, KeyWant, HeaderWant, NameWant, Back, Passed, Newlines, Orderly, PlaceOf, Rank, IsBareKeyChar;
      StringTable();
      esc := true;
      var c := Next();
      if done { return Nil; }
      if (c == 'e' && tomlNext) || c == 'b' || c == 't' || c == 'n' || c == 'f' || c == 'r' || c == '"' || c == ' ' || c == '\t'
        || c == '\\'
      {
        EscapeGoes(stack, input, tomlNext, start, pos - 1, c);
        r := PopE();
        return;
      } else if c == 'x' && tomlNext {
        EscapeGoes(stack, input, tomlNext, start, pos - 1, c);
        return HexEscape;
      } else if c == 'u' {
        EscapeGoes(stack, input, tomlNext, start, pos - 1, c);
        return ShortUnicodeEscape;
      } else if c == 'U' {
        EscapeGoes(stack, input, tomlNext, start, pos - 1, c);
        return LongUnicodeEscape;
      }
      Fail();
      return Nil;
    }

    /** n hexadecimal digits, then back to the string. */
    method HexDigits(n: nat) returns (r: State)
      requires Ready() && InEscape(stack, want) && n > 0
      requires Covered(if InsideMulti(stack) then InMulti else InBasic, input, tomlNext, start, pos)
      modifies this
      ensures |items| <= |old(items)| + 2
      ensures if done then Stopped() else At(r) && pos > old(pos)
      ensures done <==> !old(HexAhead(pos, n))
      ensures !done ==> pos == old(pos) + n && |old(stack)| > 0 && r == Last(old(stack)) && stack == Below(old(stack)) && Kept() && esc == old(esc)
    {
      hide InValue, InKey, InHeader, InName, InString, InEscape, InComment, NameAwaits, Understood, Remarked, Lexed, Lexeme, Covered, Tidy, ProgressOf, InsideMulti, Take, Rest, Slot, KeyWant, HeaderWant, NameWant, Back, Passed, Newlines, Orderly, PlaceOf, Rank, IsBareKeyChar;
      for i := 0 to n
        invariant Ready() && stack == old(stack) && Kept() && esc == old(esc) && pos == old(pos) + i
        invariant Covered(if InsideMulti(stack) then InMulti else InBasic, input, tomlNext, start, pos)
        invariant forall k :: old(pos) <= k < old(pos) + i ==> k < |input| && input[k].Rune? && IsHex(input[k].c)
      {
        var c := Next();
        if done { return Nil; }
        if !IsHex(c) {
          Fail();
          return Nil;
        }
        DigitGoes(stack, input, tomlNext, start, pos - 1, c);
      }
      r := PopE();
    }

    method LexHexEscape() returns (r: State)
      requires At(HexEscape)
      modifies this
      ensures Ran(HexEscape, r)
      ensures done <==> !old(HexAhead(pos, 2))
      ensures !done ==> pos == old(pos) + 2 && |old(stack)| > 0 && r == Last(old(stack)) && stack == Below(old(stack)) && Kept() && esc == old(esc)
    {
      hide InValue, InKey, InHeader, InName, InString, InEscape, InComment, NameAwaits, Understood, Remarked, Lexed, Lexeme, Covered, Tidy, ProgressOf, InsideMulti, Take, Rest, Slot, KeyWant, HeaderWant, NameWant, Back, Passed, Newlines, Orderly, PlaceOf, Rank, Readable, Broken, IsControl, IsBareKeyChar;
      StringTable();
      r := HexDigits(2);
    }

    method LexShortUnicodeEscape() returns (r: State)
      requires At(ShortUnicodeEscape)
      modifies this
      ensures Ran(ShortUnicodeEscape, r)
      ensures done <==> !old(HexAhead(pos, 4))
      ensures !done ==> pos == old(pos) + 4 && |old(stack)| > 0 && r == Last(old(stack)) && stack == Below(old(stack)) && Kept() && esc == old(esc)
    {
      hide InValue, InKey, InHeader, InName, InString, InEscape, InComment, NameAwaits, Understood, Remarked, Lexed, Lexeme, Covered, Tidy, ProgressOf, InsideMulti, Take, Rest, Slot, KeyWant, HeaderWant, NameWant, Back, Passed, Newlines, Orderly, PlaceOf, Rank, Readable, Broken, IsControl, IsBareKeyChar;
      StringTable();
      r := HexDigits(4);
    }

    method LexLongUnicodeEscape() returns (r: State)
      requires At(LongUnicodeEscape)
      modifies this
      ensures Ran(LongUnicodeEscape, r)
      ensures done <==> !old(HexAhead(pos, 8))
      ensures !done ==> pos == old(pos) + 8 && |old(stack)| > 0 && r == Last(old(stack)) && stack == Below(old(stack)) && Kept() && esc == old(esc)
    {
      hide InValue, InKey, InHeader, InName, InString, InEscape, InComment, NameAwaits, Understood, Remarked, Lexed, Lexeme, Covered, Tidy, ProgressOf, InsideMulti, Take, Rest, Slot, KeyWant, HeaderWant, NameWant, Back, Passed, Newlines, Orderly, PlaceOf, Rank, Readable, Broken, IsControl, IsBareKeyChar;
      StringTable();
      r := HexDigits(8);
    }

    method LexNumberOrDateStart() returns (r: State)
      requires At(NumberOrDateStart)
      modifies this
      ensures Ran(NumberOrDateStart, r)
      ensures done <==> !DigitAt(input, old(pos))
    {
      hide Fits, InValue, InKey, InHeader, InName, InString, InEscape, InComment, NameAwaits, Understood, Remarked, Lexed, Lexeme, Covered, Tidy, ProgressOf, InsideMulti, Take, Rest, Slot, KeyWant, HeaderWant, NameWant, Back, Passed, Newlines, Orderly, PlaceOf, Rank, Readable, Broken, IsControl, IsBareKeyChar;
      NumberTable();
      ValueShape(stack, want);
      PlainReads(pos);
      var c := Next();
      if done { return Nil; }
      if c == '0' {
        Goes(Fresh, Zero, input, tomlNext, start, pos - 1, c);
        return BaseNumberOrDate;
      }
      if !IsDigit(c) {
        Fail();
        return Nil;
      }
      Goes(Fresh, InDigits, input, tomlNext, start, pos - 1, c);
      return NumberOrDate;
    }

    method LexNumberOrDate() returns (r: State)
      requires At(NumberOrDate)
      modifies this
      ensures Ran(NumberOrDate, r)
      ensures done <==> Broken(old(pos))
    {
      hide Fits, InValue, InKey, InHeader, InName, InString, InEscape, InComment, NameAwaits, Understood, Remarked, Lexed, Lexeme, Covered, Tidy, ProgressOf, InsideMulti, Take, Rest, Slot, KeyWant, HeaderWant, NameWant, Back, Passed, Newlines, Orderly, PlaceOf, Rank, Readable, Broken, IsControl, IsBareKeyChar;
      NumberTable();
      ValueShape(stack, want);
      var c := Next();
      if done { return Nil; }
      if IsDigit(c) {
        Goes(InDigits, InDigits, input, tomlNext, start, pos - 1, c);
        return NumberOrDate;
      } else if c == '-' || c == ':' {
        Goes(InDigits, InDate, input, tomlNext, start, pos - 1, c);
        return Datetime;
      } else if c == '_' {
        Goes(InDigits, InDecimal, input, tomlNext, start, pos - 1, c);
        return DecimalNumber;
      } else if c == '.' || c == 'e' || c == 'E' {
        Goes(InDigits, InFloat, input, tomlNext, start, pos - 1, c);
        return Float;
      }
      Backup();
      Ended(InDigits, ItemInteger, input, tomlNext, start, pos, c);
      r := EmitValue(ItemInteger);
    }

    method LexDatetime() returns (r: State)
      requires At(Datetime)
      modifies this
      ensures Ran(Datetime, r)
      ensures done <==> Broken(old(pos))
    {
      hide Fits, InValue, InKey, InHeader, InName, InString, InEscape, InComment, NameAwaits, Understood, Remarked, Lexed, Lexeme, Covered, Tidy, ProgressOf, InsideMulti, Take, Rest, Slot, KeyWant, HeaderWant, NameWant, Back, Passed, Newlines, Orderly, PlaceOf, Rank, Readable, Broken, IsControl, IsBareKeyChar;
      NumberTable();
      ValueShape(stack, want);
      var c := Next();
      if done { return Nil; }
      if IsDigit(c) || c == '-' || c == ':' || c == 'T' || c == 't' || c == ' ' || c == '.' || c == 'Z' || c == 'z' || c == '+' {
        Goes(InDate, InDate, input, tomlNext, start, pos - 1, c);
        return Datetime;
      }
      Backup();
      Ended(InDate, ItemDatetime, input, tomlNext, start, pos, c);
      r := EmitValue(ItemDatetime);
    }

    method LexHexInteger() returns (r: State)
      requires At(HexInteger)
      modifies this
      ensures Ran(HexInteger, r)
      ensures done <==> Broken(old(pos))
    {
      hide Fits, InValue, InKey, InHeader, InName, InString, InEscape, InComment, NameAwaits, Understood, Remarked, Lexed, Lexeme, Covered, Tidy, ProgressOf, InsideMulti, Take, Rest, Slot, KeyWant, HeaderWant, NameWant, Back, Passed, Newlines, Orderly, PlaceOf, Rank, Readable, Broken, IsControl, IsBareKeyChar;
      BaseTable();
      ValueShape(stack, want);
      var c := Next();
      if done { return Nil; }
      if IsHex(c) || c == '_' {
        Goes(InHex, InHex, input, tomlNext, start, pos - 1, c);
        return HexInteger;
      }
      Backup();
      Ended(InHex, ItemInteger, input, tomlNext, start, pos, c);
      r := EmitValue(ItemInteger);
    }

    method LexOctalInteger() returns (r: State)
      requires At(OctalInteger)
      modifies this
      ensures Ran(OctalInteger, r)
      ensures done <==> Broken(old(pos))
    {
      hide Fits, InValue, InKey, InHeader, InName, InString, InEscape, InComment, NameAwaits, Understood, Remarked, Lexed, Lexeme, Covered, Tidy, ProgressOf, InsideMulti, Take, Rest, Slot, KeyWant, HeaderWant, NameWant, Back, Passed, Newlines, Orderly, PlaceOf, Rank, Readable, Broken, IsControl, IsBareKeyChar;
      BaseTable();
      ValueShape(stack, want);
      var c := Next();
      if done { return Nil; }
      if IsOctal(c) || c == '_' {
        Goes(InOctal, InOctal, input, tomlNext, start, pos - 1, c);
        return OctalInteger;
      }
      Backup();
      Ended(InOctal, ItemInteger, input, tomlNext, start, pos, c);
      r := EmitValue(ItemInteger);
    }

    method LexBinaryInteger() returns (r: State)
      requires At(BinaryInteger)
      modifies this
      ensures Ran(BinaryInteger, r)
      ensures done <==> Broken(old(pos))
    {
      hide Fits, InValue, InKey, InHeader, InName, InString, InEscape, InComment, NameAwaits, Understood, Remarked, Lexed, Lexeme, Covered, Tidy, ProgressOf, InsideMulti, Take, Rest, Slot, KeyWant, HeaderWant, NameWant, Back, Passed, Newlines, Orderly, PlaceOf, Rank, Readable, Broken, IsControl, IsBareKeyChar;
      BaseTable();
      ValueShape(stack, want);
      var c := Next();
      if done { return Nil; }
      if IsBinary(c) || c == '_' {
        Goes(InBinary, InBinary, input, tomlNext, start, pos - 1, c);
        return BinaryInteger;
      }
      Backup();
      Ended(InBinary, ItemInteger, input, tomlNext, start, pos, c);
      r := EmitValue(ItemInteger);
    }

    method LexDecimalNumber() returns (r: State)
      requires At(DecimalNumber)
      modifies this
      ensures Ran(DecimalNumber, r)
      ensures done <==> Broken(old(pos))
    {
      hide Fits, InValue, InKey, InHeader, InName, InString, InEscape, InComment, NameAwaits, Understood, Remarked, Lexed, Lexeme, Covered, Tidy, ProgressOf, InsideMulti, Take, Rest, Slot, KeyWant, HeaderWant, NameWant, Back, Passed, Newlines, Orderly, PlaceOf, Rank, Readable, Broken, IsControl, IsBareKeyChar;
      NumberTable();
      ValueShape(stack, want);
      var c := Next();
      if done { return Nil; }
      if IsDigit(c) || c == '_' {
        Goes(InDecimal, InDecimal, input, tomlNext, start, pos - 1, c);
        return DecimalNumber;
      } else if c == '.' || c == 'e' || c == 'E' {
        Goes(InDecimal, InFloat, input, tomlNext, start, pos - 1, c);
        return Float;
      }
      Backup();
      Ended(InDecimal, ItemInteger, input, tomlNext, start, pos, c);
      r := EmitValue(ItemInteger);
    }

    /** What follows a sign, if it is no word; its first character c has been read. */
    method SignedNumber(c: char) returns (r: State)
      requires Going() && (atEOF <==> c == EOF) && InValue(stack) && want == Slot(stack)
      requires if atEOF then pos == |input| else pos > start && Covered(Sign, input, tomlNext, start, pos - 1) && Is(input, pos - 1, c)
      modifies this`pos, this`line, this`nprev, this`atEOF, this`items, this`done
      ensures |items| <= |old(items)| + 1
      ensures if done then Stopped() else At(r) && r == DecimalNumber && pos == old(pos)
      ensures done <==> c == EOF || !SignedDigit(old(pos) - 1)
    {
      hide Fits, InValue, InKey, InHeader, InName, InString, InEscape, InComment, NameAwaits, Understood, Remarked, Lexed, Lexeme, Covered, Tidy, ProgressOf, InsideMulti, Take, Rest, Slot, KeyWant, HeaderWant, NameWant, Back, Passed, Newlines, Orderly, PlaceOf, Rank, Readable, IsControl, IsBareKeyChar;
      DecimalTable();
      ValueShape(stack, want);
      if c == '0' {
        var b := BaseAhead();
        if done { return Nil; }
        if b {
          Fail();
          return Nil;
        }
      } else if c == '.' {
        Fail();
        return Nil;
      }
      if IsDigit(c) {
        SignGoes(input, tomlNext, start, pos - 1, c);
        return DecimalNumber;
      }
      Fail();
      return Nil;
    }

    method LexDecimalNumberStart() returns (r: State)
      requires At(DecimalNumberStart)
      modifies this
      ensures Ran(DecimalNumberStart, r)
      ensures done <==> !(SignedDigit(old(pos)) || SignedInf(old(pos)))
    {
      hide Fits, InValue, InKey, InHeader, InName, InString, InEscape, InComment, NameAwaits, Understood, Remarked, Lexed, Lexeme, Covered, Tidy, ProgressOf, InsideMulti, Take, Rest, Slot, KeyWant, HeaderWant, NameWant, Back, Passed, Newlines, Orderly, PlaceOf, Rank, Readable, IsControl, IsBareKeyChar;
      DecimalTable();
      ValueShape(stack, want);
      SignMeans(input, tomlNext, start, pos);
      PlainReads(pos + 1);
      PlainReads(pos);
      var c := Next();
      if done { return Nil; }
      if c == 'i' || c == 'n' {
        r := SignedInfOrNan(c);
        return;
      }
      r := SignedNumber(c);
    }

    /** The letter of a base comes next. */
    method BaseAhead() returns (b: bool)
      requires Ready()
      modifies this`pos, this`line, this`nprev, this`atEOF, this`items, this`done
      ensures done ==> Stopped() && |items| == |old(items)| + 1
      ensures !done ==> Ready() && items == old(items) && pos == old(pos)
      ensures done <==> Broken(old(pos))
      ensures !done ==> (b <==> IsOneOf(input, old(pos), "xob"))
    {
      hide Understood, Remarked, Lexed, Tidy, Newlines, Orderly, Readable;
      var p := Peek();
      b := p == 'b' || p == 'o' || p == 'x';
    }

    /** inf or nan behind a sign; its first letter has been read. */
    method SignedInfOrNan(c: char) returns (r: State)
      requires Ready() && InValue(stack) && want == Slot(stack) && (c == 'i' || c == 'n')
      requires pos == start + 2 && IsOneOf(input, start, "+-") && Is(input, start + 1, c)
      modifies this
      ensures |items| <= |old(items)| + 1
      ensures if done then Stopped() else At(r) && pos >= old(pos)
      ensures done <==> !SignedInf(old(pos) - 1)
    {
      hide InValue, InKey, InHeader, InName, InString, InEscape, InComment, NameAwaits, Understood, Remarked, Lexed, Lexeme, Covered, Tidy, ProgressOf, InsideMulti, Take, Rest, Slot, KeyWant, HeaderWant, NameWant, Back, Passed, Newlines, Orderly, PlaceOf, Rank, Readable, Broken, IsControl, IsBareKeyChar;
      PlainReads(pos);
      PlainReads(pos + 1);
      var b := Accept(if c == 'i' then 'n' else 'a');
      if done { return Nil; }
      if b {
        b := Accept(if c == 'i' then 'f' else 'n');
        if done { return Nil; }
      }
      if !b {
        Fail();
        return Nil;
      }
      SignedWordIs(input, tomlNext, start, pos, c);
      WordIs(input, tomlNext, start, pos);
      r := EmitValue(ItemFloat);
    }

    method LexBaseNumberOrDate() returns (r: State)
      requires At(BaseNumberOrDate)
      modifies this
      ensures Ran(BaseNumberOrDate, r)
      ensures done <==> Broken(old(pos)) || (IsOneOf(input, old(pos), "xob") && !BaseDigit(input, old(pos)))
    {
      hide Fits, InValue, InKey, InHeader, InName, InString, InEscape, InComment, NameAwaits, Understood, Remarked, Lexed, Lexeme, Covered, Tidy, ProgressOf, InsideMulti, Take, Rest, Slot, KeyWant, HeaderWant, NameWant, Back, Passed, Newlines, Orderly, PlaceOf, Rank, Readable, Broken, IsControl, IsBareKeyChar;
      NumberTable();
      ValueShape(stack, want);
      ZeroMeans(input, tomlNext, start, pos);
      var c := Next();
      if done { return Nil; }
      if IsDigit(c) {
        ZeroGoes(input, tomlNext, start, pos - 1, c);
        return NumberOrDate;
      } else if c == '_' {
        ZeroGoes(input, tomlNext, start, pos - 1, c);
        return DecimalNumber;
      } else if c == '.' || c == 'e' || c == 'E' {
        ZeroGoes(input, tomlNext, start, pos - 1, c);
        return Float;
      } else if c == 'b' || c == 'o' || c == 'x' {
        r := Based(c);
        return;
      }
      Backup();
      Ended(Zero, ItemInteger, input, tomlNext, start, pos, c);
      r := EmitValue(ItemInteger);
    }

    /** The letter behind a leading zero has been read. */
    method Based(c: char) returns (r: State)
      requires Ready() && InValue(stack) && want == Slot(stack) && (c == 'b' || c == 'o' || c == 'x')
      requires pos == start + 2 && Covered(Zero, input, tomlNext, start, start + 1) && Is(input, start + 1, c)
      modifies this`pos, this`line, this`nprev, this`atEOF, this`items, this`done
      ensures |items| <= |old(items)| + 1
      ensures if done then Stopped() else At(r) && pos == old(pos)
      ensures done <==> !BaseDigit(input, old(pos) - 1)
    {
      hide Fits, InValue, InKey, InHeader, InName, InString, InEscape, InComment, NameAwaits, Understood, Remarked, Lexed, Lexeme, Covered, Tidy, ProgressOf, InsideMulti, Take, Rest, Slot, KeyWant, HeaderWant, NameWant, Back, Passed, Newlines, Orderly, PlaceOf, Rank, Readable, Broken, IsControl, IsBareKeyChar;
      BaseTable();
      ValueShape(stack, want);
      PlainReads(pos);
      var d := Peek();
      if done { return Nil; }
      if !(if c == 'b' then IsBinary(d) else if c == 'o' then IsOctal(d) else IsHex(d)) {
        Fail();
        return Nil;
      }
      BasedBegins(input, tomlNext, start, c, d);
      return if c == 'b' then BinaryInteger else if c == 'o' then OctalInteger else HexInteger;
    }

    method LexFloat() returns (r: State)
      requires At(Float)
      modifies this
      ensures Ran(Float, r)
      ensures done <==> Broken(old(pos))
    {
      hide Fits, InValue, InKey, InHeader, InName, InString, InEscape, InComment, NameAwaits, Understood, Remarked, Lexed, Lexeme, Covered, Tidy, ProgressOf, InsideMulti, Take, Rest, Slot, KeyWant, HeaderWant, NameWant, Back, Passed, Newlines, Orderly, PlaceOf, Rank, Readable, Broken, IsControl, IsBareKeyChar;
      NumberTable();
      ValueShape(stack, want);
      var c := Next();
      if done { return Nil; }
      if IsDigit(c) || c == '_' || c == '.' || c == '-' || c == '+' || c == 'e' || c == 'E' {
        Goes(InFloat, InFloat, input, tomlNext, start, pos - 1, c);
        return Float;
      }
      Backup();
      Ended(InFloat, ItemFloat, input, tomlNext, start, pos, c);
      r := EmitValue(ItemFloat);
    }

    /** A word, as far as letters go. */
    method Letters() returns (word: string)
      requires Ready()
      modifies this`pos, this`line, this`nprev, this`atEOF, this`items, this`done
      ensures done ==> Stopped() && |items| == |old(items)| + 1
      ensures !done ==> Ready() && items == old(items) && pos >= old(pos) && Spells(input, old(pos), pos, word)
    {
      hide Spells, InValue, InKey, InHeader, InName, InString, InEscape, InComment, NameAwaits, Understood, Remarked, Lexed, Lexeme, Covered, Tidy, ProgressOf, InsideMulti, Take, Rest, Slot, KeyWant, HeaderWant, NameWant, Back, Passed, Newlines, Orderly, PlaceOf, Rank, Readable, Broken, IsControl, IsBareKeyChar;
      word := "";
      SpellsNothing(input, pos);
      while true
        invariant Ready() && items == old(items) && pos >= old(pos) && Spells(input, old(pos), pos, word)
        decreases |input| - pos
      {
        var c := Next();
        if done { return; }
        if !isLetter(c) {
          Backup();
          return;
        }
        SpellsNext(input, old(pos), pos - 1, word, c);
        word := word + [c];
      }
    }

    method LexBool() returns (r: State)
      requires At(Bool)
      modifies this
      ensures Ran(Bool, r)
    {
      hide Fits, Spells, InValue, InKey, InHeader, InName, InString, InEscape, InComment, NameAwaits, Understood, Remarked, Lexed, Lexeme, Covered, Tidy, ProgressOf, InsideMulti, Take, Rest, Slot, KeyWant, HeaderWant, NameWant, Back, Passed, Newlines, Orderly, PlaceOf, Rank, Readable, Broken, IsControl, IsBareKeyChar;
      BoolTable();
      ValueShape(stack, want);
      var word := Letters();
      if done { return Nil; }
      if word == "true" || word == "false" {
        BoolIs(input, tomlNext, start, old(pos), pos);
        r := EmitValue(ItemBool);
        return;
      }
      Fail();
      return Nil;
    }

    method LexCommentStart() returns (r: State)
      requires At(CommentStart)
      modifies this
      ensures Ran(CommentStart, r)
      ensures !done && r == Comment && stack == old(stack) && pos == old(pos)
    {
      hide InValue, InKey, InHeader, InName, InString, InEscape, InComment, NameAwaits, Understood, Remarked, Lexed, Lexeme, Covered, Tidy, ProgressOf, InsideMulti, Take, Rest, Slot, KeyWant, HeaderWant, NameWant, Back, Passed, Newlines, Orderly, PlaceOf, Rank, Readable, Broken, IsControl, IsBareKeyChar;
      RemarkTable();
      BehindMeans(BehindHash, input, tomlNext, start, pos);
      Ignore();
      BehindMarks(input, tomlNext, start);
      TextBegins(input, tomlNext, start);
      CommentTaken(stack);
      Emit(ItemCommentStart);
      return Comment;
    }

    method LexComment() returns (r: State)
      requires At(Comment)
      modifies this
      ensures Ran(Comment, r)
      ensures done <==> Broken(old(pos))
    {
      hide InValue, InKey, InHeader, InName, InString, InEscape, InComment, NameAwaits, Understood, Remarked, Lexed, Lexeme, Covered, Tidy, ProgressOf, InsideMulti, Take, Rest, Slot, KeyWant, HeaderWant, NameWant, Back, Passed, Newlines, Orderly, PlaceOf, Rank, Readable, Broken, IsControl, IsBareKeyChar;
      RemarkTable();
      var c := Next();
      if done { return Nil; }
      if IsNL(c) || c == EOF {
        Backup();
        CommentTaken(stack);
        RemarkEnds(input, tomlNext, start, pos, c);
        RemarkIsOne(items, Back(stack));
        Emit(ItemText);
        r := PopC();
        return;
      }
      Goes(InLine, InLine, input, tomlNext, start, pos - 1, c);
      return Comment;
    }

    /** One state function. */
    method Step(s: State) returns (r: State)
      requires At(s)
      modifies this
      ensures Ran(s, r)
    {
      hide InValue, InKey, InHeader, InName, InString, InEscape, InComment, NameAwaits, Understood, Remarked, Lexed, Lexeme, Covered, Tidy, ProgressOf, InsideMulti, Take, Rest, Slot, KeyWant, HeaderWant, NameWant, Back, Passed, Newlines, Orderly, PlaceOf, Rank, Readable, Broken, IsControl, IsBareKeyChar;
      Places();
      match s {
        case Top => r := LexTop();
        case TopEnd => r := LexTopEnd();
        case TableStart => r := LexTableStart();
        case TableEnd => r := LexTableEnd();
        case ArrayTableEnd => r := LexArrayTableEnd();
        case TableNameStart => r := LexTableNameStart();
        case TableNameEnd => r := LexTableNameEnd();
        case BareName => r := LexBareName();
        case QuotedName => r := LexQuotedName();
        case KeyStart => r := LexKeyStart();
        case KeyNameStart => r := LexKeyNameStart();
        case KeyEnd => r := LexKeyEnd();
        case Value => r := LexValue();
        case ArrayValue => r := LexArrayValue();
        case ArrayValueEnd => r := LexArrayValueEnd();
        case ArrayEnd => r := LexArrayEnd();
        case InlineTableValue => r := LexInlineTableValue();
        case InlineTableValueEnd => r := LexInlineTableValueEnd();
        case InlineTableEnd => r := LexInlineTableEnd();
        case String => r := LexString();
        case MultilineString => r := LexMultilineString();
        case RawString => r := LexRawString();
        case MultilineRawString => r := LexMultilineRawString();
        case MultilineStringEscape => r := LexMultilineStringEscape();
        case StringEscape => r := LexStringEscape();
        case HexEscape => r := LexHexEscape();
        case ShortUnicodeEscape => r := LexShortUnicodeEscape();
        case LongUnicodeEscape => r := LexLongUnicodeEscape();
        case NumberOrDateStart => r := LexNumberOrDateStart();
        case NumberOrDate => r := LexNumberOrDate();
        case Datetime => r := LexDatetime();
        case HexInteger => r := LexHexInteger();
        case OctalInteger => r := LexOctalInteger();
        case BinaryInteger => r := LexBinaryInteger();
        case DecimalNumber => r := LexDecimalNumber();
        case DecimalNumberStart => r := LexDecimalNumberStart();
        case BaseNumberOrDate => r := LexBaseNumberOrDate();
        case Float => r := LexFloat();
        case Bool => r := LexBool();
        case CommentStart => r := LexCommentStart();
        case Comment => r := LexComment();
        case Nil => assert false;
      }
    }

    /** The whole run: from lexTop until an item of type EOF or Error. It always ends, with exactly
        one such item, which is the last. */
    method Run()
      requires Ready() && stack == [] && items == [] && want == [TopItems] && start == pos
      modifies this
      ensures Stopped()
    {
      hide Newlines, Orderly, Rank, Understood, Remarked, Lexed, Tidy, PlaceOf, ProgressOf, Covered;
      TopTable();
      Settled(input, tomlNext, start);
      var s := Top;
      while !done
        invariant if done then Stopped() else At(s)
        decreases !done, |input| - pos, Rank(s)
      {
        s := Step(s);
      }
    }
  }

  lemma WordLeft(input: seq<Unit>, tomlNext: bool, a: nat, p: nat)
    requires a == p || (a < p && (Is(input, p, 'n') || Is(input, p, 'a')))
    ensures Covered(InWord, input, tomlNext, a, p)
  {
  }

  lemma SignedWordIs(input: seq<Unit>, tomlNext: bool, a: nat, b: nat, c: char)
    requires IsOneOf(input, a, "+-") && b == a + 4 && Is(input, a + 1, c)
    requires (c == 'i' && Is(input, a + 2, 'n') && Is(input, a + 3, 'f')) || (c == 'n' && Is(input, a + 2, 'a') && Is(input, a + 3, 'n'))
    ensures SignedWord(input, a, b)
  {
  }

  lemma PushedString(stack: seq<State>)
    ensures !InsideMulti(stack + [String])
  {
  }

  lemma PushedMulti(stack: seq<State>)
    ensures InsideMulti(stack + [MultilineString])
  {
  }

  /** The character behind a backslash, whatever it is. */
  lemma EscapeGoes(stack: seq<State>, input: seq<Unit>, tomlNext: bool, a: nat, p: nat, r: char)
    requires Covered(Resolve(Slash, InsideMulti(stack)), input, tomlNext, a, p) && Is(input, p, r)
    ensures Covered(if InsideMulti(stack) then InMulti else InBasic, input, tomlNext, a, p + 1)
  {
    hide Covered;
    if InsideMulti(stack) {
      Goes(InMultiSlash, InMulti, input, tomlNext, a, p, r);
    } else {
      Goes(BasicSlash, InBasic, input, tomlNext, a, p, r);
    }
  }

  lemma DigitGoes(stack: seq<State>, input: seq<Unit>, tomlNext: bool, a: nat, p: nat, r: char)
    requires Covered(if InsideMulti(stack) then InMulti else InBasic, input, tomlNext, a, p) && Is(input, p, r) && IsHex(r)
    ensures Covered(if InsideMulti(stack) then InMulti else InBasic, input, tomlNext, a, p + 1)
  {
    hide Covered;
    if InsideMulti(stack) {
      Goes(InMulti, InMulti, input, tomlNext, a, p, r);
    } else {
      Goes(InBasic, InBasic, input, tomlNext, a, p, r);
    }
  }

  lemma NameIsString(stack: seq<State>, want: seq<Symbol>)
    requires NameAwaits(stack, want)
    ensures InString(stack, want)
  {
  }

  lemma NameAwaited(stack: seq<State>, want: seq<Symbol>)
    requires NameAwaits(stack, want)
    ensures InName(stack)
  {
  }

  lemma ValueIsString(stack: seq<State>)
    requires InValue(stack)
    ensures InString(stack, Slot(stack))
  {
  }

  lemma KeyIsValue(stack: seq<State>)
    requires InKey(stack)
    ensures InValue(stack)
  {
  }

  lemma NameGoesOn(stack: seq<State>, back: State, want: seq<Symbol>)
    requires (Fits(AtKeyName, stack, want) && back == KeyEnd) || (Fits(AtHeader, stack, want) && back == TableNameEnd)
    ensures NameAwaits(stack + [back], want)
  {
    hide InName, InValue, InHeader, NameWant, KeyWant, HeaderWant, Rest;
    PushName(stack, back);
  }
}
