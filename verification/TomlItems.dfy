/** The items of the TOML lexer (lex.go) and the language in which the parser reads them (parse.go):
    what the parser still expects is a stack of symbols, and every item takes the innermost one
    further. An item it would call a bug is Unexpected. */
module TomlItems {

  datatype Type = ItemError | ItemEOF | ItemText | ItemString | ItemStringEsc | ItemRawString | ItemMultilineString
    | ItemRawMultilineString | ItemBool | ItemInteger | ItemFloat | ItemDatetime | ItemArray | ItemArrayEnd | ItemTableStart
    | ItemTableEnd | ItemArrayTableStart | ItemArrayTableEnd | ItemKeyStart | ItemKeyEnd | ItemCommentStart
    | ItemInlineTableStart | ItemInlineTableEnd

  datatype Item = Item(typ: Type, start: nat, end: nat, line: int)

  predicate IsText(t: Type)
  {
    t.ItemString? || t.ItemStringEsc? || t.ItemRawString? || t.ItemMultilineString? || t.ItemRawMultilineString?
  }

  predicate Final(t: Type) { t.ItemEOF? || t.ItemError? }

  /** One final item, the last. */
  predicate Closed(items: seq<Item>)
  {
    |items| > 0 && Final(items[|items| - 1].typ) && forall i :: 0 <= i < |items| - 1 ==> !Final(items[i].typ)
  }

  /** Values that are one item. */
  predicate IsScalar(t: Type) { IsText(t) || t.ItemBool? || t.ItemInteger? || t.ItemFloat? || t.ItemDatetime? }

  /** Parts of names. */
  predicate IsName(t: Type) { t.ItemText? || IsText(t) }

  /** Things to come: items at the top level, the text of a comment, the parts of a name up to its end
      (the first of which may still be missing), a value, elements of an array, pairs of an inline table. */
  datatype Symbol = TopItems | CommentText | Parts(end: Type, some: bool) | OneValue | Elements | Fields

  datatype Await = Await(symbols: seq<Symbol>) | Unexpected

  /** What is left of a symbol after an item. */
  function After(s: Symbol, t: Type): Await
  {
    match s
    case TopItems =>
      if t.ItemEOF? then Await([TopItems])
      else if t.ItemCommentStart? then Await([TopItems, CommentText])
      else if t.ItemTableStart? then Await([TopItems, Parts(ItemTableEnd, false)])
      else if t.ItemArrayTableStart? then Await([TopItems, Parts(ItemArrayTableEnd, false)])
      else if t.ItemKeyStart? then Await([TopItems, OneValue, Parts(ItemKeyEnd, false)])
      else Unexpected
    case CommentText => if t.ItemText? then Await([]) else Unexpected
    case Parts(end, some) =>
      if t == end then (if some then Await([]) else Unexpected)
      else if IsName(t) then Await([Parts(end, true)])
      else Unexpected
    case OneValue =>
      if IsScalar(t) then Await([])
      else if t.ItemArray? then Await([Elements])
      else if t.ItemInlineTableStart? then Await([Fields])
      else Unexpected
    case Elements =>
      if t.ItemArrayEnd? then Await([])
      else if t.ItemCommentStart? then Await([Elements, CommentText])
      else if IsScalar(t) then Await([Elements])
      else if t.ItemArray? then Await([Elements, Elements])
      else if t.ItemInlineTableStart? then Await([Elements, Fields])
      else Unexpected
    case Fields =>
      if t.ItemInlineTableEnd? then Await([])
      else if t.ItemCommentStart? then Await([Fields, CommentText])
      else if t.ItemKeyStart? then Await([Fields, OneValue, Parts(ItemKeyEnd, false)])
      else Unexpected
  }

  /** An error item is always welcome, and the last one. */
  function Take(want: seq<Symbol>, t: Type): Await
  {
    if t.ItemError? then Await(want)
    else if want == [] then Unexpected
    else
      match After(want[|want| - 1], t)
      case Unexpected => Unexpected
      case Await(more) => Await(want[..|want| - 1] + more)
  }

  lemma TakeLast(w: seq<Symbol>, s: Symbol, t: Type)
    requires !t.ItemError?
    ensures Take(w + [s], t) == match After(s, t) case Unexpected => Unexpected case Await(more) => Await(w + more)
  {
    assert (w + [s])[..|w|] == w;
  }

  /** What is expected after some items. */
  function Consumed(want: seq<Symbol>, items: seq<Item>): Await
    decreases |items|
  {
    if items == [] then Await(want)
    else
      match Take(want, items[0].typ)
      case Unexpected => Unexpected
      case Await(w) => Consumed(w, items[1..])
  }

  lemma {:induction false} ConsumedNext(want: seq<Symbol>, items: seq<Item>, i: Item)
    ensures Consumed(want, items + [i])
      == match Consumed(want, items) case Unexpected => Unexpected case Await(w) => Take(w, i.typ)
    decreases |items|
  {
    hide Take;
    if items == [] {
      assert ([] + [i])[1..] == [];
    } else {
      assert (items + [i])[1..] == items[1..] + [i];
      match Take(want, items[0].typ)
      case Unexpected =>
      case Await(w) => ConsumedNext(w, items[1..], i);
    }
  }
}
