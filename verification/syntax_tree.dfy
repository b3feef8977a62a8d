/** Tree items: the header every item is built with, tokens, trivia and nodes. */
module SyntaxTrees {
  import opened CodeUnits
  import opened SyntaxKinds

  /** The fields every tree item is constructed with and never changes afterwards: its parent,
      its kind and its offset relative to the parent. The parent is recorded by its own header,
      which is everything GetPosition reads of it. */
  datatype ItemHeader = ItemHeader(parent: Option<ItemHeader>, kind: SyntaxKind, relativePosition: int)

  /** The absolute position of an item: its relative position plus its parent's position. */
  function GetPosition(h: ItemHeader): int
  {
    match h.parent
    case None => h.relativePosition
    case Some(p) => h.relativePosition + GetPosition(p)
  }

  /** The headers from an item up to the root of its parent chain. */
  function Ancestry(h: ItemHeader): (chain: seq<ItemHeader>)
    ensures |chain| >= 1 && chain[0] == h
    ensures forall i :: 0 <= i < |chain| - 1 ==> chain[i].parent == Some(chain[i + 1])
    ensures chain[|chain| - 1].parent == None
  {
    match h.parent
    case None => [h]
    case Some(p) => [h] + Ancestry(p)
  }

  function SumOfRelativePositions(chain: seq<ItemHeader>): int
  {
    if chain == [] then 0 else chain[0].relativePosition + SumOfRelativePositions(chain[1..])
  }

  /** A position is the sum of the relative positions along the whole parent chain. */
  lemma {:induction false} GetPositionIsChainSum(h: ItemHeader)
    ensures GetPosition(h) == SumOfRelativePositions(Ancestry(h))
  {
    match h.parent
    case None =>
    case Some(p) =>
      GetPositionIsChainSum(p);
      assert Ancestry(h)[1..] == Ancestry(p);
  }

  /** The decoded value of a numeric literal. A decimal literal keeps its significant digits as
      text with an optional exponent (the double conversion is not part of this model); a binary,
      octal or hexadecimal literal is a mathematical integer. */
  datatype NumericValue =
    | DecimalNumber(whole: Utf16, fraction: Utf16, exponent: Option<int>)
    | IntegerNumber(n: int)

  /** The values the token subclasses carry besides their text. */
  datatype TokenValue =
    | NoValue
    | StringValue(quote: CodeUnit, value: Utf16)
    | NameValue(name: Utf16)
    | BooleanValue(b: bool)
    | NumberValue(number: NumericValue)
    | KindValue(punctuator: SyntaxKind)

  /** Tokens and trivia store their source text; a node holds its children in order. */
  datatype SyntaxTreeItem =
    | Token(header: ItemHeader, text: Utf16, value: TokenValue)
    | Trivia(header: ItemHeader, text: Utf16)
    | Node(header: ItemHeader, children: seq<SyntaxTreeItem>)
  {
    function Kind(): SyntaxKind { header.kind }
    function Parent(): Option<ItemHeader> { header.parent }
  }

  /** The text of an item: a token's or trivia's own text, a node's children's texts in order. */
  function Text(item: SyntaxTreeItem): Utf16
    decreases item, 1
  {
    match item
    case Token(_, t, _) => t
    case Trivia(_, t) => t
    case Node(_, children) => ConcatTexts(children)
  }

  function ConcatTexts(items: seq<SyntaxTreeItem>): Utf16
    decreases items, 0
  {
    if items == [] then [] else ConcatTexts(items[..|items| - 1]) + Text(items[|items| - 1])
  }

  /** The width of an item: a token's or trivia's text length, the sum of a node's children's. */
  function Width(item: SyntaxTreeItem): int
    decreases item, 1
  {
    match item
    case Token(_, t, _) => |t|
    case Trivia(_, t) => |t|
    case Node(_, children) => SumWidths(children)
  }

  function SumWidths(items: seq<SyntaxTreeItem>): int
    decreases items, 0
  {
    if items == [] then 0 else SumWidths(items[..|items| - 1]) + Width(items[|items| - 1])
  }

  /** Every item's width is the length of its text, nodes included. */
  lemma {:induction false} WidthIsTextLength(item: SyntaxTreeItem)
    ensures Width(item) == |Text(item)|
    decreases item, 1
  {
    match item
    case Token(_, _, _) =>
    case Trivia(_, _) =>
    case Node(_, children) => SumWidthsIsConcatLength(children);
  }

  lemma {:induction false} SumWidthsIsConcatLength(items: seq<SyntaxTreeItem>)
    ensures SumWidths(items) == |ConcatTexts(items)|
    decreases items, 0
  {
    if items != [] {
      SumWidthsIsConcatLength(items[..|items| - 1]);
      WidthIsTextLength(items[|items| - 1]);
    }
  }

  /** Concatenating the texts of two runs of items is concatenating the runs. */
  lemma {:induction false} ConcatTextsAppend(xs: seq<SyntaxTreeItem>, ys: seq<SyntaxTreeItem>)
    ensures ConcatTexts(xs + ys) == ConcatTexts(xs) + ConcatTexts(ys)
    decreases |ys|
  {
    if ys == [] {
      assert xs + ys == xs;
    } else {
      var n := |ys| - 1;
      assert (xs + ys)[..|xs + ys| - 1] == xs + ys[..n];
      ConcatTextsAppend(xs, ys[..n]);
      assert ConcatTexts(ys) == ConcatTexts(ys[..n]) + Text(ys[n]);
    }
  }

  /** The string constructor of a token: the kind and relative position go unchanged to the
      header and the text is kept as given. */
  function NewToken(parent: Option<ItemHeader>, kind: SyntaxKind, relativePosition: int, text: Utf16,
                    value: TokenValue): (item: SyntaxTreeItem)
    ensures item.Kind() == kind && item.Parent() == parent
    ensures item.header.relativePosition == relativePosition
    ensures Text(item) == text && Width(item) == |text|
  {
    Token(ItemHeader(parent, kind, relativePosition), text, value)
  }

  /** The char constructor of a token: its text is the single unit. */
  function NewCharToken(parent: Option<ItemHeader>, kind: SyntaxKind, relativePosition: int,
                        c: CodeUnit): (item: SyntaxTreeItem)
    ensures item.Kind() == kind && item.Parent() == parent
    ensures item.header.relativePosition == relativePosition
    ensures Text(item) == [c] && Width(item) == 1
  {
    Token(ItemHeader(parent, kind, relativePosition), [c], NoValue)
  }

  /** The trivia constructor: the kind and relative position go unchanged to the header and the
      text is kept as given. */
  function NewTrivia(parent: Option<ItemHeader>, kind: SyntaxKind, relativePosition: int,
                     text: Utf16): (item: SyntaxTreeItem)
    ensures item.Kind() == kind && item.Parent() == parent
    ensures item.header.relativePosition == relativePosition
    ensures Text(item) == text && Width(item) == |text|
  {
    Trivia(ItemHeader(parent, kind, relativePosition), text)
  }

  /** A punctuator token: kind and value are the given kind and the text is the kind's
      spelling, one to four units for a punctuator and empty for any other kind. */
  function NewPunctuator(parent: Option<ItemHeader>, relativePosition: int,
                         kind: SyntaxKind): (item: SyntaxTreeItem)
    ensures item.Kind() == kind && item.Token? && item.value == KindValue(kind) && item.Parent() == parent
    ensures item.header.relativePosition == relativePosition
    ensures Text(item) == ConvertToString(kind)
    ensures IsPunctuator(kind) ==> 1 <= Width(item) <= 4
    ensures !IsPunctuator(kind) ==> Text(item) == [] && Width(item) == 0
  {
    ConvertToStringLength(kind);
    Token(ItemHeader(parent, kind, relativePosition), ConvertToString(kind), KindValue(kind))
  }

  /** A node whose list of children grows in place as items are appended to it. */
  class SyntaxNode {
    const header: ItemHeader
    var children: seq<SyntaxTreeItem>

    /** The node as an item value, for Text, Width and GetPosition. */
    function Item(): SyntaxTreeItem
      reads this
    {
      Node(header, children)
    }

    constructor (parent: Option<ItemHeader>, kind: SyntaxKind, relativePosition: int)
      ensures header == ItemHeader(parent, kind, relativePosition)
      ensures children == []
      ensures Text(Item()) == [] && Width(Item()) == 0
    {
      header := ItemHeader(parent, kind, relativePosition);
      children := [];
    }

    /** Appending to the children list: the item becomes the last child, so it contributes its
        text at the end of the node's text and its width to the node's width. */
    method Add(item: SyntaxTreeItem)
      modifies this
      ensures children == old(children) + [item]
      ensures Text(Item()) == old(Text(Item())) + Text(item)
      ensures Width(Item()) == old(Width(Item())) + Width(item)
    {
      children := children + [item];
      assert children[..|children| - 1] == old(children);
    }

    /** The node's text, built by appending each child's text in order. */
    method GetText() returns (text: Utf16)
      ensures text == Text(Item())
      ensures |text| == Width(Item())
    {
      text := [];
      var i := 0;
      while i < |children|
        invariant 0 <= i <= |children|
        invariant text == ConcatTexts(children[..i])
      {
        assert children[..i + 1][..i] == children[..i];
        text := text + Text(children[i]);
        i := i + 1;
      }
      assert children[..i] == children;
      WidthIsTextLength(Item());
    }

    /** The node's width, summing each child's width in order. */
    method GetWidth() returns (width: int)
      ensures width == Width(Item())
      ensures width == |Text(Item())|
    {
      width := 0;
      var i := 0;
      while i < |children|
        invariant 0 <= i <= |children|
        invariant width == SumWidths(children[..i])
      {
        assert children[..i + 1][..i] == children[..i];
        width := width + Width(children[i]);
        i := i + 1;
      }
      assert children[..i] == children;
      WidthIsTextLength(Item());
    }
  }
}
