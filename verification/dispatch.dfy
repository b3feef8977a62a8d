/** The scanner's dispatch: which sub-scanner claims the cursor and the tree item it builds, and
    the whole scan of a source text into the children of a compilation unit. */
module ItemScanner {
  import opened CodeUnits
  import opened CharClasses
  import opened SyntaxKinds
  import opened SyntaxTrees
  import opened StringLiterals
  import opened Identifiers
  import opened Keywords
  import opened NumericLiterals
  import opened TriviaScanners
  import opened Punctuators

  /** The outcome of scanning one item: the item and where the cursor is left, or the endless
      loop of a string literal that runs to the end of the source. */
  datatype ItemScan = Scanned(item: SyntaxTreeItem, end: nat) | Diverges

  /** The string scanner each reading uses. */
  function StringAt(src: Utf16, pos: nat, reading: Reading): StringScan
    requires pos <= |src|
  {
    match reading
    case AsWritten => GetCurrentStringLiteral(src, pos)
    case AsIntended => GetCurrentStringLiteralCorrected(src, pos)
  }

  /** The name classification each reading uses. */
  function ClassifyName(text: Utf16, value: Utf16, escaped: bool, reading: Reading): NameToken
  {
    match reading
    case AsWritten => ClassifyIdentifierName(text, value, escaped)
    case AsIntended => ClassifyDecodedName(value, escaped)
  }

  /** How each reading's comment scanner recognises the end of the source. */
  function CommentEnd(reading: Reading): EndTest
  {
    match reading
    case AsWritten => ByValue
    case AsIntended => ByPosition
  }

  /** One item at the cursor, the sub-scanners tried in a fixed order: a string literal, a name
      (classified as a literal, keyword, future reserved word or identifier), a numeric literal, a
      comment, a line terminator sequence, a run of white space, and last a punctuator or, when
      the unit starts none, an invalid token holding that unit. Every item is placed at the
      cursor's offset under `parent`. The lexer is `AsWritten`; `AsIntended` puts in the
      repaired string, name, numeric and comment scanners. */
  function ScanCurrentItem(cat: CategoryTable, src: Utf16, pos: nat, parent: Option<ItemHeader>,
                           reading: Reading): ItemScan
    requires pos < |src|
  {
    match StringAt(src, pos, reading)
    case Hangs => Diverges
    case StringLiteral(text, quote, value, end) =>
      Scanned(NewToken(parent, StringLiteralToken, pos, text, StringValue(quote, value)), end)
    case NoString =>
      match GetCurrentIdentifierName(cat, src, pos)
      case IdentifierName(text, value, escaped, end) =>
        var t := ClassifyName(text, value, escaped, reading);
        Scanned(NewToken(parent, t.kind, pos, text, t.value), end)
      case NoIdentifier =>
        match GetCurrentNumericLiteral(cat, src, pos, reading)
        case NumericLiteral(text, value, end) =>
          Scanned(NewToken(parent, NumericLiteralToken, pos, text, NumberValue(value)), end)
        case NoNumber => ScanTriviaOrPunctuator(cat, src, pos, parent, reading)
  }

  /** The rest of the dispatch, once no literal or name starts at the cursor: a comment, a line
      terminator sequence, a run of white space, and last a punctuator or an invalid token. */
  function ScanTriviaOrPunctuator(cat: CategoryTable, src: Utf16, pos: nat, parent: Option<ItemHeader>,
                                  reading: Reading): ItemScan
    requires pos < |src|
  {
    match GetCurrentComment(src, pos, CommentEnd(reading))
    case Comment(text, multiLine, end) =>
      var kind := if multiLine then MultiLineCommentTrivia else SingleLineCommentTrivia;
      Scanned(NewTrivia(parent, kind, pos, text), end)
    case NoComment =>
      match GetCurrentLineTerminatorSequence(src, pos)
      case TriviaText(text, end) => Scanned(NewTrivia(parent, EndOfLineTrivia, pos, text), end)
      case NoTrivia =>
        match GetCurrentWhiteSpace(cat, src, pos)
        case TriviaText(text, end) => Scanned(NewTrivia(parent, WhitespaceTrivia, pos, text), end)
        case NoTrivia =>
          match ScanPunctuator(src, pos)
          case Punctuator(kind, end) => Scanned(NewPunctuator(parent, pos, kind), end)
          case InvalidUnit(c, end) => Scanned(NewCharToken(parent, Invalid, pos, c), end)
  }

  /** The kinds of the tokens the scanner builds: every kind but the trivia kinds and the
      kinds of nodes. */
  predicate IsTokenKind(k: SyntaxKind)
  {
    !IsTriviaKind(k) && k != NoneKind && k != SyntaxTreeRoot && k != CompilationUnit
  }

  /** The kinds of the trivia the scanner builds. */
  predicate IsTriviaKind(k: SyntaxKind)
  {
    k == SingleLineCommentTrivia || k == MultiLineCommentTrivia || k == EndOfLineTrivia || k == WhitespaceTrivia
  }

  /** A leaf the scanner may build under `parent` from the units `text` of the source: a token
      of a token kind or trivia of a trivia kind, holding exactly that text. */
  predicate IsScannedLeaf(item: SyntaxTreeItem, parent: Option<ItemHeader>, text: Utf16)
  {
    && item.Parent() == parent && |text| >= 1 && Text(item) == text
    && (item.Token? ==> IsTokenKind(item.Kind()))
    && (item.Trivia? ==> IsTriviaKind(item.Kind()))
    && !item.Node?
  }

  /** What a scanned item is: a leaf holding the non-empty run of source units from the cursor
      to where the cursor is left, placed at the cursor's offset. An invalid token is a single
      unit that is no punctuation unit or, as intended only, a name written with an escape;
      white space holds only white-space units; an end-of-line trivia is one of the five line
      terminator sequences. */
  ghost predicate IsScannedItem(cat: CategoryTable, src: Utf16, pos: nat, parent: Option<ItemHeader>,
                                reading: Reading, item: SyntaxTreeItem, end: nat)
  {
    && pos < end <= |src|
    && IsScannedLeaf(item, parent, src[pos..end])
    && item.header.relativePosition == pos
    && (item.Kind() == Invalid ==>
          (end == pos + 1 && !IsPunctuationUnit(src[pos]))
          || (reading.AsIntended? && Backslash in src[pos..end]))
    && (item.Kind() == WhitespaceTrivia ==> forall i :: pos <= i < end ==> IsWhiteSpaceUnit(cat, src[i]))
    && (item.Kind() == EndOfLineTrivia ==>
          var t := src[pos..end];
          t == [LF] || t == [LS] || t == [PS] || t == [CR] || t == [CR, LF])
  }

  /** Every item the dispatch builds is a scanned item as above. As written a name never
      becomes an invalid token, since an escaped reserved word is read as an identifier. */
  lemma ScannedItemFacts(cat: CategoryTable, src: Utf16, pos: nat, parent: Option<ItemHeader>, reading: Reading)
    requires pos < |src|
    ensures var r := ScanCurrentItem(cat, src, pos, parent, reading);
            r.Scanned? ==> IsScannedItem(cat, src, pos, parent, reading, r.item, r.end)
  {
    match StringAt(src, pos, reading)
    case Hangs =>
    case StringLiteral(text, quote, value, end) =>
      StringItem(cat, src, pos, parent, reading);
    case NoString =>
      match GetCurrentIdentifierName(cat, src, pos)
      case IdentifierName(_, _, _, _) =>
        NameItem(cat, src, pos, parent, reading);
      case NoIdentifier =>
        match GetCurrentNumericLiteral(cat, src, pos, reading)
        case NumericLiteral(text, value, end) =>
          NumericLiteralFacts(cat, src, pos, reading);
          TokenItem(cat, src, pos, end, parent, reading, NumericLiteralToken, text, NumberValue(value));
        case NoNumber =>
          TriviaOrPunctuatorFacts(cat, src, pos, parent, reading);
  }

  lemma StringItem(cat: CategoryTable, src: Utf16, pos: nat, parent: Option<ItemHeader>, reading: Reading)
    requires pos < |src| && StringAt(src, pos, reading).StringLiteral?
    ensures var r := StringAt(src, pos, reading);
            IsScannedItem(cat, src, pos, parent, reading,
                          NewToken(parent, StringLiteralToken, pos, r.text, StringValue(r.quote, r.value)), r.end)
  {
    StringLiteralIsSlice(src, pos);
    StringLiteralCorrectedAgrees(src, pos);
    var r := StringAt(src, pos, reading);
    TokenItem(cat, src, pos, r.end, parent, reading, StringLiteralToken, r.text, StringValue(r.quote, r.value));
  }

  lemma NameItem(cat: CategoryTable, src: Utf16, pos: nat, parent: Option<ItemHeader>, reading: Reading)
    requires pos < |src| && GetCurrentIdentifierName(cat, src, pos).IdentifierName?
    ensures var r := GetCurrentIdentifierName(cat, src, pos);
            var t := ClassifyName(r.text, r.value, r.escaped, reading);
            IsScannedItem(cat, src, pos, parent, reading, NewToken(parent, t.kind, pos, r.text, t.value), r.end)
  {
    var r := GetCurrentIdentifierName(cat, src, pos);
    IdentifierNameFacts(cat, src, pos);
    var t := ClassifyName(r.text, r.value, r.escaped, reading);
    NameKind(r.text, r.value, r.escaped, reading);
    TokenItem(cat, src, pos, r.end, parent, reading, t.kind, r.text, t.value);
  }

  /** A name becomes a token of a name kind; an invalid one only as intended, and only when
      written with an escape. The requirements are what every scanned name satisfies. */
  lemma NameKind(text: Utf16, value: Utf16, escaped: bool, reading: Reading)
    requires (escaped <==> Backslash in text) && (!escaped ==> text == value)
    ensures var k := ClassifyName(text, value, escaped, reading).kind;
            && IsTokenKind(k)
            && (k == Invalid ==> reading.AsIntended? && Backslash in text)
  {
    var k := ClassifyName(text, value, escaped, reading).kind;
    NameKindIsTokenKind(text, value, escaped, reading);
    if reading.AsWritten? && IsReservedWord(text) {
      ReservedWordsArePlain(text);
    }
    InvalidOnlyEscaped(text, value, escaped, reading);
  }

  lemma NameKindIsTokenKind(text: Utf16, value: Utf16, escaped: bool, reading: Reading)
    ensures IsTokenKind(ClassifyName(text, value, escaped, reading).kind)
  {
    var k := ClassifyName(text, value, escaped, reading).kind;
    match reading
    case AsWritten => ClassifiedKinds(text, value, escaped);
    case AsIntended => ClassifiedKinds(value, value, escaped);
    assert k == Invalid || k == NullLiteralToken || k == BooleanLiteralToken || k == KeywordToken
           || k == FutureReservedWordToken || k == IdentifierToken;
  }

  lemma InvalidOnlyEscaped(text: Utf16, value: Utf16, escaped: bool, reading: Reading)
    ensures var k := ClassifyName(text, value, escaped, reading).kind;
            k == Invalid ==> escaped && (reading.AsWritten? ==> IsReservedWord(text))
  {
    match reading
    case AsWritten => ClassificationTable(text, value, escaped);
    case AsIntended => ClassificationTable(value, value, escaped);
  }

  lemma TriviaOrPunctuatorFacts(cat: CategoryTable, src: Utf16, pos: nat, parent: Option<ItemHeader>, reading: Reading)
    requires pos < |src|
    ensures var r := ScanTriviaOrPunctuator(cat, src, pos, parent, reading);
            r.Scanned? ==> IsScannedItem(cat, src, pos, parent, reading, r.item, r.end)
  {
    if GetCurrentComment(src, pos, CommentEnd(reading)).Comment? {
      CommentItemFacts(cat, src, pos, parent, reading);
    } else if GetCurrentLineTerminatorSequence(src, pos).TriviaText? {
      LineTerminatorItemFacts(cat, src, pos, parent, reading);
    } else if GetCurrentWhiteSpace(cat, src, pos).TriviaText? {
      WhiteSpaceItemFacts(cat, src, pos, parent, reading);
    } else {
      PunctuatorItemFacts(cat, src, pos, parent, reading);
    }
  }

  lemma CommentItemFacts(cat: CategoryTable, src: Utf16, pos: nat, parent: Option<ItemHeader>, reading: Reading)
    requires pos < |src| && GetCurrentComment(src, pos, CommentEnd(reading)).Comment?
    ensures var r := ScanTriviaOrPunctuator(cat, src, pos, parent, reading);
            r.Scanned? && IsScannedItem(cat, src, pos, parent, reading, r.item, r.end)
  {
    var c := GetCurrentComment(src, pos, CommentEnd(reading));
    CommentFacts(src, pos, CommentEnd(reading));
    var kind := if c.multiLine then MultiLineCommentTrivia else SingleLineCommentTrivia;
    TriviaItem(cat, src, pos, c.end, parent, reading, kind, c.text);
  }

  lemma LineTerminatorItemFacts(cat: CategoryTable, src: Utf16, pos: nat, parent: Option<ItemHeader>, reading: Reading)
    requires pos < |src| && GetCurrentComment(src, pos, CommentEnd(reading)).NoComment?
    requires GetCurrentLineTerminatorSequence(src, pos).TriviaText?
    ensures var r := ScanTriviaOrPunctuator(cat, src, pos, parent, reading);
            r.Scanned? && IsScannedItem(cat, src, pos, parent, reading, r.item, r.end)
  {
    var t := GetCurrentLineTerminatorSequence(src, pos);
    LineTerminatorFacts(src, pos);
    TriviaItem(cat, src, pos, t.end, parent, reading, EndOfLineTrivia, t.text);
  }

  lemma WhiteSpaceItemFacts(cat: CategoryTable, src: Utf16, pos: nat, parent: Option<ItemHeader>, reading: Reading)
    requires pos < |src| && GetCurrentComment(src, pos, CommentEnd(reading)).NoComment?
    requires GetCurrentLineTerminatorSequence(src, pos).NoTrivia? && GetCurrentWhiteSpace(cat, src, pos).TriviaText?
    ensures var r := ScanTriviaOrPunctuator(cat, src, pos, parent, reading);
            r.Scanned? && IsScannedItem(cat, src, pos, parent, reading, r.item, r.end)
  {
    var t := GetCurrentWhiteSpace(cat, src, pos);
    WhiteSpaceFacts(cat, src, pos);
    assert forall i :: pos <= i < t.end ==> src[i] == t.text[i - pos];
    TriviaItem(cat, src, pos, t.end, parent, reading, WhitespaceTrivia, t.text);
  }

  lemma PunctuatorItemFacts(cat: CategoryTable, src: Utf16, pos: nat, parent: Option<ItemHeader>, reading: Reading)
    requires pos < |src| && GetCurrentComment(src, pos, CommentEnd(reading)).NoComment?
    requires GetCurrentLineTerminatorSequence(src, pos).NoTrivia? && GetCurrentWhiteSpace(cat, src, pos).NoTrivia?
    ensures var r := ScanTriviaOrPunctuator(cat, src, pos, parent, reading);
            r.Scanned? && IsScannedItem(cat, src, pos, parent, reading, r.item, r.end)
  {
    PunctuatorSpelled(src, pos);
    match ScanPunctuator(src, pos)
    case Punctuator(kind, end) =>
      PunctuatorItem(cat, src, pos, end, parent, reading, kind);
    case InvalidUnit(c, end) =>
      InvalidItem(cat, src, pos, parent, reading, c);
  }

  /** The name classification gives a literal, keyword, future reserved word, identifier or
      invalid token. */
  lemma ClassifiedKinds(text: Utf16, value: Utf16, escaped: bool)
    ensures var k := ClassifyIdentifierName(text, value, escaped).kind;
            k == Invalid || k == NullLiteralToken || k == BooleanLiteralToken || k == KeywordToken
            || k == FutureReservedWordToken || k == IdentifierToken
  {
  }

  /** A token built from the run of units between the cursor and `end`. */
  lemma TokenItem(cat: CategoryTable, src: Utf16, pos: nat, end: nat, parent: Option<ItemHeader>,
                  reading: Reading, kind: SyntaxKind, text: Utf16, value: TokenValue)
    requires pos < end <= |src| && text == src[pos..end] && IsTokenKind(kind)
    requires kind == Invalid ==> reading.AsIntended? && Backslash in text
    ensures IsScannedItem(cat, src, pos, parent, reading, NewToken(parent, kind, pos, text, value), end)
  {
  }

  /** Trivia built from the run of units between the cursor and `end`, with the facts of its
      kind. */
  lemma TriviaItem(cat: CategoryTable, src: Utf16, pos: nat, end: nat, parent: Option<ItemHeader>,
                   reading: Reading, kind: SyntaxKind, text: Utf16)
    requires pos < end <= |src| && text == src[pos..end] && IsTriviaKind(kind)
    requires kind == WhitespaceTrivia ==> forall i :: pos <= i < end ==> IsWhiteSpaceUnit(cat, src[i])
    requires kind == EndOfLineTrivia ==>
               text == [LF] || text == [LS] || text == [PS] || text == [CR] || text == [CR, LF]
    ensures IsScannedItem(cat, src, pos, parent, reading, NewTrivia(parent, kind, pos, text), end)
  {
  }

  /** A punctuator token whose spelling is the run of units between the cursor and `end`. */
  lemma PunctuatorItem(cat: CategoryTable, src: Utf16, pos: nat, end: nat, parent: Option<ItemHeader>,
                       reading: Reading, kind: SyntaxKind)
    requires pos < end <= |src| && IsPunctuator(kind) && src[pos..end] == ConvertToString(kind)
    ensures IsScannedItem(cat, src, pos, parent, reading, NewPunctuator(parent, pos, kind), end)
  {
    PunctuatorIsTokenKind(kind);
  }

  lemma PunctuatorIsTokenKind(kind: SyntaxKind)
    requires IsPunctuator(kind)
    ensures IsTokenKind(kind) && kind != Invalid
  {
  }

  /** The invalid token holding the unit at the cursor, which is no punctuation unit. */
  lemma InvalidItem(cat: CategoryTable, src: Utf16, pos: nat, parent: Option<ItemHeader>, reading: Reading,
                    c: CodeUnit)
    requires pos < |src| && c == src[pos] && !IsPunctuationUnit(c)
    ensures IsScannedItem(cat, src, pos, parent, reading, NewCharToken(parent, Invalid, pos, c), pos + 1)
  {
    assert src[pos..pos + 1] == [c];
  }

  /** As written the item scan diverges exactly where a string literal runs to the end of the
      source, which starts at a quote; as intended it never diverges. */
  lemma DivergesAtOpenString(cat: CategoryTable, src: Utf16, pos: nat, parent: Option<ItemHeader>, reading: Reading)
    requires pos < |src|
    ensures ScanCurrentItem(cat, src, pos, parent, reading).Diverges?
            <==> reading.AsWritten? && GetCurrentStringLiteral(src, pos).Hangs?
    ensures GetCurrentStringLiteral(src, pos).Hangs? ==> IsQuote(src[pos])
  {
    StringLiteralCorrectedAgrees(src, pos);
  }

  /** The scanner's main loop: items are scanned from the cursor and appended to the children
      until the cursor reaches the end of the source; `None` when an item scan never ends. */
  function ScanLoop(cat: CategoryTable, src: Utf16, pos: nat, parent: Option<ItemHeader>, reading: Reading,
                    items: seq<SyntaxTreeItem>): Option<seq<SyntaxTreeItem>>
    requires pos <= |src|
    decreases |src| - pos
  {
    if pos == |src| then Some(items)
    else
      match ScanCurrentItem(cat, src, pos, parent, reading)
      case Diverges => None
      case Scanned(item, end) =>
        ScannedItemFacts(cat, src, pos, parent, reading);
        ScanLoop(cat, src, end, parent, reading, items + [item])
  }

  /** The header of the compilation unit a scan builds under `parent`. */
  function UnitHeader(parent: Option<ItemHeader>): ItemHeader
  {
    ItemHeader(parent, CompilationUnit, 0)
  }

  /** A whole scan: a compilation unit at offset 0 under `parent` whose children are the items
      scanned from the start of the source; `None` when the scan never ends. */
  function Scan(cat: CategoryTable, src: Utf16, parent: Option<ItemHeader>, reading: Reading): Option<SyntaxTreeItem>
  {
    match ScanLoop(cat, src, 0, Some(UnitHeader(parent)), reading, [])
    case None => None
    case Some(children) => Some(Node(UnitHeader(parent), children))
  }

  /** Where an item starts: the length of the text of the items before it. */
  function StartOf(items: seq<SyntaxTreeItem>, i: nat): nat
    requires i <= |items|
  {
    |ConcatTexts(items[..i])|
  }

  /** Each item is a scanned leaf under `parent` placed at the offset where its text starts. */
  ghost predicate WellPlaced(items: seq<SyntaxTreeItem>, parent: Option<ItemHeader>)
  {
    forall i :: 0 <= i < |items| ==>
      IsScannedLeaf(items[i], parent, Text(items[i])) && items[i].header.relativePosition == StartOf(items, i)
  }

  /** Appending a leaf placed where the text so far ends keeps the items well placed. */
  lemma AppendWellPlaced(items: seq<SyntaxTreeItem>, item: SyntaxTreeItem, parent: Option<ItemHeader>)
    requires WellPlaced(items, parent)
    requires IsScannedLeaf(item, parent, Text(item))
    requires item.header.relativePosition == |ConcatTexts(items)|
    ensures WellPlaced(items + [item], parent)
    ensures ConcatTexts(items + [item]) == ConcatTexts(items) + Text(item)
  {
    var all := items + [item];
    assert all[..|all| - 1] == items;
    forall i | 0 <= i < |all|
      ensures IsScannedLeaf(all[i], parent, Text(all[i])) && all[i].header.relativePosition == StartOf(all, i)
    {
      if i < |items| {
        assert all[..i] == items[..i];
      } else {
        assert all[..i] == items;
      }
    }
  }

  /** Loop form of the tiling theorem: the items scanned so far cover the source up to the
      cursor, and so the finished children cover all of it. */
  lemma {:induction false} ScanLoopTiles(cat: CategoryTable, src: Utf16, pos: nat, parent: Option<ItemHeader>,
                                         reading: Reading, items: seq<SyntaxTreeItem>)
    requires pos <= |src| && ConcatTexts(items) == src[..pos] && WellPlaced(items, parent)
    ensures var r := ScanLoop(cat, src, pos, parent, reading, items);
            r.Some? ==> ConcatTexts(r.value) == src && WellPlaced(r.value, parent) && items <= r.value
    decreases |src| - pos
  {
    if pos == |src| {
      assert src[..pos] == src;
    } else {
      match ScanCurrentItem(cat, src, pos, parent, reading)
      case Diverges =>
      case Scanned(item, end) =>
        ScanTurnTiles(cat, src, pos, parent, reading, items, item, end);
        ScanLoopTiles(cat, src, end, parent, reading, items + [item]);
    }
  }

  /** One turn of the scan loop extends the items that spell the source so far by the scanned
      item, and they then spell the source up to the item's end. */
  lemma ScanTurnTiles(cat: CategoryTable, src: Utf16, pos: nat, parent: Option<ItemHeader>, reading: Reading,
                      items: seq<SyntaxTreeItem>, item: SyntaxTreeItem, end: nat)
    requires pos < |src| && ConcatTexts(items) == src[..pos] && WellPlaced(items, parent)
    requires ScanCurrentItem(cat, src, pos, parent, reading) == Scanned(item, end)
    ensures pos < end <= |src| && ConcatTexts(items + [item]) == src[..end] && WellPlaced(items + [item], parent)
  {
    ScannedLeafAt(cat, src, pos, parent, reading, item, end);
    AppendWellPlaced(items, item, parent);
    PrefixThenRun(src, pos, end);
  }

  /** The units before the cursor and the run from the cursor spell the units before the run's
      end. */
  lemma PrefixThenRun(src: Utf16, pos: nat, end: nat)
    requires pos <= end <= |src|
    ensures src[..pos] + src[pos..end] == src[..end]
  {
  }

  /** A scanned item is a leaf spelling the units from the cursor to its end, placed at the
      cursor. */
  lemma ScannedLeafAt(cat: CategoryTable, src: Utf16, pos: nat, parent: Option<ItemHeader>, reading: Reading,
                      item: SyntaxTreeItem, end: nat)
    requires pos < |src| && ScanCurrentItem(cat, src, pos, parent, reading) == Scanned(item, end)
    ensures pos < end <= |src| && IsScannedLeaf(item, parent, src[pos..end]) && item.header.relativePosition == pos
  {
    ScannedItemFacts(cat, src, pos, parent, reading);
  }

  /** Loop form of the divergence theorem: a loop that never ends reads the source as written
      and reached a quote whose string literal runs to the end of the source. */
  lemma {:induction false} ScanLoopDiverges(cat: CategoryTable, src: Utf16, pos: nat, parent: Option<ItemHeader>,
                                            reading: Reading, items: seq<SyntaxTreeItem>) returns (p: nat)
    requires pos <= |src| && ScanLoop(cat, src, pos, parent, reading, items).None?
    ensures reading.AsWritten? && pos <= p < |src| && IsQuote(src[p]) && GetCurrentStringLiteral(src, p).Hangs?
    decreases |src| - pos
  {
    DivergesAtOpenString(cat, src, pos, parent, reading);
    match ScanCurrentItem(cat, src, pos, parent, reading)
    case Diverges =>
      p := pos;
    case Scanned(item, end) =>
      ScannedItemFacts(cat, src, pos, parent, reading);
      p := ScanLoopDiverges(cat, src, end, parent, reading, items + [item]);
  }

  /** A scan that never ends reads the source as written and met a quote whose string literal
      runs to the end of the source; as intended every scan ends. */
  lemma ScanDiverges(cat: CategoryTable, src: Utf16, parent: Option<ItemHeader>, reading: Reading) returns (p: nat)
    requires Scan(cat, src, parent, reading).None?
    ensures reading.AsWritten? && p < |src| && IsQuote(src[p]) && GetCurrentStringLiteral(src, p).Hangs?
  {
    p := ScanLoopDiverges(cat, src, 0, Some(UnitHeader(parent)), reading, []);
  }

  /** The scan's result: a compilation unit at offset 0 under `parent` whose text is the whole
      source and whose width is its length. Its children are non-empty tokens and trivia whose
      texts, in order, spell the source, each child under the unit and placed at the offset where
      its text starts, so each child's absolute position is the index of its text in the source
      plus the unit's own position. */
  lemma ScanTiles(cat: CategoryTable, src: Utf16, parent: Option<ItemHeader>, reading: Reading)
    ensures var r := Scan(cat, src, parent, reading);
            r.Some? ==>
              && r.value.Node? && r.value.header == UnitHeader(parent)
              && Text(r.value) == src && Width(r.value) == |src|
              && WellPlaced(r.value.children, Some(UnitHeader(parent)))
              && ChildrenAtPositions(r.value.children, src, UnitHeader(parent))
  {
    var h := UnitHeader(parent);
    assert src[..0] == [];
    ScanLoopTiles(cat, src, 0, Some(h), reading, []);
    var r := Scan(cat, src, parent, reading);
    if r.Some? {
      WidthIsTextLength(r.value);
      TilesArePositioned(r.value.children, src, h);
    }
  }

  /** Each child's text is found in the source at the child's start, and its absolute position
      is that start plus the position of the node `h`. */
  ghost predicate ChildrenAtPositions(children: seq<SyntaxTreeItem>, src: Utf16, h: ItemHeader)
  {
    forall i :: 0 <= i < |children| ==>
      var start := StartOf(children, i);
      && 0 <= Width(children[i]) && start + Width(children[i]) <= |src|
      && src[start..start + Width(children[i])] == Text(children[i])
      && GetPosition(children[i].header) == start + GetPosition(h)
  }

  /** Well-placed children that spell the source sit at their positions in it. */
  lemma TilesArePositioned(children: seq<SyntaxTreeItem>, src: Utf16, h: ItemHeader)
    requires ConcatTexts(children) == src && WellPlaced(children, Some(h))
    ensures ChildrenAtPositions(children, src, h)
  {
    forall i | 0 <= i < |children|
      ensures var start := StartOf(children, i);
              && 0 <= Width(children[i]) && start + Width(children[i]) <= |src|
              && src[start..start + Width(children[i])] == Text(children[i])
              && GetPosition(children[i].header) == start + GetPosition(h)
    {
      ChildText(children, i);
      WidthIsTextLength(children[i]);
    }
  }

  /** The text of a run of items holds each item's text at the item's start. */
  lemma ChildText(items: seq<SyntaxTreeItem>, i: nat)
    requires i < |items|
    ensures StartOf(items, i) + |Text(items[i])| <= |ConcatTexts(items)|
    ensures ConcatTexts(items)[StartOf(items, i)..StartOf(items, i) + |Text(items[i])|] == Text(items[i])
  {
    assert items == items[..i] + [items[i]] + items[i + 1..];
    ConcatTextsAppend(items[..i] + [items[i]], items[i + 1..]);
    ConcatTextsAppend(items[..i], [items[i]]);
    assert ConcatTexts([items[i]]) == Text(items[i]) by {
      assert [items[i]][..0] == [];
    }
  }

  /** The empty source gives a compilation unit with no children. */
  lemma EmptySourceScan(cat: CategoryTable, parent: Option<ItemHeader>, reading: Reading)
    ensures Scan(cat, [], parent, reading) == Some(Node(UnitHeader(parent), []))
  {
  }

  const Quote: CodeUnit := '"' as CodeUnit

  /** A lone quote: as written the scan never ends. */
  lemma LoneQuoteHangs(cat: CategoryTable, parent: Option<ItemHeader>)
    ensures Scan(cat, [Quote], parent, AsWritten).None?
  {
    assert GetCurrentStringLiteral([Quote], 0) == Hangs;
  }

  /** A lone quote as intended: it becomes an invalid token and the scan ends (when the table,
      like the Unicode tables, does not make the quote a space separator). */
  lemma LoneQuoteInvalid(cat: CategoryTable, parent: Option<ItemHeader>)
    requires cat(Quote) != SpaceSeparator
    ensures Scan(cat, [Quote], parent, AsIntended)
            == Some(Node(UnitHeader(parent), [NewCharToken(Some(UnitHeader(parent)), Invalid, 0, Quote)]))
  {
    var src := [Quote];
    var h := Some(UnitHeader(parent));
    var item := NewCharToken(h, Invalid, 0, Quote);
    LoneQuoteItem(cat, h);
    assert ScanLoop(cat, src, 1, h, AsIntended, [item]) == Some([item]);
    assert [] + [item] == [item];
    assert ScanLoop(cat, src, 0, h, AsIntended, []) == Some([item]);
  }

  lemma LoneQuoteItem(cat: CategoryTable, h: Option<ItemHeader>)
    requires cat(Quote) != SpaceSeparator
    ensures ScanCurrentItem(cat, [Quote], 0, h, AsIntended) == Scanned(NewCharToken(h, Invalid, 0, Quote), 1)
  {
    var src := [Quote];
    LoneQuoteNoString(src);
    LoneQuoteNoName(cat, src);
    LoneQuoteTrivia(cat, src, h);
  }

  /** As intended a lone quote starts no string literal. */
  lemma LoneQuoteNoString(src: Utf16)
    requires src == [Quote]
    ensures StringAt(src, 0, AsIntended) == NoString
  {
    assert GetCurrentStringLiteral(src, 0) == Hangs;
    StringLiteralCorrectedAgrees(src, 0);
  }

  /** A lone quote starts no name and no number. */
  lemma LoneQuoteNoName(cat: CategoryTable, src: Utf16)
    requires src == [Quote]
    ensures GetCurrentIdentifierName(cat, src, 0) == NoIdentifier
    ensures GetCurrentNumericLiteral(cat, src, 0, AsIntended) == NoNumber
  {
    assert IsPatternChar(Quote);
    PatternCharsExcluded(cat, Quote);
  }

  /** No trivia starts at a lone quote, which is no punctuator either. */
  lemma LoneQuoteTrivia(cat: CategoryTable, src: Utf16, h: Option<ItemHeader>)
    requires cat(Quote) != SpaceSeparator && src == [Quote]
    ensures ScanTriviaOrPunctuator(cat, src, 0, h, AsIntended) == Scanned(NewCharToken(h, Invalid, 0, Quote), 1)
  {
    assert GetCurrentComment(src, 0, ByPosition) == NoComment;
    assert GetCurrentLineTerminatorSequence(src, 0) == NoTrivia;
    WhiteSpaceFacts(cat, src, 0);
    assert GetCurrentWhiteSpace(cat, src, 0) == NoTrivia;
    PunctuatorSpelled(src, 0);
    assert ScanPunctuator(src, 0) == InvalidUnit(Quote, 1);
  }
}
