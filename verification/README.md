# ECMAScript lexical scanner, modelled in Dafny

This project models the lexical scanner of EcmaScriptCompiler. The scanner is a C# class that
turns ECMAScript source text into a flat syntax tree. A compilation-unit node holds the source's
tokens and trivia in order:
- string, numeric and identifier tokens;
- keywords, null and boolean literals, and the future reserved word `enum`;
- punctuators and invalid tokens;
- comments, line terminators and white space.

The model follows the scanner's structure:

- `CodeUnits`: the source is a sequence of UTF-16 code units. Reading past the end yields U+FFFF,
  the scanner's `CHARACTER_EOF`.
- `CharClasses`: hex digits, Pattern_Syntax, Pattern_White_Space, and identifier start and
  continue characters.
- `Cursor` and `EncodedChars`: peeking and advancing over the source, and the `\uXXXX`, `\u{…}`
  and `\xXX` escapes.
- `SyntaxKinds`: the `SyntaxKind` enumeration and the spelling of each punctuator.
- `SyntaxTrees`: syntax items (tokens, trivia, nodes) with parent, kind, relative position, text
  and width.
- `SyntaxTrees.SyntaxNode`: a class whose `Add` appends a child in place.
- One module per sub-scanner: `StringLiterals`, `Identifiers`, `Keywords`, `SignificantDigits`
  (the twenty-digit rounding of decimal literals), `NumericLiterals`, `TriviaScanners` and
  `Punctuators`.
  - Each gives the scanner's behaviour as a pure function of the source and a position. The
    result is a value plus the new position, or a failure that leaves the position unchanged.
  - Each also gives lemmas stating what a scan produces.
- `ItemScanner`: the dispatch of `ScanCurrentSyntaxTreeItemAndAdvance` and the whole-source
  loop of `Scan`.
  - Its main theorem: the scanned items tile the source. The texts of the items concatenate to
    the source, and each item sits at its own offset.
- `Lexer.LexicalScanner`: the scanner as a class.
  - `currentPosition` is a mutable field, and every `Get…AndAdvance` method changes it.
  - Each method's contract ties its result and the new position to the pure function of the
    same name, evaluated at the old position.
  - `Scan` builds the tree with `SyntaxNode.Add`. It is proved to return the node the pure scan
    describes, so the tiling theorem holds of it.

Several sub-scanners have bugs (see "## Findings"), so the dispatch takes a `Reading`:
- `AsWritten` behaves as the C# code does, and is what the class uses.
- `AsIntended` applies each correction.

The lemmas relate the two readings, showing where they agree and where they differ. Comments
likewise take an `EndTest`. `ByValue` is the code's test, which stops at a literal U+FFFF.
`ByPosition` tests the real end of the source.

## Model

| member | source | states |
|---|---|---|
| CodeUnits.NamedUnits | Lexer/LexicalScanner.cs:524-531 | the scanner's character literals LF, CR, LS and PS, and its end marker `CHARACTER_EOF` (line 16), are the code units the model names |
| CodeUnits.UnitsOfBmp | Lexer/LexicalScanner.cs:18-24 | a source string of the Basic Multilingual Plane is held as its characters' code units, one for one and in order |
| CodeUnits.UnitsInjective | Lexer/LexicalScanner.cs:18-24 | two such strings have the same code units exactly when they are equal, so no text is lost |
| CharClasses.HexDigitValue | Lexer/LexicalScanner.cs:1379-1384 | a hex digit in either case has a value below 16; a decimal digit has its digit value |
| CharClasses.HexDigitOf | Lexer/LexicalScanner.cs:1379-1384 | every value below 16 has a hex digit that reads back as that value |
| CharClasses.FixedIdentifierChars | Lexer/LexicalScanner.cs:1449-1471 | `$`, `_` and Other_ID_Start start names; in addition U+200C, U+200D and Other_ID_Continue continue them, whatever the category table says |
| CharClasses.PatternCharsExcluded | Lexer/LexicalScanner.cs:1473-1595 | a Pattern_Syntax or Pattern_White_Space unit other than `$` neither starts nor continues a name |
| CharClasses.EofIsNoNameOrSpace | Lexer/LexicalScanner.cs:1449-1471 | the end marker U+FFFF is neither a name character nor white space, so every loop that peeks past the end stops |
| CharClasses.StartIsContinue | Lexer/LexicalScanner.cs:1473-1595 | every identifier start character also continues a name, except an Other_ID_Start unit whose category is not a continue category |
| CharClasses.LatinLettersStartNames | Lexer/LexicalScanner.cs:1449-1527 | given that the table classes ASCII letters as letters, they start and continue names |
| Cursor.PeekInside | Lexer/LexicalScanner.cs:1422-1433 | peeking returns the unit at that offset inside the source, and U+FFFF past its end |
| Cursor.PeekCurrentString | Lexer/LexicalScanner.cs:1435-1447 | a string of the requested length is found exactly when it fits in the remaining source, and it consists of the peeked units |
| Cursor.AdvancePosition | Lexer/LexicalScanner.cs:1398-1402 | advancing moves one unit forward but never past the end |
| Cursor.AdvancePositionBy | Lexer/LexicalScanner.cs:1404-1420 | advancing by an offset clamps the position to the source: the target if in range, else the nearest end |
| EncodedChars.Hex4 | Lexer/LexicalScanner.cs:1192-1200 | four hex digits denote one code unit |
| EncodedChars.UnicodeEscapeShapes | Lexer/LexicalScanner.cs:1178-1230 | an escape is found only at `\u` plus four hex digits, or `\u{` plus four hex digits and `}`; both decode the four digits and take six units |
| EncodedChars.PlainUnicodeEscape | Lexer/LexicalScanner.cs:1188-1204 | `\uXXXX` decodes to the unit XXXX and spans its six units |
| EncodedChars.BracedUnicodeEscape | Lexer/LexicalScanner.cs:1206-1225 | the braced form is accepted as written: its text is only the first six units and its value is four digits |
| EncodedChars.NoUnicodeEscape | Lexer/LexicalScanner.cs:1178-1230 | any other shape yields no escape |
| EncodedChars.HexEscapeShape | Lexer/LexicalScanner.cs:1243-1264 | a hex escape is found only at `\x` plus two hex digits; it decodes them and spans four units |
| EncodedChars.EncodedCharsAreSlices | Lexer/LexicalScanner.cs:1178-1264 | the text of a found escape is the slice of the source it was read from |
| EncodedChars.UnicodeEscapeRoundTrip | Lexer/LexicalScanner.cs:1178-1204 | writing any unit as `\uXXXX` and scanning it gives back that unit and that text |
| EncodedChars.HexEscapeRoundTrip | Lexer/LexicalScanner.cs:1243-1264 | writing any unit below 256 as `\xXX` and scanning it gives back that unit and that text |
| EncodedChars.PeekBracedEscapeCorrected | Lexer/LexicalScanner.cs:1206-1225 | the corrected braced escape: a code point of at most U+10FFFF whose text runs from the backslash through the closing brace |
| EncodedChars.BracedEscapeRoundTrip | Lexer/LexicalScanner.cs:1206-1225 | under the correction, writing any code point as `\u{…}` and scanning it gives back that code point and the whole text |
| EncodedChars.BracedEscapeTakesSixUnits | Lexer/LexicalScanner.cs:1206-1225 | as written, `\u{0041}` is read as its first six units, leaving `1}` behind; the correction takes all eight |
| EncodedChars.ShortBracedEscapeRejected | Lexer/LexicalScanner.cs:1206-1225 | as written, `\u{41}` is no escape; the correction reads it as U+0041 |
| SyntaxKinds.ConvertToStringLength | Syntax/SyntaxKind.cs:89-198 | exactly the punctuator kinds have a spelling; the simple punctuators are one unit long, the compound ones two or three, and only `>>>=` is four |
| SyntaxKinds.ConvertToStringUnits | Syntax/SyntaxKind.cs:89-198 | every unit of a punctuator spelling is a punctuation character |
| SyntaxKinds.PunctuationKindOfSpelling | Syntax/SyntaxKind.cs:89-198 | reading back a punctuator's spelling gives that punctuator |
| SyntaxKinds.ConvertToStringInjective | Syntax/SyntaxKind.cs:89-198 | two different punctuators have different spellings |
| SyntaxTrees.Ancestry | Syntax/SyntaxTreeItem.cs:23-29 | the chain of parents starts at the item, each link is the parent of the one before it, and it ends at a root |
| SyntaxTrees.GetPositionIsChainSum | Syntax/SyntaxTreeItem.cs:39-45 | an item's absolute position is the sum of the relative positions along its chain of parents |
| SyntaxTrees.WidthIsTextLength | Syntax/SyntaxNode.cs:27-51 | every item's width is the length of its text, for nodes as well as leaves |
| SyntaxTrees.SumWidthsIsConcatLength | Syntax/SyntaxNode.cs:27-51 | the summed widths of the children equal the length of their concatenated texts |
| SyntaxTrees.ConcatTextsAppend | Syntax/SyntaxNode.cs:27-38 | a node's text distributes over appending children |
| SyntaxTrees.NewToken | Syntax/SyntaxToken.cs:13-39 | a token keeps its kind, parent and relative position; its text is the given string and its width that string's length |
| SyntaxTrees.NewCharToken | Syntax/SyntaxToken.cs:19-23 | a token made from one character has that character as text and width 1 |
| SyntaxTrees.NewTrivia | Syntax/SyntaxTrivia.cs:13-33 | a trivia item keeps its kind, parent and position; its text is the given string and its width that string's length |
| SyntaxTrees.NewPunctuator | Syntax/CoreSyntaxTokens/PunctuatorToken.cs:13-17 | a punctuator token's text is the kind's spelling: one to four units for a punctuator, empty for any other kind |
| SyntaxTrees.SyntaxNode.constructor | Syntax/SyntaxNode.cs:14-17 | a new node has the given header, no children, empty text and width 0 |
| SyntaxTrees.SyntaxNode.Add | Syntax/SyntaxNode.cs:19-25 | adding a child appends it to the children, extends the node's text by the child's text and its width by the child's width |
| SyntaxTrees.SyntaxNode.GetText | Syntax/SyntaxNode.cs:27-38 | the loop over the children yields the node's text, whose length is its width |
| SyntaxTrees.SyntaxNode.GetWidth | Syntax/SyntaxNode.cs:40-51 | the loop over the children yields the node's width, the length of its text |
| StringLiterals.StringStepAt | Lexer/LexicalScanner.cs:1023-1172 | one step of the string loop consumes at least one unit; when the step ends inside the source, the units it consumes are the slice it read |
| StringLiterals.EscapeStepAt | Lexer/LexicalScanner.cs:1039-1135 | an escape step always advances, and consumes the slice it read when it ends inside the source |
| StringLiterals.StringLiteralIsSlice | Lexer/LexicalScanner.cs:1008-1176 | a scanned string literal is the source slice from its opening quote to the matching closing quote |
| StringLiterals.StringLiteralRoundTrip | Lexer/LexicalScanner.cs:1008-1176 | quoting any value with the escapes the scanner understands and scanning the result gives back that value, quote and text |
| StringLiterals.StringLoopDecodesBody | Lexer/LexicalScanner.cs:1023-1172 | the string loop decodes an encoded body unit by unit and stops at the closing quote |
| StringLiterals.SingleEscape | Lexer/LexicalScanner.cs:1073-1135 | at any position, a backslash before a unit other than `u`, `x` or a line terminator takes both units as text and adds that unit's escape value (`\n`, `\t`, `\0` … or the unit itself) |
| StringLiterals.LineContinuation | Lexer/LexicalScanner.cs:1073-1135 | at any position, a backslash before a line terminator (a CR without LF after it) takes both units as text and adds nothing to the value |
| StringLiterals.CrLfContinuation | Lexer/LexicalScanner.cs:1073-1135 | at any position, a backslash before CR LF takes all three units as text and adds nothing to the value |
| StringLiterals.MalformedUnicodeEscape | Lexer/LexicalScanner.cs:1041-1056 | a `\u` that is no well-formed escape is not interpreted: the backslash alone goes to text and value, and the `u` follows as a plain unit |
| StringLiterals.MalformedHexEscape | Lexer/LexicalScanner.cs:1057-1072 | a `\x` that is no well-formed escape is kept the same way: the backslash alone, then the `x` as a plain unit |
| StringLiterals.MalformedEscapeKept | Lexer/LexicalScanner.cs:1008-1176 | a literal holding `\uZ` is scanned with all three units, backslash included, in its value |
| StringLiterals.PlainRunThenTerminatorAborts | Lexer/LexicalScanner.cs:1143-1155 | the string loop over plain units that reaches an unescaped line terminator ends without a literal, whatever its builders hold |
| StringLiterals.RawLineTerminatorRejects | Lexer/LexicalScanner.cs:1143-1155 | at any position in any source, a quote followed by plain units and then an unescaped line terminator is no string literal |
| StringLiterals.PlainRunHangs | Lexer/LexicalScanner.cs:1023-1172 | as written, the string loop over units that are no quote, backslash or line terminator never ends once it reaches the end of input |
| StringLiterals.UnterminatedHangs | Lexer/LexicalScanner.cs:1023-1172 | as written, a quote followed by any run of such plain units, with or without a final backslash, and then the end of input, never finishes scanning |
| StringLiterals.StringLiteralCorrectedAgrees | Lexer/LexicalScanner.cs:1008-1176 | the corrected scanner always finishes; it agrees with the code wherever the code finishes, and rejects the literal wherever the code hangs |
| StringLiterals.UnterminatedRejectedCorrected | Lexer/LexicalScanner.cs:1023-1172 | under the correction, every such unterminated string, with or without a final backslash, is no string literal |
| Identifiers.PeekNameUnit | Lexer/LexicalScanner.cs:1277-1330 | a name unit is a plain unit, or a `\uXXXX` escape taking six units, read from the source |
| Identifiers.NameStepAt | Lexer/LexicalScanner.cs:1331-1377 | each step of the name loop consumes the slice for one identifier-continue unit, and counts as an escape exactly when that slice holds a backslash |
| Identifiers.NameLoopFacts | Lexer/LexicalScanner.cs:1331-1377 | the name loop keeps its invariant: its text is a source slice, its value is the decoded units, and the escape flag is set exactly when an escape occurred |
| Identifiers.IdentifierNameFacts | Lexer/LexicalScanner.cs:1277-1377 | a scanned name is a non-empty source slice of decoded name units, and the unit after it does not continue the name |
| Identifiers.IdentifierNameRoundTrip | Lexer/LexicalScanner.cs:1277-1377 | scanning a plain name followed by a non-name unit gives back the name as both text and value, unescaped |
| Identifiers.EscapedStartRoundTrip | Lexer/LexicalScanner.cs:1277-1377 | scanning `\uXXXX` for a start character, then name units, decodes to that character followed by the units, and is flagged as escaped |
| Keywords.ClassificationTable | Lexer/LexicalScanner.cs:61-157 | an escaped reserved word is Invalid, and a non-reserved word is an identifier carrying its value. An unescaped word is `null`, `true`/`false` with its truth value, a keyword, or `enum` exactly as its text says |
| Keywords.ReservedWordsArePlain | Lexer/LexicalScanner.cs:74-154 | no reserved word contains a backslash |
| Keywords.ScannedNameNeverInvalid | Lexer/LexicalScanner.cs:61-157 | as written, a scanned name is never Invalid, and an escaped one is always an identifier, because the switch tests the raw text |
| Keywords.ContextualWordsAreIdentifiers | Lexer/LexicalScanner.cs:104-142 | the words commented out of the switch (`eval`, `let`, `yield`, `await`, `implements`, …) are identifiers, escaped or not |
| Keywords.DecodedClassificationFacts | Lexer/LexicalScanner.cs:61-157 | classified by the decoded value, exactly the escaped reserved words are Invalid, exactly the non-reserved words are identifiers, and unescaped names are classified as in the code |
| Keywords.EscapedKeywordReadAsIdentifier | Lexer/LexicalScanner.cs:61-157 | as written, `if` is an identifier with value `if`; classified by value it is Invalid |
| SignificantDigits.AddOne | Lexer/LexicalScanner.cs:814-852 | adding one to a digit string keeps its length |
| SignificantDigits.AddOneValue | Lexer/LexicalScanner.cs:814-852 | adding one with carry adds exactly one to the digits' value, the carry being worth the next power of ten |
| SignificantDigits.AddOneCarries | Lexer/LexicalScanner.cs:834-865 | the carry runs out of the first digit exactly when every digit is a nine, and then the digits are all zeros |
| SignificantDigits.TruncateKeepsLeadingDigits | Lexer/LexicalScanner.cs:795-812 | truncation keeps the first twenty significant digits, rounds up exactly when the twenty-first is 5 to 9, and counts the dropped whole digits in the shift |
| SignificantDigits.RoundSignificantValue | Lexer/LexicalScanner.cs:795-866 | rounding leaves at most twenty digits, as many as were kept, worth the kept digits plus the round-up (a tenth of that after a carry out) |
| SignificantDigits.RoundSignificantLosesPlace | Lexer/LexicalScanner.cs:854-865 | as written, twenty-one nines round to twenty digits with the point one place short |
| SignificantDigits.RoundSignificantCorrectedKeepsPoint | Lexer/LexicalScanner.cs:795-866 | with the correction, the whole digits plus the shift are the written whole digits, plus one after a carry out |
| SignificantDigits.DecimalValueAsWritten | Lexer/LexicalScanner.cs:869-872 | as written, the value carries an exponent exactly when one was written |
| SignificantDigits.DecimalValueKeepsPoint | Lexer/LexicalScanner.cs:795-872 | the intended value keeps the decimal point of the written literal |
| SignificantDigits.DecimalValueAsWrittenPoint | Lexer/LexicalScanner.cs:798-872 | as written, the decimal point sits at the whole digits' count plus the written exponent and one after a carry out, less the shift (twice with an exponent) and less one when a carry out leaves no fraction |
| SignificantDigits.DecimalValueAsWrittenAgrees | Lexer/LexicalScanner.cs:798-872 | the value as written places the point where the intended value does exactly when no whole digit was dropped and no carry out emptied the fraction |
| SignificantDigits.DecimalValueAsWrittenMovesPoint | Lexer/LexicalScanner.cs:798-872 | as written, twenty-one digits lose a place without an exponent and move the point the wrong way with one; the intended value places it right |
| SignificantDigits.CarryOne | Lexer/LexicalScanner.cs:816-852 | the in-place carry loop over a digit buffer computes AddOne of the old buffer |
| SignificantDigits.RoundSignificantDigits | Lexer/LexicalScanner.cs:795-866 | the imperative truncation and rounding over digit arrays computes the rounding function |
| NumericLiterals.DecimalStepAt | Lexer/LexicalScanner.cs:700-790 | each step of the decimal loop: the dot enters the fraction; a digit is taken; `e` or `E`, with an optional sign, enters the exponent only before a digit (a `-` is kept in the exponent); otherwise the number ends |
| NumericLiterals.RadixLoopValue | Lexer/LexicalScanner.cs:954-1003 | the radix loop's value is the positional value of the digits it took, in the loop's scale |
| NumericLiterals.NumberBaseIntegerFacts | Lexer/LexicalScanner.cs:886-1006 | a binary, octal or hex literal is the source slice `0`, prefix, one or more digits; its value is the digits' positional value; no digit or name start follows |
| NumericLiterals.BinaryLiteralScaledByEight | Lexer/LexicalScanner.cs:954-975 | as written, `0b10` has value 8; as intended it has value 2 |
| NumericLiterals.LoneZeroRejected | Lexer/LexicalScanner.cs:653-670 | as written, a lone `0` is not a numeric literal; as intended it is the decimal 0 |
| NumericLiterals.DotExtendsExponent | Lexer/LexicalScanner.cs:700-790 | as written, `1e5.5` scans as one literal whose exponent is 55 |
| NumericLiterals.DotInsideExponent | Lexer/LexicalScanner.cs:700-730 | inside an exponent, a dot is taken as written and ends the number as intended |
| NumericLiterals.DotEndsExponent | Lexer/LexicalScanner.cs:700-790 | as intended, `1e5.5` scans as `1e5` with exponent 5 |
| NumericLiterals.NumericLiteralFacts | Lexer/LexicalScanner.cs:642-884 | a numeric literal is a non-empty source slice, and no name start follows it |
| NumericLiterals.DecimalSpellingRoundTrip | Lexer/LexicalScanner.cs:642-884 | scanning a decimal spelling (digits, optional fraction, optional exponent, at most twenty significant digits) gives back its parts |
| TriviaScanners.CommentFacts | Lexer/LexicalScanner.cs:439-511 | a comment is a source slice starting `//` or `/*`; a line comment stops before a line terminator (or, as written, U+FFFF); a block comment ends at its first `*/` |
| TriviaScanners.SingleLineCommentRoundTrip | Lexer/LexicalScanner.cs:439-511 | `//` and a body without line terminators scans as exactly that comment |
| TriviaScanners.MultiLineCommentRoundTrip | Lexer/LexicalScanner.cs:439-511 | `/*`, a body without `*/`, and `*/` scans as exactly that comment |
| TriviaScanners.EndUnitEndsLineComment | Lexer/LexicalScanner.cs:478-500 | as written, a literal U+FFFF ends a line comment early |
| TriviaScanners.EndUnitAbandonsBlockComment | Lexer/LexicalScanner.cs:478-500 | as written, a literal U+FFFF inside a block comment makes it no comment |
| TriviaScanners.EndUnitInsideComments | Lexer/LexicalScanner.cs:439-511 | tested by position, a literal U+FFFF is comment text like any other unit |
| TriviaScanners.CommentEndTestsAgree | Lexer/LexicalScanner.cs:439-511 | on sources without U+FFFF, the two end tests scan the same comment |
| TriviaScanners.LineTerminatorFacts | Lexer/LexicalScanner.cs:513-547 | a line terminator is found exactly at LF, CR, LS or PS; it is that one unit, or CR LF, and a lone CR is never followed by LF |
| TriviaScanners.WhiteSpaceFacts | Lexer/LexicalScanner.cs:549-586 | white space is found exactly at a white-space unit; it is the maximal run of such units |
| Punctuators.ScanPunctuator | Lexer/LexicalScanner.cs:199-436 | the punctuator switch always consumes at least one unit and stays inside the source |
| Punctuators.SwitchSpelling | Lexer/LexicalScanner.cs:199-436 | a match is a punctuator whose spelling is the peeked units up to its width; no match happens exactly at a non-punctuation unit |
| Punctuators.SwitchLongest | Lexer/LexicalScanner.cs:199-436 | when a punctuator is spelled at the cursor, the switch matches one at least as long (maximal munch) |
| Punctuators.PunctuatorSpelled | Lexer/LexicalScanner.cs:199-436 | a scanned punctuator is its spelling in the source; anything else is one invalid non-punctuation unit |
| Punctuators.PunctuatorLongest | Lexer/LexicalScanner.cs:199-436 | the scanned punctuator is at least as long as any punctuator spelled at the position |
| ItemScanner.ScannedItemFacts | Lexer/LexicalScanner.cs:45-437 | each scanned item is a token or trivia of the right kind, parented to the node; its text is the source slice it covers; as written, Invalid only for a stray unit |
| ItemScanner.NameKind | Lexer/LexicalScanner.cs:61-157 | a name becomes a token kind; it is Invalid only under the correction and only when escaped |
| ItemScanner.DivergesAtOpenString | Lexer/LexicalScanner.cs:54-57 | the item scan hangs exactly where the string scan hangs, which is only at a quote |
| ItemScanner.ScanTiles | Lexer/LexicalScanner.cs:29-43 | the scanned node is the compilation unit. Its text is the source, and its width is the source's length. Each child is positioned at the offset where its text occurs |
| ItemScanner.ScanDiverges | Lexer/LexicalScanner.cs:29-43 | when scanning fails to finish, the code as written is at fault: some quote opens a string that never ends |
| ItemScanner.EmptySourceScan | Lexer/LexicalScanner.cs:29-43 | an empty source scans to an empty compilation unit |
| ItemScanner.LoneQuoteHangs | Lexer/LexicalScanner.cs:1008-1176 | as written, a source that is only a quote never finishes scanning |
| ItemScanner.LoneQuoteInvalid | Lexer/LexicalScanner.cs:45-437 | as intended, a lone quote becomes one invalid token |
| ItemScanner.ChildText | Syntax/SyntaxNode.cs:27-38 | each child's text occurs in the node's text at the child's start offset |
| Lexer.LexicalScanner.constructor | Lexer/LexicalScanner.cs:22-25 | a new scanner holds the source, stands at position 0 and has no tree yet |
| Lexer.LexicalScanner.PeekCurrentChar | Lexer/LexicalScanner.cs:1422-1433 | returns the unit at the offset from the cursor, or U+FFFF past the end |
| Lexer.LexicalScanner.PeekCurrentString | Lexer/LexicalScanner.cs:1435-1447 | finds the string of the given length at the cursor exactly when it fits, and returns that source slice |
| Lexer.LexicalScanner.AdvancePosition | Lexer/LexicalScanner.cs:1398-1402 | moves the cursor one unit, clamped at the end, and changes nothing else |
| Lexer.LexicalScanner.AdvancePositionBy | Lexer/LexicalScanner.cs:1404-1420 | moves the cursor by the offset, clamped to the source |
| Lexer.LexicalScanner.GetCurrentCharAndAdvance | Lexer/LexicalScanner.cs:1391-1396 | returns the current unit and advances one |
| Lexer.LexicalScanner.GetCurrentUnicodeEncodedCharAndAdvance | Lexer/LexicalScanner.cs:1232-1241 | returns the escape found at the cursor and moves past its text; the cursor stays put when there is none |
| Lexer.LexicalScanner.GetCurrentHexEncodedCharAndAdvance | Lexer/LexicalScanner.cs:1266-1275 | returns the hex escape found at the cursor and moves past its text; the cursor stays put when there is none |
| Lexer.LexicalScanner.GetCurrentCommentAndAdvance | Lexer/LexicalScanner.cs:439-511 | the comment loop returns the comment scan at the old position and moves to its end; it leaves the cursor when there is no comment |
| Lexer.LexicalScanner.GetCurrentLineTerminatorSequenceAndAdvance | Lexer/LexicalScanner.cs:513-547 | returns the line terminator scan at the old position and moves to its end |
| Lexer.LexicalScanner.GetCurrentWhiteSpaceAndAdvance | Lexer/LexicalScanner.cs:549-586 | the white-space loop returns the white-space scan at the old position and moves to its end |
| Lexer.LexicalScanner.GetCurrentEscapeAndAdvance | Lexer/LexicalScanner.cs:1039-1135 | one escape in a string: the consumed text, the appended unit unless it is a line continuation, and the new cursor are those of the escape step |
| Lexer.LexicalScanner.GetCurrentStringLiteralAndAdvance | Lexer/LexicalScanner.cs:1008-1176 | the string loop returns the string scan at the old position and moves past the literal, or restores the cursor on failure |
| Lexer.LexicalScanner.GetCurrentIdentifierNameAndAdvance | Lexer/LexicalScanner.cs:1277-1377 | the name loop returns the identifier scan at the old position and moves past the name |
| Lexer.LexicalScanner.GetCurrentNumberBaseIntegerNumericLiteralAndAdvance | Lexer/LexicalScanner.cs:886-1006 | returns the radix-literal scan as written at the old position and moves past it, or restores the cursor |
| Lexer.LexicalScanner.GetNumberBaseDigitsAndAdvance | Lexer/LexicalScanner.cs:954-1003 | the digit loop computes the radix loop as written (binary in steps of 8), or restores the original position |
| Lexer.LexicalScanner.GetCurrentNumericLiteralAndAdvance | Lexer/LexicalScanner.cs:642-884 | returns the numeric scan as written at the old position and moves past the literal, or restores the cursor |
| Lexer.LexicalScanner.GetDecimalLiteralAndAdvance | Lexer/LexicalScanner.cs:700-884 | the decimal loop computes the decimal scan as written, or restores the original position |
| Lexer.LexicalScanner.DecimalLiteralValue | Lexer/LexicalScanner.cs:795-872 | the imperative rounding yields the value as written |
| Lexer.LexicalScanner.GetExponentMarkerAndAdvance | Lexer/LexicalScanner.cs:731-763 | the exponent marker and an optional sign are consumed, as the decimal step says, and the exponent is valid only when a digit follows |
| Lexer.LexicalScanner.ScanCurrentSyntaxTreeItemAndAdvance | Lexer/LexicalScanner.cs:45-437 | builds the item the dispatch scans at the old position and moves past it |
| Lexer.LexicalScanner.ScanTriviaOrPunctuatorAndAdvance | Lexer/LexicalScanner.cs:165-436 | builds the comment, line terminator, white space or punctuator item the dispatch scans and moves past it |
| Lexer.LexicalScanner.GetCurrentPunctuatorAndAdvance | Lexer/LexicalScanner.cs:199-436 | the punctuator switch returns the punctuator scan and moves past the punctuator |
| Lexer.LexicalScanner.Scan | Lexer/LexicalScanner.cs:29-43 | scanning builds the compilation unit of the pure scan. Its text is the source and its width the source's length. Its children are placed one after another |

## Left out

- double.Parse and double precision. A decimal literal's value is kept exactly, as its rounded
  whole and fraction digits plus an exponent. The conversion to a binary double is left out.
- NumericLiterals.RadixLoopValue and NumericLiterals.NumberBaseIntegerFacts: binary, octal and
  hex literals are accumulated in a C# `double` (Lexer/LexicalScanner.cs:886, 953-984), which
  rounds at each step once the value passes 2^53. The model keeps the exact natural number.
- SignificantDigits.DecimalValueAsWritten: the exponent is an unbounded integer. The `int.Parse`
  overflow of a very long exponent is not modelled.
- The Unicode category table (`char.GetUnicodeCategory`) is a parameter, constrained only so that
  U+FFFF is unassigned.
  - Lemmas that need ASCII letters to be letters (LatinLettersStartNames,
    EscapedKeywordReadAsIdentifier, DecimalSpellingRoundTrip) take that as a precondition.
  - `GetUnicodeCategoryAsciiOrLatin1` is not called by the scanner and is not modelled.
- `char.IsDigit` is modelled as the ASCII digits `0`–`9`; other Unicode decimal digits are not.
- Lexer.LexicalScanner.GetCurrentStringLiteralAndAdvance is only given inputs on which the code's
  string loop ends. On an unterminated string or a trailing backslash the C# loop never returns.
  - `ScanCurrentSyntaxTreeItemAndAdvance` and `Scan` carry the same requirement.
  - The pure model names the hang (ItemScanner.ScanDiverges) and gives the corrected scanner.
- The corrected braced escape (EncodedChars.PeekBracedEscapeCorrected) stands alone; the string
  and identifier scanners use the escape as written.
- Dead code is not modelled:
  - the null and boolean literal scanners (Lexer/LexicalScanner.cs:588-640), which no caller
    reaches;
  - `CharToString` (1386-1389).
- `SyntaxTree.cs` and every `ToString` are not modelled.
- The token subclasses that only pass arguments to their base constructor are folded into one
  item datatype: `IdentifierToken`, `KeywordToken`, `NumericLiteralToken` and the others.
  - Each item keeps its kind and a value field standing for the subclass's typed value.
- Parents are modelled as the parent's header, not an object reference. Object identity and
  aliasing of the tree are not captured.
- Punctuators.ScanPunctuator: the contract states only that the scan moves forward and stays
  inside the source. What it scans is stated by PunctuatorSpelled and PunctuatorLongest.

## Findings

| source | as written | input that shows it | evidently intended | confidence | as-written member | corrected member |
|---|---|---|---|---|---|---|
| Lexer/LexicalScanner.cs:954-975 | binary digits multiply the value by 8, as octal digits do | `0b10` has value 8 | multiply by 2, giving 2 | high, not executed | NumericLiterals.BinaryLiteralScaledByEight | NumericLiterals.NumberBaseIntegerFacts |
| Lexer/LexicalScanner.cs:61-157 | the keyword switch tests the raw text, so an escaped keyword is an identifier and the Invalid branches are unreachable | `if` is an identifier with value `if` | classify by the decoded value, so an escaped reserved word is Invalid | high, not executed | Keywords.EscapedKeywordReadAsIdentifier | Keywords.DecodedClassificationFacts |
| Lexer/LexicalScanner.cs:1206-1225 | `\u{` takes exactly four hex digits and only six units of text | `\u{0041}` leaves `1}` behind; `\u{41}` is no escape | any number of hex digits up to U+10FFFF, text through the closing brace | high, not executed | EncodedChars.BracedEscapeTakesSixUnits | EncodedChars.BracedEscapeRoundTrip |
| Lexer/LexicalScanner.cs:653-670 | a `0` not followed by `.` is numeric only with a radix prefix | `0` scans as no numeric literal | a lone `0` is the number zero | high, not executed | NumericLiterals.LoneZeroRejected | NumericLiterals.DecimalSpellingRoundTrip |
| Lexer/LexicalScanner.cs:798-872 | dropped whole digits are subtracted from the exponent, and only when an exponent was written; an all-nine carry drops a whole digit without counting it | twenty-one `1`s place the point at 20, with or without `e1` | the shift raises the exponent, written or not, and counts the dropped digit | high, not executed | SignificantDigits.DecimalValueAsWrittenMovesPoint | SignificantDigits.DecimalValueKeepsPoint |
| Lexer/LexicalScanner.cs:700-790 | the dot test does not look at whether the exponent has begun | `1e5.5` is one literal with exponent 55 | a dot ends the exponent, giving `1e5` | medium, not executed | NumericLiterals.DotExtendsExponent | NumericLiterals.DotEndsExponent |
| Lexer/LexicalScanner.cs:1023-1172 | end of input is never tested in the string loop, and advancing is clamped at the end | `"a`, `"\`, and any quote followed by plain units and the end of input, never finish scanning | reject the literal at the end of input | high, not executed | StringLiterals.UnterminatedHangs | StringLiterals.StringLiteralCorrectedAgrees |
| Lexer/LexicalScanner.cs:478-500 | the end of input is detected by the value U+FFFF | `//a` U+FFFF `b` ends the comment at U+FFFF; `/*` U+FFFF `*/` is no comment | test the position against the source length | medium, not executed | TriviaScanners.EndUnitAbandonsBlockComment | TriviaScanners.EndUnitInsideComments |
