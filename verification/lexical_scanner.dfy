/** The lexical scanner as an object: it holds the source text, the category table and a cursor,
    and its scanning methods read at the cursor and move it forward, as the lexer does. Each
    method is proved against the function of the same behaviour in the other modules. */
module Lexer {
  import opened CodeUnits
  import opened CharClasses
  import opened Cursor
  import opened EncodedChars
  import opened SyntaxKinds
  import opened SyntaxTrees
  import opened SignificantDigits
  import opened StringLiterals
  import opened Identifiers
  import opened Keywords
  import opened NumericLiterals
  import opened TriviaScanners
  import opened Punctuators
  import opened ItemScanner

  class LexicalScanner {
    const sourceCode: Utf16
    const categories: CategoryTable
    var currentPosition: nat
    /** The compilation unit of the scan under way; none before the first scan. */
    var tree: SyntaxNode?

    /** The cursor never passes the end of the source. */
    ghost predicate Valid()
      reads this
    {
      currentPosition <= |sourceCode|
    }

    constructor (sourceCode: Utf16, categories: CategoryTable)
      ensures this.sourceCode == sourceCode && this.categories == categories
      ensures currentPosition == 0 && tree == null && Valid()
    {
      this.sourceCode := sourceCode;
      this.categories := categories;
      currentPosition := 0;
      tree := null;
    }

    /** The unit `offset` places after the cursor, the end-of-input unit past the end. */
    method PeekCurrentChar(offset: nat) returns (c: CodeUnit)
      ensures c == PeekChar(sourceCode, currentPosition, offset)
      ensures c != Eof ==> currentPosition + offset < |sourceCode|
    {
      c := Eof;
      if currentPosition + offset < |sourceCode| {
        c := sourceCode[currentPosition + offset];
      }
    }

    /** The next `length` units, when that many remain. */
    method PeekCurrentString(length: nat) returns (found: bool, value: Utf16)
      ensures found == Cursor.PeekCurrentString(sourceCode, currentPosition, length).Some?
      ensures found ==> value == sourceCode[currentPosition..currentPosition + length]
      ensures !found ==> value == []
    {
      if currentPosition + length <= |sourceCode| {
        found, value := true, sourceCode[currentPosition..currentPosition + length];
      } else {
        found, value := false, [];
      }
    }

    /** One step forward; the cursor stays at the end of the source. */
    method AdvancePosition()
      requires Valid()
      modifies this
      ensures currentPosition == Cursor.AdvancePosition(sourceCode, old(currentPosition))
      ensures tree == old(tree) && Valid()
    {
      if currentPosition < |sourceCode| {
        currentPosition := currentPosition + 1;
      }
    }

    /** A jump by `offset`, clamped to the source at both ends. */
    method AdvancePositionBy(offset: int)
      requires Valid()
      modifies this
      ensures currentPosition == Cursor.AdvancePositionBy(sourceCode, old(currentPosition), offset)
      ensures tree == old(tree) && Valid()
    {
      if offset > 0 {
        if currentPosition + offset - 1 < |sourceCode| {
          currentPosition := currentPosition + offset;
        } else {
          currentPosition := |sourceCode|;
        }
      } else {
        if currentPosition + offset >= 0 {
          currentPosition := currentPosition + offset;
        } else {
          currentPosition := 0;
        }
      }
    }

    /** The unit at the cursor, stepping past it. */
    method GetCurrentCharAndAdvance() returns (c: CodeUnit)
      requires Valid()
      modifies this
      ensures c == PeekChar(sourceCode, old(currentPosition), 0)
      ensures currentPosition == Cursor.AdvancePosition(sourceCode, old(currentPosition))
      ensures tree == old(tree) && Valid()
    {
      c := PeekCurrentChar(0);
      AdvancePosition();
    }

    /** A `\u` escape at the cursor, stepped over when it is well formed. */
    method GetCurrentUnicodeEncodedCharAndAdvance() returns (found: bool, character: CodeUnit, escapeText: Utf16)
      requires Valid()
      modifies this
      ensures var e := PeekCurrentUnicodeEncodedChar(sourceCode, old(currentPosition));
              && found == e.Some?
              && (found ==> EncodedChar(character, escapeText) == e.value)
              && currentPosition == (if found then Cursor.AdvancePositionBy(sourceCode, old(currentPosition), |escapeText|)
                                     else old(currentPosition))
      ensures tree == old(tree) && Valid()
    {
      found, character, escapeText := false, 0, [];
      match PeekCurrentUnicodeEncodedChar(sourceCode, currentPosition)
      case Some(e) =>
        found, character, escapeText := true, e.unit, e.text;
        AdvancePositionBy(|escapeText|);
      case None =>
    }

    /** A `\x` escape at the cursor, stepped over when it is well formed. */
    method GetCurrentHexEncodedCharAndAdvance() returns (found: bool, character: CodeUnit, escapeText: Utf16)
      requires Valid()
      modifies this
      ensures var e := PeekCurrentHexEncodedChar(sourceCode, old(currentPosition));
              && found == e.Some?
              && (found ==> EncodedChar(character, escapeText) == e.value)
              && currentPosition == (if found then Cursor.AdvancePositionBy(sourceCode, old(currentPosition), |escapeText|)
                                     else old(currentPosition))
      ensures tree == old(tree) && Valid()
    {
      found, character, escapeText := false, 0, [];
      match PeekCurrentHexEncodedChar(sourceCode, currentPosition)
      case Some(e) =>
        found, character, escapeText := true, e.unit, e.text;
        AdvancePositionBy(|escapeText|);
      case None =>
    }

    /** A comment at the cursor, stepped over when it is found. The loop tests for the end of the
        source by the peeked unit's value, as the lexer does. */
    method GetCurrentCommentAndAdvance() returns (r: CommentScan)
      requires Valid()
      modifies this
      ensures r == GetCurrentComment(sourceCode, old(currentPosition), ByValue)
      ensures currentPosition == (if r.Comment? then r.end else old(currentPosition))
      ensures tree == old(tree) && Valid()
    {
      var originalPosition := currentPosition;
      var character := PeekCurrentChar(0);
      if character != Slash {
        return NoComment;
      }
      character := PeekCurrentChar(1);
      if character != Star && character != Slash {
        return NoComment;
      }
      var text: Utf16 := [];
      character := GetCurrentCharAndAdvance();
      text := text + [character];
      character := GetCurrentCharAndAdvance();
      text := text + [character];
      var multiLine := character == Star;
      assert text == [Slash, character] && currentPosition == originalPosition + 2;
      while true
        invariant Valid() && tree == old(tree) && originalPosition == old(currentPosition)
        invariant CommentLoop(sourceCode, currentPosition, multiLine, text, ByValue)
                  == GetCurrentComment(sourceCode, originalPosition, ByValue)
        decreases |sourceCode| - currentPosition
      {
        character := PeekCurrentChar(0);
        if multiLine {
          var next := PeekCurrentChar(1);
          if character == Star && next == Slash {
            AdvancePosition();
            text := text + [character];
            character := GetCurrentCharAndAdvance();
            text := text + [character];
            return Comment(text, true, currentPosition);
          } else if character == Eof {
            currentPosition := originalPosition;
            return NoComment;
          } else {
            AdvancePosition();
            text := text + [character];
          }
        } else {
          if IsLineTerminator(character) || character == Eof {
            return Comment(text, false, currentPosition);
          } else {
            AdvancePosition();
            text := text + [character];
          }
        }
      }
    }

    /** A line terminator sequence at the cursor, stepped over when it is found. */
    method GetCurrentLineTerminatorSequenceAndAdvance() returns (r: TriviaScan)
      requires Valid()
      modifies this
      ensures r == GetCurrentLineTerminatorSequence(sourceCode, old(currentPosition))
      ensures currentPosition == (if r.TriviaText? then r.end else old(currentPosition))
      ensures tree == old(tree) && Valid()
    {
      var text: Utf16 := [];
      var character := PeekCurrentChar(0);
      if character == LF || character == LS || character == PS {
        AdvancePosition();
        text := text + [character];
      } else if character == CR {
        AdvancePosition();
        text := text + [character];
        character := PeekCurrentChar(0);
        if character == LF {
          AdvancePosition();
          text := text + [character];
        }
      } else {
        return NoTrivia;
      }
      return TriviaText(text, currentPosition);
    }

    /** A run of white space at the cursor, stepped over when it is not empty. */
    method GetCurrentWhiteSpaceAndAdvance() returns (r: TriviaScan)
      requires Valid()
      modifies this
      ensures r == GetCurrentWhiteSpace(categories, sourceCode, old(currentPosition))
      ensures currentPosition == (if r.TriviaText? then r.end else old(currentPosition))
      ensures tree == old(tree) && Valid()
    {
      var originalPosition := currentPosition;
      var text: Utf16 := [];
      EofIsNoNameOrSpace(categories);
      while true
        invariant Valid() && tree == old(tree) && originalPosition == old(currentPosition)
        invariant originalPosition <= currentPosition
        invariant currentPosition == originalPosition ==> text == []
        invariant WhiteSpaceLoop(categories, sourceCode, currentPosition, text)
                  == WhiteSpaceLoop(categories, sourceCode, originalPosition, [])
        decreases |sourceCode| - currentPosition
      {
        var character := PeekCurrentChar(0);
        if IsWhiteSpaceUnit(categories, character) {
          AdvancePosition();
          text := text + [character];
        } else if currentPosition > originalPosition {
          return TriviaText(text, currentPosition);
        } else {
          return NoTrivia;
        }
      }
    }

    /** The escape at a backslash inside a string literal, stepped over: the units it takes, the
        unit it stands for and whether it is a line continuation, which stands for nothing. */
    method GetCurrentEscapeAndAdvance() returns (escapeText: Utf16, character: CodeUnit, isContinuation: bool)
      requires Valid() && currentPosition < |sourceCode| && sourceCode[currentPosition] == Backslash
      modifies this
      ensures EscapeStepAt(sourceCode, old(currentPosition))
              == Append(escapeText, if isContinuation then [] else [character], currentPosition)
      ensures tree == old(tree) && Valid()
    {
      character := Backslash;
      isContinuation := false;
      var next := PeekCurrentChar(1);
      if next == Unit('u') {
        var found, u;
        found, u, escapeText := GetCurrentUnicodeEncodedCharAndAdvance();
        if found {
          character := u;
        } else {
          character := GetCurrentCharAndAdvance();
          escapeText := [character];
        }
      } else if next == Unit('x') {
        var found, u;
        found, u, escapeText := GetCurrentHexEncodedCharAndAdvance();
        if found {
          character := u;
        } else {
          character := GetCurrentCharAndAdvance();
          escapeText := [character];
        }
      } else {
        escapeText := [character];
        AdvancePosition();
        character := GetCurrentCharAndAdvance();
        escapeText := escapeText + [character];
        if character == LF || character == LS || character == PS {
          isContinuation := true;
        } else if character == CR {
          isContinuation := true;
          var following := PeekCurrentChar(0);
          if following == LF {
            character := GetCurrentCharAndAdvance();
            escapeText := escapeText + [character];
          }
        } else {
          character := EscapedUnit(character);
        }
      }
    }

    /** A string literal at the cursor, stepped over when it is found. The lexer's loop never ends
        on a literal that runs to the end of the source, so the method is given only sources on
        which it ends. */
    method GetCurrentStringLiteralAndAdvance() returns (r: StringScan)
      requires Valid() && GetCurrentStringLiteral(sourceCode, currentPosition) != Hangs
      modifies this
      ensures r == GetCurrentStringLiteral(sourceCode, old(currentPosition))
      ensures currentPosition == (if r.StringLiteral? then r.end else old(currentPosition))
      ensures tree == old(tree) && Valid()
    {
      var originalPosition := currentPosition;
      var character := PeekCurrentChar(0);
      if !IsQuote(character) {
        return NoString;
      }
      AdvancePosition();
      var text := [character];
      var quote := character;
      var value: Utf16 := [];
      while true
        invariant Valid() && tree == old(tree) && originalPosition == old(currentPosition)
        invariant StringLoop(sourceCode, quote, currentPosition, text, value)
                  == GetCurrentStringLiteral(sourceCode, originalPosition)
        decreases |sourceCode| - currentPosition
      {
        character := PeekCurrentChar(0);
        if character == quote {
          AdvancePosition();
          text := text + [character];
          return StringLiteral(text, quote, value, currentPosition);
        }
        ghost var step := StringStepAt(sourceCode, quote, currentPosition);
        ghost var (pos, text0, value0) := (currentPosition, text, value);
        var isContinuation := false;
        if character == Backslash {
          var escapeText;
          escapeText, character, isContinuation := GetCurrentEscapeAndAdvance();
          text := text + escapeText;
        } else {
          if IsLineTerminator(character) {
            currentPosition := originalPosition;
            return NoString;
          }
          text := text + [character];
          AdvancePosition();
        }
        if !isContinuation {
          value := value + [character];
        }
        assert step.Append? && currentPosition == step.next
               && text == text0 + step.consumed && value == value0 + step.decoded;
      }
    }

    /** A name at the cursor, stepped over when it is found: an identifier start unit, plain or
        written as a `\u` escape, and every identifier continue unit after it. */
    method GetCurrentIdentifierNameAndAdvance() returns (r: IdentifierScan)
      requires Valid()
      modifies this
      ensures r == GetCurrentIdentifierName(categories, sourceCode, old(currentPosition))
      ensures currentPosition == (if r.IdentifierName? then r.end else old(currentPosition))
      ensures tree == old(tree) && Valid()
    {
      var originalPosition := currentPosition;
      var character := PeekCurrentChar(0);
      var escapeText: Utf16 := [character];
      var isEncoded := false;
      if character == Backslash {
        match PeekCurrentUnicodeEncodedChar(sourceCode, currentPosition)
        case None => return NoIdentifier;
        case Some(e) => character, escapeText, isEncoded := e.unit, e.text, true;
      }
      if !IsIdentifierStartChar(categories, character) {
        return NoIdentifier;
      }
      var text := escapeText;
      var escaped := isEncoded;
      AdvancePositionBy(|escapeText|);
      var value := [character];
      while true
        invariant Valid() && tree == old(tree) && originalPosition == old(currentPosition)
        invariant NameLoop(categories, sourceCode, currentPosition, text, value, escaped)
                  == GetCurrentIdentifierName(categories, sourceCode, originalPosition)
        decreases |sourceCode| - currentPosition
      {
        ghost var step := NameStepAt(categories, sourceCode, currentPosition);
        character := PeekCurrentChar(0);
        escapeText := [character];
        isEncoded := false;
        if character == Backslash {
          match PeekCurrentUnicodeEncodedChar(sourceCode, currentPosition)
          case None =>
            currentPosition := originalPosition;
            return NoIdentifier;
          case Some(e) => character, escapeText, isEncoded := e.unit, e.text, true;
        }
        if IsIdentifierContinueChar(categories, character) {
          AdvancePositionBy(|escapeText|);
          value := value + [character];
          text := text + escapeText;
          escaped := escaped || isEncoded;
          assert step == Take(escapeText, character, isEncoded, currentPosition);
        } else {
          return IdentifierName(text, value, escaped, currentPosition);
        }
      }
    }

    /** A binary, octal or hexadecimal literal at the cursor, stepped over when it is found. The
        value is accumulated digit by digit, a binary digit weighing eight as written. */
    method GetCurrentNumberBaseIntegerNumericLiteralAndAdvance(numberBase: nat) returns (r: NumericScan)
      requires Valid()
      modifies this
      ensures r == GetCurrentNumberBaseInteger(categories, sourceCode, old(currentPosition), numberBase, AsWritten)
      ensures currentPosition == (if r.NumericLiteral? then r.end else old(currentPosition))
      ensures tree == old(tree) && Valid()
    {
      var originalPosition := currentPosition;
      var character := PeekCurrentChar(0);
      if character != Unit('0') {
        return NoNumber;
      }
      character := PeekCurrentChar(1);
      if !IsRadixPrefix(numberBase, character) {
        return NoNumber;
      }
      character := PeekCurrentChar(2);
      if !IsRadixDigit(numberBase, character) {
        return NoNumber;
      }
      var text: Utf16 := [];
      character := GetCurrentCharAndAdvance();
      text := text + [character];
      character := GetCurrentCharAndAdvance();
      text := text + [character];
      assert text == sourceCode[originalPosition..originalPosition + 2];
      r := GetNumberBaseDigitsAndAdvance(numberBase, originalPosition, text);
    }

    /** The digit loop of a binary, octal or hexadecimal literal, after its prefix `text`; when
        an identifier start follows the digits the cursor goes back to `originalPosition`. */
    method GetNumberBaseDigitsAndAdvance(numberBase: nat, originalPosition: nat, prefix: Utf16) returns (r: NumericScan)
      requires Valid() && originalPosition <= currentPosition
      modifies this
      ensures r == RadixLoop(categories, sourceCode, old(currentPosition), numberBase, Scale(numberBase, AsWritten), prefix, 0)
      ensures currentPosition == (if r.NumericLiteral? then r.end else originalPosition)
      ensures tree == old(tree) && Valid()
    {
      var value: nat := 0;
      var text: Utf16 := prefix;
      var character: CodeUnit;
      ghost var scale := Scale(numberBase, AsWritten);
      while true
        invariant Valid() && tree == old(tree) && originalPosition <= currentPosition
        invariant RadixLoop(categories, sourceCode, currentPosition, numberBase, scale, text, value)
                  == RadixLoop(categories, sourceCode, old(currentPosition), numberBase, scale, prefix, 0)
        decreases |sourceCode| - currentPosition
      {
        var characterIsValid := false;
        character := PeekCurrentChar(0);
        if numberBase == 2 {
          if Unit('0') <= character <= Unit('1') {
            characterIsValid := true;
            value := value * 8 + (character - Unit('0'));
          }
        } else if numberBase == 8 {
          if Unit('0') <= character <= Unit('7') {
            characterIsValid := true;
            value := value * 8 + (character - Unit('0'));
          }
        } else if numberBase == 16 {
          if IsHexDigit(character) {
            characterIsValid := true;
            value := value * 16 + HexDigitValue(character);
          }
        }
        if characterIsValid {
          text := text + [character];
          AdvancePosition();
        } else if IsIdentifierStartChar(categories, character) {
          currentPosition := originalPosition;
          return NoNumber;
        } else {
          return NumericLiteral(text, IntegerNumber(value), currentPosition);
        }
      }
    }

    /** A numeric literal at the cursor, stepped over when it is found: a zero not followed by a
        dot must start a binary, octal or hexadecimal literal; otherwise a digit, or a dot before
        a digit, starts a decimal literal. */
    method GetCurrentNumericLiteralAndAdvance() returns (r: NumericScan)
      requires Valid()
      modifies this
      ensures r == GetCurrentNumericLiteral(categories, sourceCode, old(currentPosition), AsWritten)
      ensures currentPosition == (if r.NumericLiteral? then r.end else old(currentPosition))
      ensures tree == old(tree) && Valid()
    {
      var originalPosition := currentPosition;
      var character := PeekCurrentChar(0);
      var next := PeekCurrentChar(1);
      if character == Unit('0') && next != Unit('.') {
        if next == Unit('b') || next == Unit('B') {
          r := GetCurrentNumberBaseIntegerNumericLiteralAndAdvance(2);
        } else if next == Unit('o') || next == Unit('O') {
          r := GetCurrentNumberBaseIntegerNumericLiteralAndAdvance(8);
        } else if next == Unit('x') || next == Unit('X') {
          r := GetCurrentNumberBaseIntegerNumericLiteralAndAdvance(16);
        } else {
          r := NoNumber;
        }
      } else if character == Unit('.') && !IsDigit(next) {
        r := NoNumber;
      } else if IsDigit(character) || character == Unit('.') {
        AdvancePosition();
        r := GetDecimalLiteralAndAdvance(originalPosition, DecimalStart(character));
      } else {
        r := NoNumber;
      }
    }

    /** The loop of a decimal literal, from the builders `start`: a dot enters the fraction, a
        digit goes to the part the loop is in, an exponent marker enters the exponent, an
        identifier start rejects the literal (the cursor goes back to `originalPosition`), and
        anything else ends it, its whole and fraction digits rounded to twenty significant
        digits. */
    method GetDecimalLiteralAndAdvance(originalPosition: nat, start: DecimalParts) returns (r: NumericScan)
      requires Valid() && originalPosition <= currentPosition
      modifies this
      ensures r == DecimalLoop(categories, sourceCode, old(currentPosition), start, AsWritten)
      ensures currentPosition == (if r.NumericLiteral? then r.end else originalPosition)
      ensures tree == old(tree) && Valid()
    {
      var parts := start;
      while true
        invariant Valid() && tree == old(tree) && originalPosition <= currentPosition
        invariant DecimalLoop(categories, sourceCode, currentPosition, parts, AsWritten)
                  == DecimalLoop(categories, sourceCode, old(currentPosition), start, AsWritten)
        decreases |sourceCode| - currentPosition
      {
        ghost var step := DecimalStepAt(categories, sourceCode, currentPosition, parts.inFraction, parts.inExponent, AsWritten);
        var character := PeekCurrentChar(0);
        if character == Unit('.') && !parts.inFraction {
          assert step == EnterFraction;
          AdvancePosition();
          parts := parts.(text := parts.text + [character], inFraction := true);
        } else if IsDigit(character) {
          assert step == TakeDigit(character);
          AdvancePosition();
          if parts.inExponent {
            parts := parts.(text := parts.text + [character], exponent := parts.exponent + [character]);
          } else if parts.inFraction {
            parts := parts.(text := parts.text + [character], fraction := parts.fraction + [character]);
          } else {
            parts := parts.(text := parts.text + [character], whole := parts.whole + [character]);
          }
        } else if (character == Unit('e') || character == Unit('E')) && !parts.inExponent {
          assert step == DecimalStepAt(categories, sourceCode, currentPosition, false, false, AsWritten);
          var consumed, sign, validExponent := GetExponentMarkerAndAdvance();
          if !validExponent {
            currentPosition := originalPosition;
            return NoNumber;
          }
          parts := parts.(text := parts.text + consumed, exponent := parts.exponent + sign, inExponent := true);
        } else if IsIdentifierStartChar(categories, character) {
          currentPosition := originalPosition;
          return NoNumber;
        } else {
          var value := DecimalLiteralValue(parts.whole, parts.fraction, parts.exponent);
          return NumericLiteral(parts.text, value, currentPosition);
        }
      }
    }

    /** The value of a finished decimal literal: the whole and fraction digits rounded to twenty
        significant digits, and the written exponent less the number of whole digits dropped. */
    method DecimalLiteralValue(whole: Utf16, fraction: Utf16, exponent: Utf16) returns (value: NumericValue)
      ensures value == DecimalValueAsWritten(whole, fraction, exponent)
    {
      var w, f, shift := RoundSignificantDigits(whole, fraction);
      var exponentValue := if |exponent| > 0 then Some(ParseExponent(exponent) - shift) else None;
      value := DecimalNumber(w, f, exponentValue);
    }

    /** An exponent marker at the cursor with its sign: valid when a digit follows the marker,
        or a plus or minus sign and a digit. The units taken are stepped over; of the sign only a
        minus is kept for the exponent's digits. */
    method GetExponentMarkerAndAdvance() returns (consumed: Utf16, sign: Utf16, validExponent: bool)
      requires Valid() && currentPosition < |sourceCode|
      requires sourceCode[currentPosition] == Unit('e') || sourceCode[currentPosition] == Unit('E')
      modifies this
      ensures var s := DecimalStepAt(categories, sourceCode, old(currentPosition), false, false, AsWritten);
              && validExponent == s.EnterExponent?
              && (validExponent ==> s == EnterExponent(consumed, sign)
                                    && currentPosition == old(currentPosition) + |consumed|)
      ensures tree == old(tree) && Valid()
    {
      validExponent := true;
      var character := GetCurrentCharAndAdvance();
      consumed, sign := [character], [];
      character := PeekCurrentChar(0);
      if character == Unit('+') {
        var digit := PeekCurrentChar(1);
        if IsDigit(digit) {
          AdvancePosition();
          consumed := consumed + [character];
        } else {
          validExponent := false;
        }
      } else if character == Unit('-') {
        var digit := PeekCurrentChar(1);
        if IsDigit(digit) {
          AdvancePosition();
          consumed := consumed + [character];
          sign := sign + [character];
        } else {
          validExponent := false;
        }
      } else if IsDigit(character) {
      } else {
        validExponent := false;
      }
    }

    /** One item at the cursor, placed under the compilation unit being built and stepped over:
        the sub-scanners are tried in the lexer's order, a name is classified by the keyword
        switch, and a unit no sub-scanner claims becomes a punctuator or an invalid token. The
        method is given only cursors at which the string scanner does not run forever. */
    method ScanCurrentSyntaxTreeItemAndAdvance() returns (item: SyntaxTreeItem)
      requires Valid() && tree != null && currentPosition < |sourceCode|
      requires ScanCurrentItem(categories, sourceCode, currentPosition, Some(tree.header), AsWritten).Scanned?
      modifies this
      ensures tree == old(tree) && Valid()
      ensures ScanCurrentItem(categories, sourceCode, old(currentPosition), Some(tree.header), AsWritten)
              == Scanned(item, currentPosition)
    {
      var currentTokenPosition := currentPosition;
      var parent := Some(tree.header);
      var s := GetCurrentStringLiteralAndAdvance();
      if s.StringLiteral? {
        return NewToken(parent, StringLiteralToken, currentTokenPosition, s.text, StringValue(s.quote, s.value));
      }
      var name := GetCurrentIdentifierNameAndAdvance();
      if name.IdentifierName? {
        var t := ClassifyIdentifierName(name.text, name.value, name.escaped);
        return NewToken(parent, t.kind, currentTokenPosition, name.text, t.value);
      }
      var number := GetCurrentNumericLiteralAndAdvance();
      if number.NumericLiteral? {
        return NewToken(parent, NumericLiteralToken, currentTokenPosition, number.text, NumberValue(number.value));
      }
      item := ScanTriviaOrPunctuatorAndAdvance();
    }

    /** The rest of the dispatch: a comment, a line terminator sequence, a run of white space,
        and last the punctuator switch on the unit at the cursor and up to three units after it;
        a unit the switch does not know becomes an invalid token. */
    method ScanTriviaOrPunctuatorAndAdvance() returns (item: SyntaxTreeItem)
      requires Valid() && tree != null && currentPosition < |sourceCode|
      modifies this
      ensures tree == old(tree) && Valid()
      ensures ScanTriviaOrPunctuator(categories, sourceCode, old(currentPosition), Some(tree.header), AsWritten)
              == Scanned(item, currentPosition)
    {
      var currentTokenPosition := currentPosition;
      var parent := Some(tree.header);
      var comment := GetCurrentCommentAndAdvance();
      if comment.Comment? {
        if comment.multiLine {
          return NewTrivia(parent, MultiLineCommentTrivia, currentTokenPosition, comment.text);
        } else {
          return NewTrivia(parent, SingleLineCommentTrivia, currentTokenPosition, comment.text);
        }
      }
      var lineTerminator := GetCurrentLineTerminatorSequenceAndAdvance();
      if lineTerminator.TriviaText? {
        return NewTrivia(parent, EndOfLineTrivia, currentTokenPosition, lineTerminator.text);
      }
      var whiteSpace := GetCurrentWhiteSpaceAndAdvance();
      if whiteSpace.TriviaText? {
        return NewTrivia(parent, WhitespaceTrivia, currentTokenPosition, whiteSpace.text);
      }
      var punctuator := GetCurrentPunctuatorAndAdvance();
      match punctuator
      case Punctuator(kind, _) => return NewPunctuator(parent, currentTokenPosition, kind);
      case InvalidUnit(character, _) => return NewCharToken(parent, Invalid, currentTokenPosition, character);
    }

    /** The punctuator switch on the unit at the cursor and up to three units after it, stepping
        over the punctuator it picks, or over the one unit it does not know. */
    method GetCurrentPunctuatorAndAdvance() returns (r: PunctuatorScan)
      requires Valid() && currentPosition < |sourceCode|
      modifies this
      ensures r == ScanPunctuator(sourceCode, old(currentPosition)) && currentPosition == r.end
      ensures tree == old(tree) && Valid()
    {
      var currentTokenPosition := currentPosition;
      var character := GetCurrentCharAndAdvance();
      var n1 := PeekCurrentChar(0);
      var n2 := PeekCurrentChar(1);
      var n3 := PeekCurrentChar(2);
      assert n1 == PeekChar(sourceCode, currentTokenPosition, 1) && n2 == PeekChar(sourceCode, currentTokenPosition, 2)
             && n3 == PeekChar(sourceCode, currentTokenPosition, 3);
      match SwitchPunctuator(character, n1, n2, n3)
      case Matched(kind, width) =>
        SwitchSpelling(character, n1, n2, n3);
        RunInside(sourceCode, currentTokenPosition, width);
        AdvancePositionBy(width - 1);
        r := Punctuator(kind, currentPosition);
      case NoMatch =>
        r := InvalidUnit(character, currentPosition);
    }

    /** The whole scan: the cursor goes back to the start, a new compilation unit at offset 0
        under `parent` becomes the tree, and every item scanned is appended to its children until
        the cursor reaches the end of the source. The method is given only sources on which the
        lexer's loop ends. */
    method Scan(parent: Option<ItemHeader>) returns (result: SyntaxNode)
      requires ItemScanner.Scan(categories, sourceCode, parent, AsWritten).Some?
      modifies this
      ensures fresh(result) && tree == result && Valid()
      ensures ItemScanner.Scan(categories, sourceCode, parent, AsWritten) == Some(result.Item())
      ensures result.header == UnitHeader(parent)
      ensures Text(result.Item()) == sourceCode && Width(result.Item()) == |sourceCode|
      ensures WellPlaced(result.children, Some(result.header))
    {
      currentPosition := 0;
      var node := new SyntaxNode(parent, CompilationUnit, 0);
      tree := node;
      while currentPosition < |sourceCode|
        invariant Valid() && tree == node && fresh(node) && node.header == UnitHeader(parent)
        invariant ScanLoop(categories, sourceCode, currentPosition, Some(node.header), AsWritten, node.children)
                  == ScanLoop(categories, sourceCode, 0, Some(node.header), AsWritten, [])
        invariant ScanLoop(categories, sourceCode, 0, Some(node.header), AsWritten, []).Some?
        decreases |sourceCode| - currentPosition
      {
        ghost var position := currentPosition;
        ScannedItemFacts(categories, sourceCode, currentPosition, Some(node.header), AsWritten);
        var item := ScanCurrentSyntaxTreeItemAndAdvance();
        node.Add(item);
        assert position < currentPosition;
      }
      result := node;
      ScanTiles(categories, sourceCode, parent, AsWritten);
    }
  }
}
