/** The punctuator switch: the last resort of the scanner, taking the longest punctuator that
    starts at the cursor, or a single invalid unit. */
module Punctuators {
  import opened CodeUnits
  import opened Cursor
  import opened SyntaxKinds

  /** A punctuator of the given kind ending at `end`, or one unit no punctuator starts with. */
  datatype PunctuatorScan = Punctuator(kind: SyntaxKind, end: nat) | InvalidUnit(unit: CodeUnit, end: nat)

  datatype Switched = Matched(kind: SyntaxKind, width: nat) | NoMatch

  /** The switch on the unit at the cursor `c` and the three units peeked after it: the kind
      picked and how many units it takes. */
  function SwitchPunctuator(c: CodeUnit, n1: CodeUnit, n2: CodeUnit, n3: CodeUnit): Switched
  {
    if c == '{' as CodeUnit then Matched(OpenBraceToken, 1)
    else if c == '}' as CodeUnit then Matched(CloseBraceToken, 1)
    else if c == '(' as CodeUnit then Matched(OpenParenToken, 1)
    else if c == ')' as CodeUnit then Matched(CloseParenToken, 1)
    else if c == '[' as CodeUnit then Matched(OpenBracketToken, 1)
    else if c == ']' as CodeUnit then Matched(CloseBracketToken, 1)
    else if c == '.' as CodeUnit then
      if n1 == '.' as CodeUnit && n2 == '.' as CodeUnit then Matched(DotDotDotToken, 3)
      else Matched(DotToken, 1)
    else if c == ';' as CodeUnit then Matched(SemicolonToken, 1)
    else if c == ',' as CodeUnit then Matched(CommaToken, 1)
    else if c == '<' as CodeUnit then
      if n1 == '=' as CodeUnit then Matched(LessThanEqualsToken, 2)
      else if n1 == '<' as CodeUnit then
        if n2 == '=' as CodeUnit then Matched(LessThanLessThanEqualsToken, 3)
        else Matched(LessThanLessThanToken, 2)
      else Matched(LessThanToken, 1)
    else if c == '>' as CodeUnit then
      if n1 == '=' as CodeUnit then Matched(GreaterThanEqualsToken, 2)
      else if n1 == '>' as CodeUnit then
        if n2 == '=' as CodeUnit then Matched(GreaterThanGreaterThanEqualsToken, 3)
        else if n2 == '>' as CodeUnit then
          if n3 == '=' as CodeUnit then Matched(GreaterThanGreaterThanGreaterThanEqualsToken, 4)
          else Matched(GreaterThanGreaterThanGreaterThanToken, 3)
        else Matched(GreaterThanGreaterThanToken, 2)
      else Matched(GreaterThanToken, 1)
    else if c == '+' as CodeUnit then
      if n1 == '=' as CodeUnit then Matched(PlusEqualsToken, 2)
      else if n1 == '+' as CodeUnit then Matched(PlusPlusToken, 2)
      else Matched(PlusToken, 1)
    else if c == '-' as CodeUnit then
      if n1 == '=' as CodeUnit then Matched(MinusEqualsToken, 2)
      else if n1 == '-' as CodeUnit then Matched(MinusMinusToken, 2)
      else Matched(MinusToken, 1)
    else if c == '*' as CodeUnit then
      if n1 == '=' as CodeUnit then Matched(AsteriskEqualsToken, 2)
      else Matched(AsteriskToken, 1)
    else if c == '%' as CodeUnit then
      if n1 == '=' as CodeUnit then Matched(PercentEqualsToken, 2)
      else Matched(PercentToken, 1)
    else if c == '&' as CodeUnit then
      if n1 == '=' as CodeUnit then Matched(AmpersandEqualsToken, 2)
      else if n1 == '&' as CodeUnit then Matched(AmpersandAmpersandToken, 2)
      else Matched(AmpersandToken, 1)
    else if c == '|' as CodeUnit then
      if n1 == '=' as CodeUnit then Matched(BarEqualsToken, 2)
      else if n1 == '|' as CodeUnit then Matched(BarBarToken, 2)
      else Matched(BarToken, 1)
    else if c == '^' as CodeUnit then
      if n1 == '=' as CodeUnit then Matched(CaretEqualsToken, 2)
      else Matched(CaretToken, 1)
    else if c == '!' as CodeUnit then
      if n1 == '=' as CodeUnit then
        if n2 == '=' as CodeUnit then Matched(ExclamationEqualsEqualsToken, 3)
        else Matched(ExclamationEqualsToken, 2)
      else Matched(ExclamationToken, 1)
    else if c == '~' as CodeUnit then Matched(TildeToken, 1)
    else if c == '?' as CodeUnit then Matched(QuestionToken, 1)
    else if c == ':' as CodeUnit then Matched(ColonToken, 1)
    else if c == '=' as CodeUnit then
      if n1 == '=' as CodeUnit then
        if n2 == '=' as CodeUnit then Matched(EqualsEqualsEqualsToken, 3)
        else Matched(EqualsEqualsToken, 2)
      else if n1 == '>' as CodeUnit then Matched(EqualsGreaterThanToken, 2)
      else Matched(EqualsToken, 1)
    else if c == '/' as CodeUnit then
      if n1 == '=' as CodeUnit then Matched(SlashEqualsToken, 2)
      else Matched(SlashToken, 1)
    else NoMatch
  }

  /** The unit at the cursor as a punctuator, the longest the switch recognises, or as an invalid
      unit. */
  function ScanPunctuator(src: Utf16, pos: nat): (r: PunctuatorScan)
    requires pos < |src|
    ensures pos < r.end <= |src|
  {
    var c, n1, n2, n3 := src[pos], PeekChar(src, pos, 1), PeekChar(src, pos, 2), PeekChar(src, pos, 3);
    match SwitchPunctuator(c, n1, n2, n3)
    case Matched(kind, width) =>
      SwitchSpelling(c, n1, n2, n3);
      ConvertToStringUnits(kind);
      RunInside(src, pos, width);
      Punctuator(kind, pos + width)
    case NoMatch => InvalidUnit(c, pos + 1)
  }

  /** The spelling of what the switch picks is the first units it was shown; it finds nothing
      only for a unit that is no punctuation unit. */
  lemma SwitchSpelling(c: CodeUnit, n1: CodeUnit, n2: CodeUnit, n3: CodeUnit)
    ensures var r := SwitchPunctuator(c, n1, n2, n3);
            && (r.Matched? ==> IsPunctuator(r.kind) && 1 <= r.width <= 4 && ConvertToString(r.kind) == [c, n1, n2, n3][..r.width])
            && (r.NoMatch? <==> !IsPunctuationUnit(c))
  {
    if c == '{' as CodeUnit || c == '}' as CodeUnit || c == '(' as CodeUnit || c == ')' as CodeUnit || c == '[' as CodeUnit || c == ']' as CodeUnit {
      SwitchSpellingPart0(c, n1, n2, n3);
    }     else if c == '.' as CodeUnit || c == ';' as CodeUnit || c == ',' as CodeUnit {
      SwitchSpellingPart1(c, n1, n2, n3);
    }     else if c == '<' as CodeUnit {
      SwitchSpellingPart2(c, n1, n2, n3);
    }     else if c == '>' as CodeUnit {
      SwitchSpellingPart3(c, n1, n2, n3);
    }     else if c == '+' as CodeUnit || c == '-' as CodeUnit {
      SwitchSpellingPart4(c, n1, n2, n3);
    }     else if c == '*' as CodeUnit || c == '%' as CodeUnit || c == '^' as CodeUnit {
      SwitchSpellingPart5(c, n1, n2, n3);
    }     else if c == '&' as CodeUnit || c == '|' as CodeUnit {
      SwitchSpellingPart6(c, n1, n2, n3);
    }     else if c == '!' as CodeUnit || c == '~' as CodeUnit || c == '?' as CodeUnit || c == ':' as CodeUnit {
      SwitchSpellingPart7(c, n1, n2, n3);
    }     else if c == '=' as CodeUnit {
      SwitchSpellingPart8(c, n1, n2, n3);
    }     else if c == '/' as CodeUnit {
      SwitchSpellingPart9(c, n1, n2, n3);
    } else {
      assert SwitchPunctuator(c, n1, n2, n3) == NoMatch;
    }
  }

  /* The parts below share SwitchSpelling's ensures, each for a group of leading units. The
     split keeps every proof obligation small; one lemma over the whole switch is too costly
     for the solver. */
  lemma SwitchSpellingPart0(c: CodeUnit, n1: CodeUnit, n2: CodeUnit, n3: CodeUnit)
    requires c == '{' as CodeUnit || c == '}' as CodeUnit || c == '(' as CodeUnit || c == ')' as CodeUnit || c == '[' as CodeUnit || c == ']' as CodeUnit
    ensures var r := SwitchPunctuator(c, n1, n2, n3);
            && (r.Matched? ==> IsPunctuator(r.kind) && 1 <= r.width <= 4 && ConvertToString(r.kind) == [c, n1, n2, n3][..r.width])
            && (r.NoMatch? <==> !IsPunctuationUnit(c))
  {
    var u := [c, n1, n2, n3];
    assert u[..1] == [c] && u[..2] == [c, n1] && u[..3] == [c, n1, n2];
  }

  lemma SwitchSpellingPart1(c: CodeUnit, n1: CodeUnit, n2: CodeUnit, n3: CodeUnit)
    requires c == '.' as CodeUnit || c == ';' as CodeUnit || c == ',' as CodeUnit
    ensures var r := SwitchPunctuator(c, n1, n2, n3);
            && (r.Matched? ==> IsPunctuator(r.kind) && 1 <= r.width <= 4 && ConvertToString(r.kind) == [c, n1, n2, n3][..r.width])
            && (r.NoMatch? <==> !IsPunctuationUnit(c))
  {
    var u := [c, n1, n2, n3];
    assert u[..1] == [c] && u[..2] == [c, n1] && u[..3] == [c, n1, n2];
  }

  lemma SwitchSpellingPart2(c: CodeUnit, n1: CodeUnit, n2: CodeUnit, n3: CodeUnit)
    requires c == '<' as CodeUnit
    ensures var r := SwitchPunctuator(c, n1, n2, n3);
            && (r.Matched? ==> IsPunctuator(r.kind) && 1 <= r.width <= 4 && ConvertToString(r.kind) == [c, n1, n2, n3][..r.width])
            && (r.NoMatch? <==> !IsPunctuationUnit(c))
  {
    var u := [c, n1, n2, n3];
    assert u[..1] == [c] && u[..2] == [c, n1] && u[..3] == [c, n1, n2];
  }

  lemma SwitchSpellingPart3(c: CodeUnit, n1: CodeUnit, n2: CodeUnit, n3: CodeUnit)
    requires c == '>' as CodeUnit
    ensures var r := SwitchPunctuator(c, n1, n2, n3);
            && (r.Matched? ==> IsPunctuator(r.kind) && 1 <= r.width <= 4 && ConvertToString(r.kind) == [c, n1, n2, n3][..r.width])
            && (r.NoMatch? <==> !IsPunctuationUnit(c))
  {
    if n1 == '>' as CodeUnit {
      SwitchSpellingShift(c, n1, n2, n3);
    } else {
      var u := [c, n1, n2, n3];
      assert u[..1] == [c] && u[..2] == [c, n1];
    }
  }

  lemma SwitchSpellingShift(c: CodeUnit, n1: CodeUnit, n2: CodeUnit, n3: CodeUnit)
    requires c == '>' as CodeUnit && n1 == '>' as CodeUnit
    ensures var r := SwitchPunctuator(c, n1, n2, n3);
            && (r.Matched? ==> IsPunctuator(r.kind) && 1 <= r.width <= 4 && ConvertToString(r.kind) == [c, n1, n2, n3][..r.width])
            && (r.NoMatch? <==> !IsPunctuationUnit(c))
  {
    if n2 == '>' as CodeUnit {
      SwitchSpellingUnsignedShift(c, n1, n2, n3);
    } else {
      var u := [c, n1, n2, n3];
      assert u[..2] == [c, n1] && u[..3] == [c, n1, n2];
    }
  }

  lemma SwitchSpellingUnsignedShift(c: CodeUnit, n1: CodeUnit, n2: CodeUnit, n3: CodeUnit)
    requires c == '>' as CodeUnit && n1 == '>' as CodeUnit && n2 == '>' as CodeUnit
    ensures var r := SwitchPunctuator(c, n1, n2, n3);
            && (r.Matched? ==> IsPunctuator(r.kind) && 1 <= r.width <= 4 && ConvertToString(r.kind) == [c, n1, n2, n3][..r.width])
            && (r.NoMatch? <==> !IsPunctuationUnit(c))
  {
    var u := [c, n1, n2, n3];
    assert u[..3] == [c, n1, n2];
  }

  lemma SwitchSpellingPart4(c: CodeUnit, n1: CodeUnit, n2: CodeUnit, n3: CodeUnit)
    requires c == '+' as CodeUnit || c == '-' as CodeUnit
    ensures var r := SwitchPunctuator(c, n1, n2, n3);
            && (r.Matched? ==> IsPunctuator(r.kind) && 1 <= r.width <= 4 && ConvertToString(r.kind) == [c, n1, n2, n3][..r.width])
            && (r.NoMatch? <==> !IsPunctuationUnit(c))
  {
    var u := [c, n1, n2, n3];
    assert u[..1] == [c] && u[..2] == [c, n1] && u[..3] == [c, n1, n2];
  }

  lemma SwitchSpellingPart5(c: CodeUnit, n1: CodeUnit, n2: CodeUnit, n3: CodeUnit)
    requires c == '*' as CodeUnit || c == '%' as CodeUnit || c == '^' as CodeUnit
    ensures var r := SwitchPunctuator(c, n1, n2, n3);
            && (r.Matched? ==> IsPunctuator(r.kind) && 1 <= r.width <= 4 && ConvertToString(r.kind) == [c, n1, n2, n3][..r.width])
            && (r.NoMatch? <==> !IsPunctuationUnit(c))
  {
    var u := [c, n1, n2, n3];
    assert u[..1] == [c] && u[..2] == [c, n1] && u[..3] == [c, n1, n2];
  }

  lemma SwitchSpellingPart6(c: CodeUnit, n1: CodeUnit, n2: CodeUnit, n3: CodeUnit)
    requires c == '&' as CodeUnit || c == '|' as CodeUnit
    ensures var r := SwitchPunctuator(c, n1, n2, n3);
            && (r.Matched? ==> IsPunctuator(r.kind) && 1 <= r.width <= 4 && ConvertToString(r.kind) == [c, n1, n2, n3][..r.width])
            && (r.NoMatch? <==> !IsPunctuationUnit(c))
  {
    var u := [c, n1, n2, n3];
    assert u[..1] == [c] && u[..2] == [c, n1] && u[..3] == [c, n1, n2];
  }

  lemma SwitchSpellingPart7(c: CodeUnit, n1: CodeUnit, n2: CodeUnit, n3: CodeUnit)
    requires c == '!' as CodeUnit || c == '~' as CodeUnit || c == '?' as CodeUnit || c == ':' as CodeUnit
    ensures var r := SwitchPunctuator(c, n1, n2, n3);
            && (r.Matched? ==> IsPunctuator(r.kind) && 1 <= r.width <= 4 && ConvertToString(r.kind) == [c, n1, n2, n3][..r.width])
            && (r.NoMatch? <==> !IsPunctuationUnit(c))
  {
    var u := [c, n1, n2, n3];
    assert u[..1] == [c] && u[..2] == [c, n1] && u[..3] == [c, n1, n2];
  }

  lemma SwitchSpellingPart8(c: CodeUnit, n1: CodeUnit, n2: CodeUnit, n3: CodeUnit)
    requires c == '=' as CodeUnit
    ensures var r := SwitchPunctuator(c, n1, n2, n3);
            && (r.Matched? ==> IsPunctuator(r.kind) && 1 <= r.width <= 4 && ConvertToString(r.kind) == [c, n1, n2, n3][..r.width])
            && (r.NoMatch? <==> !IsPunctuationUnit(c))
  {
    var u := [c, n1, n2, n3];
    assert u[..1] == [c] && u[..2] == [c, n1] && u[..3] == [c, n1, n2];
  }

  lemma SwitchSpellingPart9(c: CodeUnit, n1: CodeUnit, n2: CodeUnit, n3: CodeUnit)
    requires c == '/' as CodeUnit
    ensures var r := SwitchPunctuator(c, n1, n2, n3);
            && (r.Matched? ==> IsPunctuator(r.kind) && 1 <= r.width <= 4 && ConvertToString(r.kind) == [c, n1, n2, n3][..r.width])
            && (r.NoMatch? <==> !IsPunctuationUnit(c))
  {
    var u := [c, n1, n2, n3];
    assert u[..1] == [c] && u[..2] == [c, n1] && u[..3] == [c, n1, n2];
  }

  /** The units the switch takes lie inside the source: none of them is the end-of-input
      unit. */
  lemma RunInside(src: Utf16, pos: nat, width: nat)
    requires pos < |src| && 1 <= width <= 4
    requires var u := [src[pos], PeekChar(src, pos, 1), PeekChar(src, pos, 2), PeekChar(src, pos, 3)];
             forall i :: 0 <= i < width ==> IsPunctuationUnit(u[i])
    ensures pos + width <= |src|
    ensures src[pos..pos + width] == [src[pos], PeekChar(src, pos, 1), PeekChar(src, pos, 2), PeekChar(src, pos, 3)][..width]
  {
    var u := [src[pos], PeekChar(src, pos, 1), PeekChar(src, pos, 2), PeekChar(src, pos, 3)];
    assert !IsPunctuationUnit(Eof);
    assert IsPunctuationUnit(u[width - 1]);
    assert PeekChar(src, pos, width - 1) != Eof;
  }

  /** Maximal munch on units: whenever the units shown begin with a punctuator's spelling, the
      switch picks a punctuator at least as long. */
  lemma SwitchLongest(c: CodeUnit, n1: CodeUnit, n2: CodeUnit, n3: CodeUnit, k: SyntaxKind)
    requires IsPunctuator(k)
    requires var t := ConvertToString(k); |t| <= 4 && t == [c, n1, n2, n3][..|t|]
    ensures var r := SwitchPunctuator(c, n1, n2, n3);
            r.Matched? && |ConvertToString(k)| <= r.width
  {
    match k {
      case OpenBraceToken | CloseBraceToken | OpenParenToken | CloseParenToken | OpenBracketToken | CloseBracketToken | DotToken | SemicolonToken => SwitchLongestPart0(c, n1, n2, n3, k);
      case CommaToken | LessThanToken | GreaterThanToken | PlusToken | MinusToken | AsteriskToken | PercentToken | AmpersandToken => SwitchLongestPart1(c, n1, n2, n3, k);
      case BarToken | CaretToken | ExclamationToken | TildeToken | QuestionToken | ColonToken | EqualsToken | SlashToken => SwitchLongestPart2(c, n1, n2, n3, k);
      case LessThanEqualsToken | LessThanLessThanToken | GreaterThanEqualsToken | GreaterThanGreaterThanToken | EqualsEqualsToken | EqualsGreaterThanToken | ExclamationEqualsToken | PlusEqualsToken | PlusPlusToken | MinusEqualsToken => SwitchLongestPart3(c, n1, n2, n3, k);
      case MinusMinusToken | AsteriskEqualsToken | PercentEqualsToken | AmpersandEqualsToken => SwitchLongestPart4(c, n1, n2, n3, k);
      case AmpersandAmpersandToken | BarEqualsToken | BarBarToken | CaretEqualsToken | SlashEqualsToken => SwitchLongestPart4b(c, n1, n2, n3, k);
      case DotDotDotToken | EqualsEqualsEqualsToken | ExclamationEqualsEqualsToken | GreaterThanGreaterThanEqualsToken | GreaterThanGreaterThanGreaterThanToken | LessThanLessThanEqualsToken => SwitchLongestPart5(c, n1, n2, n3, k);
      case GreaterThanGreaterThanGreaterThanEqualsToken => SwitchLongestPart6(c, n1, n2, n3, k);
      case _ =>
    }
  }

  /* As for SwitchSpelling, the parts share SwitchLongest's ensures, each for a group of
     kinds, to keep every proof obligation small. */
  lemma SwitchLongestPart0(c: CodeUnit, n1: CodeUnit, n2: CodeUnit, n3: CodeUnit, k: SyntaxKind)
    requires k.OpenBraceToken? || k.CloseBraceToken? || k.OpenParenToken? || k.CloseParenToken? || k.OpenBracketToken? || k.CloseBracketToken? || k.DotToken? || k.SemicolonToken?
    requires var t := ConvertToString(k); |t| <= 4 && t == [c, n1, n2, n3][..|t|]
    ensures var r := SwitchPunctuator(c, n1, n2, n3);
            r.Matched? && |ConvertToString(k)| <= r.width
  {
    var t := ConvertToString(k);
    assert |t| == 1;
    assert c == t[0];
  }

  lemma SwitchLongestPart1(c: CodeUnit, n1: CodeUnit, n2: CodeUnit, n3: CodeUnit, k: SyntaxKind)
    requires k.CommaToken? || k.LessThanToken? || k.GreaterThanToken? || k.PlusToken? || k.MinusToken? || k.AsteriskToken? || k.PercentToken? || k.AmpersandToken?
    requires var t := ConvertToString(k); |t| <= 4 && t == [c, n1, n2, n3][..|t|]
    ensures var r := SwitchPunctuator(c, n1, n2, n3);
            r.Matched? && |ConvertToString(k)| <= r.width
  {
    var t := ConvertToString(k);
    assert |t| == 1;
    assert c == t[0];
  }

  lemma SwitchLongestPart2(c: CodeUnit, n1: CodeUnit, n2: CodeUnit, n3: CodeUnit, k: SyntaxKind)
    requires k.BarToken? || k.CaretToken? || k.ExclamationToken? || k.TildeToken? || k.QuestionToken? || k.ColonToken? || k.EqualsToken? || k.SlashToken?
    requires var t := ConvertToString(k); |t| <= 4 && t == [c, n1, n2, n3][..|t|]
    ensures var r := SwitchPunctuator(c, n1, n2, n3);
            r.Matched? && |ConvertToString(k)| <= r.width
  {
    var t := ConvertToString(k);
    assert |t| == 1;
    assert c == t[0];
  }

  lemma SwitchLongestPart3(c: CodeUnit, n1: CodeUnit, n2: CodeUnit, n3: CodeUnit, k: SyntaxKind)
    requires k.LessThanEqualsToken? || k.LessThanLessThanToken? || k.GreaterThanEqualsToken? || k.GreaterThanGreaterThanToken? || k.EqualsEqualsToken? || k.EqualsGreaterThanToken? || k.ExclamationEqualsToken? || k.PlusEqualsToken? || k.PlusPlusToken? || k.MinusEqualsToken?
    requires var t := ConvertToString(k); |t| <= 4 && t == [c, n1, n2, n3][..|t|]
    ensures var r := SwitchPunctuator(c, n1, n2, n3);
            r.Matched? && |ConvertToString(k)| <= r.width
  {
    var t := ConvertToString(k);
    assert |t| == 2;
    assert c == t[0] && n1 == t[1];
  }

  lemma SwitchLongestPart4(c: CodeUnit, n1: CodeUnit, n2: CodeUnit, n3: CodeUnit, k: SyntaxKind)
    requires k.MinusMinusToken? || k.AsteriskEqualsToken? || k.PercentEqualsToken? || k.AmpersandEqualsToken?
    requires var t := ConvertToString(k); |t| <= 4 && t == [c, n1, n2, n3][..|t|]
    ensures var r := SwitchPunctuator(c, n1, n2, n3);
            r.Matched? && |ConvertToString(k)| <= r.width
  {
    var t := ConvertToString(k);
    assert |t| == 2;
    assert c == t[0] && n1 == t[1];
  }

  lemma SwitchLongestPart4b(c: CodeUnit, n1: CodeUnit, n2: CodeUnit, n3: CodeUnit, k: SyntaxKind)
    requires k.AmpersandAmpersandToken? || k.BarEqualsToken? || k.BarBarToken? || k.CaretEqualsToken? || k.SlashEqualsToken?
    requires var t := ConvertToString(k); |t| <= 4 && t == [c, n1, n2, n3][..|t|]
    ensures var r := SwitchPunctuator(c, n1, n2, n3);
            r.Matched? && |ConvertToString(k)| <= r.width
  {
    var t := ConvertToString(k);
    assert |t| == 2;
    assert c == t[0] && n1 == t[1];
  }

  lemma SwitchLongestPart5(c: CodeUnit, n1: CodeUnit, n2: CodeUnit, n3: CodeUnit, k: SyntaxKind)
    requires k.DotDotDotToken? || k.EqualsEqualsEqualsToken? || k.ExclamationEqualsEqualsToken? || k.GreaterThanGreaterThanEqualsToken? || k.GreaterThanGreaterThanGreaterThanToken? || k.LessThanLessThanEqualsToken?
    requires var t := ConvertToString(k); |t| <= 4 && t == [c, n1, n2, n3][..|t|]
    ensures var r := SwitchPunctuator(c, n1, n2, n3);
            r.Matched? && |ConvertToString(k)| <= r.width
  {
    var t := ConvertToString(k);
    assert |t| == 3;
    assert c == t[0] && n1 == t[1] && n2 == t[2];
  }

  lemma SwitchLongestPart6(c: CodeUnit, n1: CodeUnit, n2: CodeUnit, n3: CodeUnit, k: SyntaxKind)
    requires k.GreaterThanGreaterThanGreaterThanEqualsToken?
    requires var t := ConvertToString(k); |t| <= 4 && t == [c, n1, n2, n3][..|t|]
    ensures var r := SwitchPunctuator(c, n1, n2, n3);
            r.Matched? && |ConvertToString(k)| <= r.width
  {
    var t := ConvertToString(k);
    assert |t| == 4;
    assert c == t[0] && n1 == t[1] && n2 == t[2] && n3 == t[3];
  }

  /** `t` is spelled in the source at `pos`. */
  predicate SpelledAt(t: Utf16, src: Utf16, pos: nat)
  {
    pos + |t| <= |src| && src[pos..pos + |t|] == t
  }

  /** What the scanner takes at the cursor: a punctuator of one to four units whose spelling is
      the run from the cursor, or the single unit at the cursor, which is no punctuation unit. */
  lemma PunctuatorSpelled(src: Utf16, pos: nat)
    requires pos < |src|
    ensures var r := ScanPunctuator(src, pos);
            && r.end <= pos + 4
            && (r.Punctuator? ==> IsPunctuator(r.kind) && src[pos..r.end] == ConvertToString(r.kind))
            && (r.InvalidUnit? ==> r.unit == src[pos] && r.end == pos + 1 && !IsPunctuationUnit(r.unit))
  {
    var c, n1, n2, n3 := src[pos], PeekChar(src, pos, 1), PeekChar(src, pos, 2), PeekChar(src, pos, 3);
    SwitchSpelling(c, n1, n2, n3);
    match SwitchPunctuator(c, n1, n2, n3)
    case Matched(kind, width) =>
      ConvertToStringUnits(kind);
      RunInside(src, pos, width);
    case NoMatch =>
  }

  /** Maximal munch: every punctuator spelled at the cursor is found, and none longer than the one
      taken; where an invalid unit is taken no punctuator is spelled. */
  lemma PunctuatorLongest(src: Utf16, pos: nat, k: SyntaxKind)
    requires pos < |src| && IsPunctuator(k) && SpelledAt(ConvertToString(k), src, pos)
    ensures var r := ScanPunctuator(src, pos);
            r.Punctuator? && |ConvertToString(k)| <= r.end - pos
  {
    var t := ConvertToString(k);
    var u := [src[pos], PeekChar(src, pos, 1), PeekChar(src, pos, 2), PeekChar(src, pos, 3)];
    ConvertToStringLength(k);
    assert forall i :: 0 <= i < |t| ==> t[i] == src[pos + i] == u[i];
    assert t == u[..|t|];
    SwitchLongest(u[0], u[1], u[2], u[3], k);
  }
}
