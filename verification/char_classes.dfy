/** The character predicates of the scanner: hex digits, Pattern_Syntax, Pattern_White_Space,
    identifier start and continue characters and white space. */
module CharClasses {
  import opened CodeUnits

  /** The general categories of the .NET UnicodeCategory enumeration. */
  datatype UnicodeCategory =
    | UppercaseLetter | LowercaseLetter | TitlecaseLetter | ModifierLetter | OtherLetter
    | NonSpacingMark | SpacingCombiningMark | EnclosingMark
    | DecimalDigitNumber | LetterNumber | OtherNumber
    | SpaceSeparator | LineSeparator | ParagraphSeparator
    | Control | Format | Surrogate | PrivateUse
    | ConnectorPunctuation | DashPunctuation | OpenPunctuation | ClosePunctuation
    | InitialQuotePunctuation | FinalQuotePunctuation | OtherPunctuation
    | MathSymbol | CurrencySymbol | ModifierSymbol | OtherSymbol
    | OtherNotAssigned

  /** The library's category lookup, taken as a parameter of the scanner. The one fact the model
      relies on is that U+FFFF, a noncharacter, is unassigned. */
  type CategoryTable = f: CodeUnit -> UnicodeCategory | f(Eof) == OtherNotAssigned
    witness (c: CodeUnit) => OtherNotAssigned

  predicate IsHexDigit(c: CodeUnit)
  {
    ('0' as CodeUnit <= c <= '9' as CodeUnit)
    || ('A' as CodeUnit <= c <= 'F' as CodeUnit)
    || ('a' as CodeUnit <= c <= 'f' as CodeUnit)
  }

  /** The value of one hexadecimal digit, in either letter case. */
  function HexDigitValue(c: CodeUnit): (v: int)
    requires IsHexDigit(c)
    ensures 0 <= v < 16
    ensures IsDigit(c) ==> v == c - '0' as CodeUnit
  {
    if c <= '9' as CodeUnit then c - '0' as CodeUnit
    else if c <= 'F' as CodeUnit then c - 'A' as CodeUnit + 10
    else c - 'a' as CodeUnit + 10
  }

  /** The hexadecimal digit, upper case, for a value below 16. */
  function HexDigitOf(v: int): (c: CodeUnit)
    requires 0 <= v < 16
    ensures IsHexDigit(c) && HexDigitValue(c) == v
  {
    if v < 10 then '0' as CodeUnit + v else 'A' as CodeUnit + (v - 10)
  }

  /** The Pattern_Syntax units of the Basic Multilingual Plane. */
  predicate IsUnicodePatternSyntaxChar(c: CodeUnit)
  {
    (0x0021 <= c <= 0x002F) || (0x003A <= c <= 0x0040) || (0x005B <= c <= 0x005E)
    || c == 0x0060 || (0x007B <= c <= 0x007E) || (0x00A1 <= c <= 0x00A7) || c == 0x00A9
    || (0x00AB <= c <= 0x00AC) || c == 0x00AE || (0x00B0 <= c <= 0x00B1) || c == 0x00B6
    || c == 0x00BB || c == 0x00BF || c == 0x00D7 || c == 0x00F7
    || (0x2010 <= c <= 0x2027) || (0x2030 <= c <= 0x203E) || (0x2041 <= c <= 0x2053)
    || (0x2055 <= c <= 0x205E) || (0x2190 <= c <= 0x245F) || (0x2500 <= c <= 0x2775)
    || (0x2794 <= c <= 0x2BFF) || (0x2E00 <= c <= 0x2E7F) || (0x3001 <= c <= 0x3003)
    || (0x3008 <= c <= 0x3020) || c == 0x3030 || (0xFD3E <= c <= 0xFD3F)
    || (0xFE45 <= c <= 0xFE46)
  }

  /** The Pattern_White_Space units. */
  predicate IsUnicodePatternWhiteSpaceChar(c: CodeUnit)
  {
    c == 0x0009 || c == 0x000A || c == 0x000B || c == 0x000C || c == 0x000D || c == 0x0020
    || c == 0x0085 || c == 0x200E || c == 0x200F || c == 0x2028 || c == 0x2029
  }

  predicate IsPatternChar(c: CodeUnit)
  {
    IsUnicodePatternSyntaxChar(c) || IsUnicodePatternWhiteSpaceChar(c)
  }

  /** The Other_ID_Start units, accepted whatever their category. */
  predicate IsOtherIdStart(c: CodeUnit)
  {
    c == 0x2118 || c == 0x212E || c == 0x309B || c == 0x309C
  }

  /** The Other_ID_Continue units, accepted whatever their category. */
  predicate IsOtherIdContinue(c: CodeUnit)
  {
    c == 0x00B7 || c == 0x0387 || (0x1369 <= c <= 0x1371) || c == 0x19DA
  }

  predicate IsIdStartCategory(k: UnicodeCategory)
  {
    k.UppercaseLetter? || k.LowercaseLetter? || k.TitlecaseLetter? || k.ModifierLetter?
    || k.OtherLetter? || k.LetterNumber?
  }

  predicate IsIdContinueCategory(k: UnicodeCategory)
  {
    IsIdStartCategory(k) || k.NonSpacingMark? || k.SpacingCombiningMark?
    || k.DecimalDigitNumber? || k.ConnectorPunctuation?
  }

  /** ID_Start: a letter-like category outside the pattern sets, or an Other_ID_Start unit. */
  predicate IsUnicodeIdentifierStartChar(cat: CategoryTable, c: CodeUnit)
  {
    if IsIdStartCategory(cat(c)) then !IsUnicodePatternSyntaxChar(c) && !IsUnicodePatternWhiteSpaceChar(c)
    else IsOtherIdStart(c)
  }

  /** ID_Continue: a letter, mark, digit or connector category outside the pattern sets, or an
      Other_ID_Continue unit. */
  predicate IsUnicodeIdentifierContinueChar(cat: CategoryTable, c: CodeUnit)
  {
    if IsIdContinueCategory(cat(c)) then !IsUnicodePatternSyntaxChar(c) && !IsUnicodePatternWhiteSpaceChar(c)
    else IsOtherIdContinue(c)
  }

  predicate IsIdentifierStartChar(cat: CategoryTable, c: CodeUnit)
  {
    c == '$' as CodeUnit || c == '_' as CodeUnit || IsUnicodeIdentifierStartChar(cat, c)
  }

  predicate IsIdentifierContinueChar(cat: CategoryTable, c: CodeUnit)
  {
    c == '$' as CodeUnit || c == '_' as CodeUnit || c == 0x200C || c == 0x200D
    || IsUnicodeIdentifierContinueChar(cat, c)
  }

  /** The units the white-space scanner accepts: tab, vertical tab, form feed, space, no-break
      space, U+FEFF and every Space_Separator. */
  predicate IsWhiteSpaceUnit(cat: CategoryTable, c: CodeUnit)
  {
    c == 0x0009 || c == 0x000B || c == 0x000C || c == 0x0020 || c == 0x00A0 || c == 0xFEFF
    || cat(c) == SpaceSeparator
  }

  /** Whatever the category table says: `$` and `_` start and continue identifiers, the joiners
      continue them, the Other_ID_Start units start them and the Other_ID_Continue units
      continue them. */
  lemma FixedIdentifierChars(cat: CategoryTable, c: CodeUnit)
    ensures (c == '$' as CodeUnit || c == '_' as CodeUnit || IsOtherIdStart(c))
            ==> IsIdentifierStartChar(cat, c)
    ensures (c == '$' as CodeUnit || c == '_' as CodeUnit || c == 0x200C || c == 0x200D
             || IsOtherIdContinue(c)) ==> IsIdentifierContinueChar(cat, c)
  {
  }

  /** Whatever the category table says, no Pattern_Syntax or Pattern_White_Space unit other than
      `$` is an identifier character. */
  lemma PatternCharsExcluded(cat: CategoryTable, c: CodeUnit)
    requires IsPatternChar(c) && c != '$' as CodeUnit
    ensures !IsIdentifierStartChar(cat, c) && !IsIdentifierContinueChar(cat, c)
  {
  }

  /** The end-of-input unit neither starts nor continues a name, and is not white space. */
  lemma EofIsNoNameOrSpace(cat: CategoryTable)
    ensures !IsIdentifierStartChar(cat, Eof) && !IsIdentifierContinueChar(cat, Eof)
    ensures !IsWhiteSpaceUnit(cat, Eof)
  {
  }

  /** Every identifier start unit other than the Other_ID_Start units is also an identifier
      continue unit; those four continue a name only when their category does. */
  lemma StartIsContinue(cat: CategoryTable, c: CodeUnit)
    requires IsIdentifierStartChar(cat, c)
    ensures !IsOtherIdStart(c) ==> IsIdentifierContinueChar(cat, c)
    ensures IsOtherIdStart(c) ==> (IsIdentifierContinueChar(cat, c) <==> IsIdContinueCategory(cat(c)))
  {
  }

  /** The table puts the ASCII letters in letter categories, as the Unicode tables do. */
  predicate LatinLettersAreLetters(cat: CategoryTable)
  {
    forall c: CodeUnit :: IsLatinLetter(c) ==> IsIdStartCategory(cat(c))
  }

  predicate IsLatinLetter(c: CodeUnit)
  {
    ('A' as CodeUnit <= c <= 'Z' as CodeUnit) || ('a' as CodeUnit <= c <= 'z' as CodeUnit)
  }

  /** With such a table every ASCII letter starts and continues a name. */
  lemma LatinLettersStartNames(cat: CategoryTable, c: CodeUnit)
    requires LatinLettersAreLetters(cat) && IsLatinLetter(c)
    ensures IsIdentifierStartChar(cat, c) && IsIdentifierContinueChar(cat, c)
  {
    assert IsIdStartCategory(cat(c));
  }
}
