/** The tag of every tree item, and the table that spells out each punctuator kind. */
module SyntaxKinds {
  import opened CodeUnits

  /** Every kind a tree item can have, in the order of the enumeration. The enumeration's
      `None` is written `NoneKind` here, because `None` is the empty Option. */
  datatype SyntaxKind =
    | NoneKind
    | Invalid
    | SyntaxTreeRoot
    | CompilationUnit
    | OpenBraceToken
    | CloseBraceToken
    | OpenParenToken
    | CloseParenToken
    | OpenBracketToken
    | CloseBracketToken
    | DotToken
    | SemicolonToken
    | CommaToken
    | LessThanToken
    | GreaterThanToken
    | PlusToken
    | MinusToken
    | AsteriskToken
    | PercentToken
    | AmpersandToken
    | BarToken
    | CaretToken
    | ExclamationToken
    | TildeToken
    | QuestionToken
    | ColonToken
    | EqualsToken
    | SlashToken
    | DotDotDotToken
    | LessThanEqualsToken
    | LessThanLessThanToken
    | LessThanLessThanEqualsToken
    | GreaterThanEqualsToken
    | GreaterThanGreaterThanToken
    | GreaterThanGreaterThanEqualsToken
    | GreaterThanGreaterThanGreaterThanToken
    | GreaterThanGreaterThanGreaterThanEqualsToken
    | EqualsEqualsToken
    | EqualsEqualsEqualsToken
    | EqualsGreaterThanToken
    | ExclamationEqualsToken
    | ExclamationEqualsEqualsToken
    | PlusEqualsToken
    | PlusPlusToken
    | MinusEqualsToken
    | MinusMinusToken
    | AsteriskEqualsToken
    | PercentEqualsToken
    | AmpersandEqualsToken
    | AmpersandAmpersandToken
    | BarEqualsToken
    | BarBarToken
    | CaretEqualsToken
    | SlashEqualsToken
    | NullLiteralToken
    | BooleanLiteralToken
    | NumericLiteralToken
    | StringLiteralToken
    | IdentifierToken
    | KeywordToken
    | FutureReservedWordToken
    | SingleLineCommentTrivia
    | MultiLineCommentTrivia
    | EndOfLineTrivia
    | WhitespaceTrivia

  /** The single-character punctuators. */
  predicate IsSimplePunctuation(k: SyntaxKind)
  {
    k.OpenBraceToken? || k.CloseBraceToken? || k.OpenParenToken? || k.CloseParenToken?
    || k.OpenBracketToken? || k.CloseBracketToken? || k.DotToken? || k.SemicolonToken? || k.CommaToken?
    || k.LessThanToken? || k.GreaterThanToken? || k.PlusToken? || k.MinusToken? || k.AsteriskToken?
    || k.PercentToken? || k.AmpersandToken? || k.BarToken? || k.CaretToken? || k.ExclamationToken?
    || k.TildeToken? || k.QuestionToken? || k.ColonToken? || k.EqualsToken? || k.SlashToken?
  }

  /** The punctuators of two or more characters. */
  predicate IsCompoundPunctuation(k: SyntaxKind)
  {
    k.DotDotDotToken? || k.LessThanEqualsToken? || k.LessThanLessThanToken?
    || k.LessThanLessThanEqualsToken? || k.GreaterThanEqualsToken? || k.GreaterThanGreaterThanToken?
    || k.GreaterThanGreaterThanEqualsToken? || k.GreaterThanGreaterThanGreaterThanToken?
    || k.GreaterThanGreaterThanGreaterThanEqualsToken? || k.EqualsEqualsToken?
    || k.EqualsEqualsEqualsToken? || k.EqualsGreaterThanToken? || k.ExclamationEqualsToken?
    || k.ExclamationEqualsEqualsToken? || k.PlusEqualsToken? || k.PlusPlusToken? || k.MinusEqualsToken?
    || k.MinusMinusToken? || k.AsteriskEqualsToken? || k.PercentEqualsToken? || k.AmpersandEqualsToken?
    || k.AmpersandAmpersandToken? || k.BarEqualsToken? || k.BarBarToken? || k.CaretEqualsToken?
    || k.SlashEqualsToken?
  }

  predicate IsPunctuator(k: SyntaxKind)
  {
    IsSimplePunctuation(k) || IsCompoundPunctuation(k)
  }

  /** The units that occur in punctuator spellings: `{}()[].;,<>+-*%&|^!~?:=/`. */
  predicate IsPunctuationUnit(c: CodeUnit)
  {
    c == '{' as CodeUnit || c == '}' as CodeUnit || c == '(' as CodeUnit || c == ')' as CodeUnit
    || c == '[' as CodeUnit || c == ']' as CodeUnit || c == '.' as CodeUnit || c == ';' as CodeUnit
    || c == ',' as CodeUnit || c == '<' as CodeUnit || c == '>' as CodeUnit || c == '+' as CodeUnit
    || c == '-' as CodeUnit || c == '*' as CodeUnit || c == '%' as CodeUnit || c == '&' as CodeUnit
    || c == '|' as CodeUnit || c == '^' as CodeUnit || c == '!' as CodeUnit || c == '~' as CodeUnit
    || c == '?' as CodeUnit || c == ':' as CodeUnit || c == '=' as CodeUnit || c == '/' as CodeUnit
  }

  /** The text of a punctuator kind; the empty text for every other kind. */
  function ConvertToString(kind: SyntaxKind): Utf16
  {
    match kind
    case OpenBraceToken => ['{' as CodeUnit]
    case CloseBraceToken => ['}' as CodeUnit]
    case OpenParenToken => ['(' as CodeUnit]
    case CloseParenToken => [')' as CodeUnit]
    case OpenBracketToken => ['[' as CodeUnit]
    case CloseBracketToken => [']' as CodeUnit]
    case DotToken => ['.' as CodeUnit]
    case SemicolonToken => [';' as CodeUnit]
    case CommaToken => [',' as CodeUnit]
    case LessThanToken => ['<' as CodeUnit]
    case GreaterThanToken => ['>' as CodeUnit]
    case PlusToken => ['+' as CodeUnit]
    case MinusToken => ['-' as CodeUnit]
    case AsteriskToken => ['*' as CodeUnit]
    case PercentToken => ['%' as CodeUnit]
    case AmpersandToken => ['&' as CodeUnit]
    case BarToken => ['|' as CodeUnit]
    case CaretToken => ['^' as CodeUnit]
    case ExclamationToken => ['!' as CodeUnit]
    case TildeToken => ['~' as CodeUnit]
    case QuestionToken => ['?' as CodeUnit]
    case ColonToken => [':' as CodeUnit]
    case EqualsToken => ['=' as CodeUnit]
    case SlashToken => ['/' as CodeUnit]
    case DotDotDotToken => ['.' as CodeUnit, '.' as CodeUnit, '.' as CodeUnit]
    case LessThanEqualsToken => ['<' as CodeUnit, '=' as CodeUnit]
    case LessThanLessThanToken => ['<' as CodeUnit, '<' as CodeUnit]
    case LessThanLessThanEqualsToken => ['<' as CodeUnit, '<' as CodeUnit, '=' as CodeUnit]
    case GreaterThanEqualsToken => ['>' as CodeUnit, '=' as CodeUnit]
    case GreaterThanGreaterThanToken => ['>' as CodeUnit, '>' as CodeUnit]
    case GreaterThanGreaterThanEqualsToken => ['>' as CodeUnit, '>' as CodeUnit, '=' as CodeUnit]
    case GreaterThanGreaterThanGreaterThanToken => ['>' as CodeUnit, '>' as CodeUnit, '>' as CodeUnit]
    case GreaterThanGreaterThanGreaterThanEqualsToken => ['>' as CodeUnit, '>' as CodeUnit, '>' as CodeUnit, '=' as CodeUnit]
    case EqualsEqualsToken => ['=' as CodeUnit, '=' as CodeUnit]
    case EqualsEqualsEqualsToken => ['=' as CodeUnit, '=' as CodeUnit, '=' as CodeUnit]
    case EqualsGreaterThanToken => ['=' as CodeUnit, '>' as CodeUnit]
    case ExclamationEqualsToken => ['!' as CodeUnit, '=' as CodeUnit]
    case ExclamationEqualsEqualsToken => ['!' as CodeUnit, '=' as CodeUnit, '=' as CodeUnit]
    case PlusEqualsToken => ['+' as CodeUnit, '=' as CodeUnit]
    case PlusPlusToken => ['+' as CodeUnit, '+' as CodeUnit]
    case MinusEqualsToken => ['-' as CodeUnit, '=' as CodeUnit]
    case MinusMinusToken => ['-' as CodeUnit, '-' as CodeUnit]
    case AsteriskEqualsToken => ['*' as CodeUnit, '=' as CodeUnit]
    case PercentEqualsToken => ['%' as CodeUnit, '=' as CodeUnit]
    case AmpersandEqualsToken => ['&' as CodeUnit, '=' as CodeUnit]
    case AmpersandAmpersandToken => ['&' as CodeUnit, '&' as CodeUnit]
    case BarEqualsToken => ['|' as CodeUnit, '=' as CodeUnit]
    case BarBarToken => ['|' as CodeUnit, '|' as CodeUnit]
    case CaretEqualsToken => ['^' as CodeUnit, '=' as CodeUnit]
    case SlashEqualsToken => ['/' as CodeUnit, '=' as CodeUnit]
    case _ => []
  }

  /** The punctuator kind spelled by `s`, if any: the table read backwards. */
  function PunctuationKind(s: Utf16): Option<SyntaxKind>
  {
    if |s| == 0 then None
    else if s[0] == '{' as CodeUnit then
      if s == ['{' as CodeUnit] then Some(OpenBraceToken)
      else None
    else if s[0] == '}' as CodeUnit then
      if s == ['}' as CodeUnit] then Some(CloseBraceToken)
      else None
    else if s[0] == '(' as CodeUnit then
      if s == ['(' as CodeUnit] then Some(OpenParenToken)
      else None
    else if s[0] == ')' as CodeUnit then
      if s == [')' as CodeUnit] then Some(CloseParenToken)
      else None
    else if s[0] == '[' as CodeUnit then
      if s == ['[' as CodeUnit] then Some(OpenBracketToken)
      else None
    else if s[0] == ']' as CodeUnit then
      if s == [']' as CodeUnit] then Some(CloseBracketToken)
      else None
    else if s[0] == '.' as CodeUnit then
      if s == ['.' as CodeUnit, '.' as CodeUnit, '.' as CodeUnit] then Some(DotDotDotToken)
      else if s == ['.' as CodeUnit] then Some(DotToken)
      else None
    else if s[0] == ';' as CodeUnit then
      if s == [';' as CodeUnit] then Some(SemicolonToken)
      else None
    else if s[0] == ',' as CodeUnit then
      if s == [',' as CodeUnit] then Some(CommaToken)
      else None
    else if s[0] == '<' as CodeUnit then
      if s == ['<' as CodeUnit, '<' as CodeUnit, '=' as CodeUnit] then Some(LessThanLessThanEqualsToken)
      else if s == ['<' as CodeUnit, '=' as CodeUnit] then Some(LessThanEqualsToken)
      else if s == ['<' as CodeUnit, '<' as CodeUnit] then Some(LessThanLessThanToken)
      else if s == ['<' as CodeUnit] then Some(LessThanToken)
      else None
    else if s[0] == '>' as CodeUnit then
      if s == ['>' as CodeUnit, '>' as CodeUnit, '>' as CodeUnit, '=' as CodeUnit] then Some(GreaterThanGreaterThanGreaterThanEqualsToken)
      else if s == ['>' as CodeUnit, '>' as CodeUnit, '=' as CodeUnit] then Some(GreaterThanGreaterThanEqualsToken)
      else if s == ['>' as CodeUnit, '>' as CodeUnit, '>' as CodeUnit] then Some(GreaterThanGreaterThanGreaterThanToken)
      else if s == ['>' as CodeUnit, '=' as CodeUnit] then Some(GreaterThanEqualsToken)
      else if s == ['>' as CodeUnit, '>' as CodeUnit] then Some(GreaterThanGreaterThanToken)
      else if s == ['>' as CodeUnit] then Some(GreaterThanToken)
      else None
    else if s[0] == '+' as CodeUnit then
      if s == ['+' as CodeUnit, '=' as CodeUnit] then Some(PlusEqualsToken)
      else if s == ['+' as CodeUnit, '+' as CodeUnit] then Some(PlusPlusToken)
      else if s == ['+' as CodeUnit] then Some(PlusToken)
      else None
    else if s[0] == '-' as CodeUnit then
      if s == ['-' as CodeUnit, '=' as CodeUnit] then Some(MinusEqualsToken)
      else if s == ['-' as CodeUnit, '-' as CodeUnit] then Some(MinusMinusToken)
      else if s == ['-' as CodeUnit] then Some(MinusToken)
      else None
    else if s[0] == '*' as CodeUnit then
      if s == ['*' as CodeUnit, '=' as CodeUnit] then Some(AsteriskEqualsToken)
      else if s == ['*' as CodeUnit] then Some(AsteriskToken)
      else None
    else if s[0] == '%' as CodeUnit then
      if s == ['%' as CodeUnit, '=' as CodeUnit] then Some(PercentEqualsToken)
      else if s == ['%' as CodeUnit] then Some(PercentToken)
      else None
    else if s[0] == '&' as CodeUnit then
      if s == ['&' as CodeUnit, '=' as CodeUnit] then Some(AmpersandEqualsToken)
      else if s == ['&' as CodeUnit, '&' as CodeUnit] then Some(AmpersandAmpersandToken)
      else if s == ['&' as CodeUnit] then Some(AmpersandToken)
      else None
    else if s[0] == '|' as CodeUnit then
      if s == ['|' as CodeUnit, '=' as CodeUnit] then Some(BarEqualsToken)
      else if s == ['|' as CodeUnit, '|' as CodeUnit] then Some(BarBarToken)
      else if s == ['|' as CodeUnit] then Some(BarToken)
      else None
    else if s[0] == '^' as CodeUnit then
      if s == ['^' as CodeUnit, '=' as CodeUnit] then Some(CaretEqualsToken)
      else if s == ['^' as CodeUnit] then Some(CaretToken)
      else None
    else if s[0] == '!' as CodeUnit then
      if s == ['!' as CodeUnit, '=' as CodeUnit, '=' as CodeUnit] then Some(ExclamationEqualsEqualsToken)
      else if s == ['!' as CodeUnit, '=' as CodeUnit] then Some(ExclamationEqualsToken)
      else if s == ['!' as CodeUnit] then Some(ExclamationToken)
      else None
    else if s[0] == '~' as CodeUnit then
      if s == ['~' as CodeUnit] then Some(TildeToken)
      else None
    else if s[0] == '?' as CodeUnit then
      if s == ['?' as CodeUnit] then Some(QuestionToken)
      else None
    else if s[0] == ':' as CodeUnit then
      if s == [':' as CodeUnit] then Some(ColonToken)
      else None
    else if s[0] == '=' as CodeUnit then
      if s == ['=' as CodeUnit, '=' as CodeUnit, '=' as CodeUnit] then Some(EqualsEqualsEqualsToken)
      else if s == ['=' as CodeUnit, '=' as CodeUnit] then Some(EqualsEqualsToken)
      else if s == ['=' as CodeUnit, '>' as CodeUnit] then Some(EqualsGreaterThanToken)
      else if s == ['=' as CodeUnit] then Some(EqualsToken)
      else None
    else if s[0] == '/' as CodeUnit then
      if s == ['/' as CodeUnit, '=' as CodeUnit] then Some(SlashEqualsToken)
      else if s == ['/' as CodeUnit] then Some(SlashToken)
      else None
    else None
  }

  /** Only punctuators have a spelling; simple ones have one unit, compound ones two or three,
      and `>>>=` alone has four. */
  lemma ConvertToStringLengthPart0(kind: SyntaxKind)
    requires kind.NoneKind? || kind.Invalid? || kind.SyntaxTreeRoot? || kind.CompilationUnit? || kind.OpenBraceToken?
    ensures !IsPunctuator(kind) <==> ConvertToString(kind) == []
    ensures IsSimplePunctuation(kind) ==> |ConvertToString(kind)| == 1
    ensures IsCompoundPunctuation(kind) && kind != GreaterThanGreaterThanGreaterThanEqualsToken
            ==> 2 <= |ConvertToString(kind)| <= 3
    ensures |ConvertToString(kind)| == 4 <==> kind == GreaterThanGreaterThanGreaterThanEqualsToken
  {
  }

  lemma ConvertToStringLengthPart1(kind: SyntaxKind)
    requires kind.CloseBraceToken? || kind.OpenParenToken? || kind.CloseParenToken? || kind.OpenBracketToken? || kind.CloseBracketToken?
    ensures !IsPunctuator(kind) <==> ConvertToString(kind) == []
    ensures IsSimplePunctuation(kind) ==> |ConvertToString(kind)| == 1
    ensures IsCompoundPunctuation(kind) && kind != GreaterThanGreaterThanGreaterThanEqualsToken
            ==> 2 <= |ConvertToString(kind)| <= 3
    ensures |ConvertToString(kind)| == 4 <==> kind == GreaterThanGreaterThanGreaterThanEqualsToken
  {
  }

  lemma ConvertToStringLengthPart2(kind: SyntaxKind)
    requires kind.DotToken? || kind.SemicolonToken? || kind.CommaToken? || kind.LessThanToken? || kind.GreaterThanToken?
    ensures !IsPunctuator(kind) <==> ConvertToString(kind) == []
    ensures IsSimplePunctuation(kind) ==> |ConvertToString(kind)| == 1
    ensures IsCompoundPunctuation(kind) && kind != GreaterThanGreaterThanGreaterThanEqualsToken
            ==> 2 <= |ConvertToString(kind)| <= 3
    ensures |ConvertToString(kind)| == 4 <==> kind == GreaterThanGreaterThanGreaterThanEqualsToken
  {
  }

  lemma ConvertToStringLengthPart3(kind: SyntaxKind)
    requires kind.PlusToken? || kind.MinusToken? || kind.AsteriskToken? || kind.PercentToken? || kind.AmpersandToken?
    ensures !IsPunctuator(kind) <==> ConvertToString(kind) == []
    ensures IsSimplePunctuation(kind) ==> |ConvertToString(kind)| == 1
    ensures IsCompoundPunctuation(kind) && kind != GreaterThanGreaterThanGreaterThanEqualsToken
            ==> 2 <= |ConvertToString(kind)| <= 3
    ensures |ConvertToString(kind)| == 4 <==> kind == GreaterThanGreaterThanGreaterThanEqualsToken
  {
  }

  lemma ConvertToStringLengthPart4(kind: SyntaxKind)
    requires kind.BarToken? || kind.CaretToken? || kind.ExclamationToken? || kind.TildeToken? || kind.QuestionToken?
    ensures !IsPunctuator(kind) <==> ConvertToString(kind) == []
    ensures IsSimplePunctuation(kind) ==> |ConvertToString(kind)| == 1
    ensures IsCompoundPunctuation(kind) && kind != GreaterThanGreaterThanGreaterThanEqualsToken
            ==> 2 <= |ConvertToString(kind)| <= 3
    ensures |ConvertToString(kind)| == 4 <==> kind == GreaterThanGreaterThanGreaterThanEqualsToken
  {
  }

  lemma ConvertToStringLengthPart5(kind: SyntaxKind)
    requires kind.ColonToken? || kind.EqualsToken? || kind.SlashToken? || kind.DotDotDotToken? || kind.LessThanEqualsToken?
    ensures !IsPunctuator(kind) <==> ConvertToString(kind) == []
    ensures IsSimplePunctuation(kind) ==> |ConvertToString(kind)| == 1
    ensures IsCompoundPunctuation(kind) && kind != GreaterThanGreaterThanGreaterThanEqualsToken
            ==> 2 <= |ConvertToString(kind)| <= 3
    ensures |ConvertToString(kind)| == 4 <==> kind == GreaterThanGreaterThanGreaterThanEqualsToken
  {
  }

  lemma ConvertToStringLengthPart6(kind: SyntaxKind)
    requires kind.LessThanLessThanToken? || kind.LessThanLessThanEqualsToken? || kind.GreaterThanEqualsToken? || kind.GreaterThanGreaterThanToken? || kind.GreaterThanGreaterThanEqualsToken?
    ensures !IsPunctuator(kind) <==> ConvertToString(kind) == []
    ensures IsSimplePunctuation(kind) ==> |ConvertToString(kind)| == 1
    ensures IsCompoundPunctuation(kind) && kind != GreaterThanGreaterThanGreaterThanEqualsToken
            ==> 2 <= |ConvertToString(kind)| <= 3
    ensures |ConvertToString(kind)| == 4 <==> kind == GreaterThanGreaterThanGreaterThanEqualsToken
  {
  }

  lemma ConvertToStringLengthPart7(kind: SyntaxKind)
    requires kind.GreaterThanGreaterThanGreaterThanToken? || kind.GreaterThanGreaterThanGreaterThanEqualsToken? || kind.EqualsEqualsToken? || kind.EqualsEqualsEqualsToken? || kind.EqualsGreaterThanToken?
    ensures !IsPunctuator(kind) <==> ConvertToString(kind) == []
    ensures IsSimplePunctuation(kind) ==> |ConvertToString(kind)| == 1
    ensures IsCompoundPunctuation(kind) && kind != GreaterThanGreaterThanGreaterThanEqualsToken
            ==> 2 <= |ConvertToString(kind)| <= 3
    ensures |ConvertToString(kind)| == 4 <==> kind == GreaterThanGreaterThanGreaterThanEqualsToken
  {
  }

  lemma ConvertToStringLengthPart8(kind: SyntaxKind)
    requires kind.ExclamationEqualsToken? || kind.ExclamationEqualsEqualsToken? || kind.PlusEqualsToken? || kind.PlusPlusToken? || kind.MinusEqualsToken?
    ensures !IsPunctuator(kind) <==> ConvertToString(kind) == []
    ensures IsSimplePunctuation(kind) ==> |ConvertToString(kind)| == 1
    ensures IsCompoundPunctuation(kind) && kind != GreaterThanGreaterThanGreaterThanEqualsToken
            ==> 2 <= |ConvertToString(kind)| <= 3
    ensures |ConvertToString(kind)| == 4 <==> kind == GreaterThanGreaterThanGreaterThanEqualsToken
  {
  }

  lemma ConvertToStringLengthPart9(kind: SyntaxKind)
    requires kind.MinusMinusToken? || kind.AsteriskEqualsToken? || kind.PercentEqualsToken? || kind.AmpersandEqualsToken? || kind.AmpersandAmpersandToken?
    ensures !IsPunctuator(kind) <==> ConvertToString(kind) == []
    ensures IsSimplePunctuation(kind) ==> |ConvertToString(kind)| == 1
    ensures IsCompoundPunctuation(kind) && kind != GreaterThanGreaterThanGreaterThanEqualsToken
            ==> 2 <= |ConvertToString(kind)| <= 3
    ensures |ConvertToString(kind)| == 4 <==> kind == GreaterThanGreaterThanGreaterThanEqualsToken
  {
  }

  lemma ConvertToStringLengthPart10(kind: SyntaxKind)
    requires kind.BarEqualsToken? || kind.BarBarToken? || kind.CaretEqualsToken? || kind.SlashEqualsToken? || kind.NullLiteralToken?
    ensures !IsPunctuator(kind) <==> ConvertToString(kind) == []
    ensures IsSimplePunctuation(kind) ==> |ConvertToString(kind)| == 1
    ensures IsCompoundPunctuation(kind) && kind != GreaterThanGreaterThanGreaterThanEqualsToken
            ==> 2 <= |ConvertToString(kind)| <= 3
    ensures |ConvertToString(kind)| == 4 <==> kind == GreaterThanGreaterThanGreaterThanEqualsToken
  {
  }

  lemma ConvertToStringLengthPart11(kind: SyntaxKind)
    requires kind.BooleanLiteralToken? || kind.NumericLiteralToken? || kind.StringLiteralToken? || kind.IdentifierToken? || kind.KeywordToken?
    ensures !IsPunctuator(kind) <==> ConvertToString(kind) == []
    ensures IsSimplePunctuation(kind) ==> |ConvertToString(kind)| == 1
    ensures IsCompoundPunctuation(kind) && kind != GreaterThanGreaterThanGreaterThanEqualsToken
            ==> 2 <= |ConvertToString(kind)| <= 3
    ensures |ConvertToString(kind)| == 4 <==> kind == GreaterThanGreaterThanGreaterThanEqualsToken
  {
  }

  lemma ConvertToStringLengthPart12(kind: SyntaxKind)
    requires kind.FutureReservedWordToken? || kind.SingleLineCommentTrivia? || kind.MultiLineCommentTrivia? || kind.EndOfLineTrivia? || kind.WhitespaceTrivia?
    ensures !IsPunctuator(kind) <==> ConvertToString(kind) == []
    ensures IsSimplePunctuation(kind) ==> |ConvertToString(kind)| == 1
    ensures IsCompoundPunctuation(kind) && kind != GreaterThanGreaterThanGreaterThanEqualsToken
            ==> 2 <= |ConvertToString(kind)| <= 3
    ensures |ConvertToString(kind)| == 4 <==> kind == GreaterThanGreaterThanGreaterThanEqualsToken
  {
  }

  lemma ConvertToStringLength(kind: SyntaxKind)
    ensures !IsPunctuator(kind) <==> ConvertToString(kind) == []
    ensures IsSimplePunctuation(kind) ==> |ConvertToString(kind)| == 1
    ensures IsCompoundPunctuation(kind) && kind != GreaterThanGreaterThanGreaterThanEqualsToken
            ==> 2 <= |ConvertToString(kind)| <= 3
    ensures |ConvertToString(kind)| == 4 <==> kind == GreaterThanGreaterThanGreaterThanEqualsToken
  {
    match kind {
      case NoneKind | Invalid | SyntaxTreeRoot | CompilationUnit | OpenBraceToken => ConvertToStringLengthPart0(kind);
      case CloseBraceToken | OpenParenToken | CloseParenToken | OpenBracketToken | CloseBracketToken => ConvertToStringLengthPart1(kind);
      case DotToken | SemicolonToken | CommaToken | LessThanToken | GreaterThanToken => ConvertToStringLengthPart2(kind);
      case PlusToken | MinusToken | AsteriskToken | PercentToken | AmpersandToken => ConvertToStringLengthPart3(kind);
      case BarToken | CaretToken | ExclamationToken | TildeToken | QuestionToken => ConvertToStringLengthPart4(kind);
      case ColonToken | EqualsToken | SlashToken | DotDotDotToken | LessThanEqualsToken => ConvertToStringLengthPart5(kind);
      case LessThanLessThanToken | LessThanLessThanEqualsToken | GreaterThanEqualsToken | GreaterThanGreaterThanToken | GreaterThanGreaterThanEqualsToken => ConvertToStringLengthPart6(kind);
      case GreaterThanGreaterThanGreaterThanToken | GreaterThanGreaterThanGreaterThanEqualsToken | EqualsEqualsToken | EqualsEqualsEqualsToken | EqualsGreaterThanToken => ConvertToStringLengthPart7(kind);
      case ExclamationEqualsToken | ExclamationEqualsEqualsToken | PlusEqualsToken | PlusPlusToken | MinusEqualsToken => ConvertToStringLengthPart8(kind);
      case MinusMinusToken | AsteriskEqualsToken | PercentEqualsToken | AmpersandEqualsToken | AmpersandAmpersandToken => ConvertToStringLengthPart9(kind);
      case BarEqualsToken | BarBarToken | CaretEqualsToken | SlashEqualsToken | NullLiteralToken => ConvertToStringLengthPart10(kind);
      case BooleanLiteralToken | NumericLiteralToken | StringLiteralToken | IdentifierToken | KeywordToken => ConvertToStringLengthPart11(kind);
      case FutureReservedWordToken | SingleLineCommentTrivia | MultiLineCommentTrivia | EndOfLineTrivia | WhitespaceTrivia => ConvertToStringLengthPart12(kind);
    }
  }

  /** Every spelling is made of the punctuation units only. */
  lemma ConvertToStringUnits(kind: SyntaxKind)
    ensures forall i :: 0 <= i < |ConvertToString(kind)| ==> IsPunctuationUnit(ConvertToString(kind)[i])
  {
    match kind {
      case NoneKind | Invalid | SyntaxTreeRoot | CompilationUnit | OpenBraceToken => ConvertToStringUnitsPart0(kind);
      case CloseBraceToken | OpenParenToken | CloseParenToken | OpenBracketToken | CloseBracketToken => ConvertToStringUnitsPart1(kind);
      case DotToken | SemicolonToken | CommaToken | LessThanToken | GreaterThanToken => ConvertToStringUnitsPart2(kind);
      case PlusToken | MinusToken | AsteriskToken | PercentToken | AmpersandToken => ConvertToStringUnitsPart3(kind);
      case BarToken | CaretToken | ExclamationToken | TildeToken | QuestionToken => ConvertToStringUnitsPart4(kind);
      case ColonToken | EqualsToken | SlashToken | DotDotDotToken | LessThanEqualsToken => ConvertToStringUnitsPart5(kind);
      case LessThanLessThanToken | LessThanLessThanEqualsToken | GreaterThanEqualsToken | GreaterThanGreaterThanToken | GreaterThanGreaterThanEqualsToken => ConvertToStringUnitsPart6(kind);
      case GreaterThanGreaterThanGreaterThanToken | GreaterThanGreaterThanGreaterThanEqualsToken | EqualsEqualsToken | EqualsEqualsEqualsToken | EqualsGreaterThanToken => ConvertToStringUnitsPart7(kind);
      case ExclamationEqualsToken | ExclamationEqualsEqualsToken | PlusEqualsToken | PlusPlusToken | MinusEqualsToken => ConvertToStringUnitsPart8(kind);
      case MinusMinusToken | AsteriskEqualsToken | PercentEqualsToken | AmpersandEqualsToken | AmpersandAmpersandToken => ConvertToStringUnitsPart9(kind);
      case BarEqualsToken | BarBarToken | CaretEqualsToken | SlashEqualsToken | NullLiteralToken => ConvertToStringUnitsPart10(kind);
      case BooleanLiteralToken | NumericLiteralToken | StringLiteralToken | IdentifierToken | KeywordToken => ConvertToStringUnitsPart11(kind);
      case FutureReservedWordToken | SingleLineCommentTrivia | MultiLineCommentTrivia | EndOfLineTrivia | WhitespaceTrivia => ConvertToStringUnitsPart12(kind);
    }
  }

  lemma ConvertToStringUnitsPart0(kind: SyntaxKind)
    requires kind.NoneKind? || kind.Invalid? || kind.SyntaxTreeRoot? || kind.CompilationUnit? || kind.OpenBraceToken?
    ensures forall i :: 0 <= i < |ConvertToString(kind)| ==> IsPunctuationUnit(ConvertToString(kind)[i])
  {
  }

  lemma ConvertToStringUnitsPart1(kind: SyntaxKind)
    requires kind.CloseBraceToken? || kind.OpenParenToken? || kind.CloseParenToken? || kind.OpenBracketToken? || kind.CloseBracketToken?
    ensures forall i :: 0 <= i < |ConvertToString(kind)| ==> IsPunctuationUnit(ConvertToString(kind)[i])
  {
  }

  lemma ConvertToStringUnitsPart2(kind: SyntaxKind)
    requires kind.DotToken? || kind.SemicolonToken? || kind.CommaToken? || kind.LessThanToken? || kind.GreaterThanToken?
    ensures forall i :: 0 <= i < |ConvertToString(kind)| ==> IsPunctuationUnit(ConvertToString(kind)[i])
  {
  }

  lemma ConvertToStringUnitsPart3(kind: SyntaxKind)
    requires kind.PlusToken? || kind.MinusToken? || kind.AsteriskToken? || kind.PercentToken? || kind.AmpersandToken?
    ensures forall i :: 0 <= i < |ConvertToString(kind)| ==> IsPunctuationUnit(ConvertToString(kind)[i])
  {
  }

  lemma ConvertToStringUnitsPart4(kind: SyntaxKind)
    requires kind.BarToken? || kind.CaretToken? || kind.ExclamationToken? || kind.TildeToken? || kind.QuestionToken?
    ensures forall i :: 0 <= i < |ConvertToString(kind)| ==> IsPunctuationUnit(ConvertToString(kind)[i])
  {
  }

  lemma ConvertToStringUnitsPart5(kind: SyntaxKind)
    requires kind.ColonToken? || kind.EqualsToken? || kind.SlashToken? || kind.DotDotDotToken? || kind.LessThanEqualsToken?
    ensures forall i :: 0 <= i < |ConvertToString(kind)| ==> IsPunctuationUnit(ConvertToString(kind)[i])
  {
  }

  lemma ConvertToStringUnitsPart6(kind: SyntaxKind)
    requires kind.LessThanLessThanToken? || kind.LessThanLessThanEqualsToken? || kind.GreaterThanEqualsToken? || kind.GreaterThanGreaterThanToken? || kind.GreaterThanGreaterThanEqualsToken?
    ensures forall i :: 0 <= i < |ConvertToString(kind)| ==> IsPunctuationUnit(ConvertToString(kind)[i])
  {
  }

  lemma ConvertToStringUnitsPart7(kind: SyntaxKind)
    requires kind.GreaterThanGreaterThanGreaterThanToken? || kind.GreaterThanGreaterThanGreaterThanEqualsToken? || kind.EqualsEqualsToken? || kind.EqualsEqualsEqualsToken? || kind.EqualsGreaterThanToken?
    ensures forall i :: 0 <= i < |ConvertToString(kind)| ==> IsPunctuationUnit(ConvertToString(kind)[i])
  {
  }

  lemma ConvertToStringUnitsPart8(kind: SyntaxKind)
    requires kind.ExclamationEqualsToken? || kind.ExclamationEqualsEqualsToken? || kind.PlusEqualsToken? || kind.PlusPlusToken? || kind.MinusEqualsToken?
    ensures forall i :: 0 <= i < |ConvertToString(kind)| ==> IsPunctuationUnit(ConvertToString(kind)[i])
  {
  }

  lemma ConvertToStringUnitsPart9(kind: SyntaxKind)
    requires kind.MinusMinusToken? || kind.AsteriskEqualsToken? || kind.PercentEqualsToken? || kind.AmpersandEqualsToken? || kind.AmpersandAmpersandToken?
    ensures forall i :: 0 <= i < |ConvertToString(kind)| ==> IsPunctuationUnit(ConvertToString(kind)[i])
  {
  }

  lemma ConvertToStringUnitsPart10(kind: SyntaxKind)
    requires kind.BarEqualsToken? || kind.BarBarToken? || kind.CaretEqualsToken? || kind.SlashEqualsToken? || kind.NullLiteralToken?
    ensures forall i :: 0 <= i < |ConvertToString(kind)| ==> IsPunctuationUnit(ConvertToString(kind)[i])
  {
  }

  lemma ConvertToStringUnitsPart11(kind: SyntaxKind)
    requires kind.BooleanLiteralToken? || kind.NumericLiteralToken? || kind.StringLiteralToken? || kind.IdentifierToken? || kind.KeywordToken?
    ensures forall i :: 0 <= i < |ConvertToString(kind)| ==> IsPunctuationUnit(ConvertToString(kind)[i])
  {
  }

  lemma ConvertToStringUnitsPart12(kind: SyntaxKind)
    requires kind.FutureReservedWordToken? || kind.SingleLineCommentTrivia? || kind.MultiLineCommentTrivia? || kind.EndOfLineTrivia? || kind.WhitespaceTrivia?
    ensures forall i :: 0 <= i < |ConvertToString(kind)| ==> IsPunctuationUnit(ConvertToString(kind)[i])
  {
  }

  /** PunctuationKind undoes ConvertToString on punctuators. */
  lemma PunctuationKindOfSpellingPart0(kind: SyntaxKind)
    requires kind.OpenBraceToken? || kind.CloseBraceToken? || kind.OpenParenToken? || kind.CloseParenToken? || kind.OpenBracketToken? || kind.CloseBracketToken? || kind.DotToken?
    ensures PunctuationKind(ConvertToString(kind)) == Some(kind)
  {
  }

  lemma PunctuationKindOfSpellingPart1(kind: SyntaxKind)
    requires kind.SemicolonToken? || kind.CommaToken? || kind.LessThanToken? || kind.GreaterThanToken? || kind.PlusToken? || kind.MinusToken? || kind.AsteriskToken?
    ensures PunctuationKind(ConvertToString(kind)) == Some(kind)
  {
  }

  lemma PunctuationKindOfSpellingPart2(kind: SyntaxKind)
    requires kind.PercentToken? || kind.AmpersandToken? || kind.BarToken? || kind.CaretToken? || kind.ExclamationToken? || kind.TildeToken? || kind.QuestionToken?
    ensures PunctuationKind(ConvertToString(kind)) == Some(kind)
  {
  }

  lemma PunctuationKindOfSpellingPart3(kind: SyntaxKind)
    requires kind.ColonToken? || kind.EqualsToken? || kind.SlashToken? || kind.DotDotDotToken? || kind.LessThanEqualsToken? || kind.LessThanLessThanToken? || kind.LessThanLessThanEqualsToken?
    ensures PunctuationKind(ConvertToString(kind)) == Some(kind)
  {
  }

  lemma PunctuationKindOfSpellingPart4(kind: SyntaxKind)
    requires kind.GreaterThanEqualsToken? || kind.GreaterThanGreaterThanToken? || kind.GreaterThanGreaterThanEqualsToken? || kind.GreaterThanGreaterThanGreaterThanToken? || kind.GreaterThanGreaterThanGreaterThanEqualsToken? || kind.EqualsEqualsToken? || kind.EqualsEqualsEqualsToken?
    ensures PunctuationKind(ConvertToString(kind)) == Some(kind)
  {
  }

  lemma PunctuationKindOfSpellingPart5(kind: SyntaxKind)
    requires kind.EqualsGreaterThanToken? || kind.ExclamationEqualsToken? || kind.ExclamationEqualsEqualsToken? || kind.PlusEqualsToken? || kind.PlusPlusToken? || kind.MinusEqualsToken? || kind.MinusMinusToken?
    ensures PunctuationKind(ConvertToString(kind)) == Some(kind)
  {
  }

  lemma PunctuationKindOfSpellingPart6(kind: SyntaxKind)
    requires kind.AsteriskEqualsToken? || kind.PercentEqualsToken? || kind.AmpersandEqualsToken? || kind.AmpersandAmpersandToken? || kind.BarEqualsToken? || kind.BarBarToken? || kind.CaretEqualsToken?
    ensures PunctuationKind(ConvertToString(kind)) == Some(kind)
  {
  }

  lemma PunctuationKindOfSpellingPart7(kind: SyntaxKind)
    requires kind.SlashEqualsToken?
    ensures PunctuationKind(ConvertToString(kind)) == Some(kind)
  {
  }

  lemma PunctuationKindOfSpelling(kind: SyntaxKind)
    requires IsPunctuator(kind)
    ensures PunctuationKind(ConvertToString(kind)) == Some(kind)
  {
    match kind {
      case OpenBraceToken | CloseBraceToken | OpenParenToken | CloseParenToken | OpenBracketToken | CloseBracketToken | DotToken => PunctuationKindOfSpellingPart0(kind);
      case SemicolonToken | CommaToken | LessThanToken | GreaterThanToken | PlusToken | MinusToken | AsteriskToken => PunctuationKindOfSpellingPart1(kind);
      case PercentToken | AmpersandToken | BarToken | CaretToken | ExclamationToken | TildeToken | QuestionToken => PunctuationKindOfSpellingPart2(kind);
      case ColonToken | EqualsToken | SlashToken | DotDotDotToken | LessThanEqualsToken | LessThanLessThanToken | LessThanLessThanEqualsToken => PunctuationKindOfSpellingPart3(kind);
      case GreaterThanEqualsToken | GreaterThanGreaterThanToken | GreaterThanGreaterThanEqualsToken | GreaterThanGreaterThanGreaterThanToken | GreaterThanGreaterThanGreaterThanEqualsToken | EqualsEqualsToken | EqualsEqualsEqualsToken => PunctuationKindOfSpellingPart4(kind);
      case EqualsGreaterThanToken | ExclamationEqualsToken | ExclamationEqualsEqualsToken | PlusEqualsToken | PlusPlusToken | MinusEqualsToken | MinusMinusToken => PunctuationKindOfSpellingPart5(kind);
      case AsteriskEqualsToken | PercentEqualsToken | AmpersandEqualsToken | AmpersandAmpersandToken | BarEqualsToken | BarBarToken | CaretEqualsToken => PunctuationKindOfSpellingPart6(kind);
      case SlashEqualsToken => PunctuationKindOfSpellingPart7(kind);
      case _ =>
    }
  }

  /** Distinct punctuator kinds have distinct spellings. */
  lemma ConvertToStringInjective(k1: SyntaxKind, k2: SyntaxKind)
    requires IsPunctuator(k1) && IsPunctuator(k2) && k1 != k2
    ensures ConvertToString(k1) != ConvertToString(k2)
  {
    PunctuationKindOfSpelling(k1);
    PunctuationKindOfSpelling(k2);
  }
}
