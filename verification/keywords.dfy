/** Classifying a scanned name as a literal, keyword, future reserved word or identifier. */
module Keywords {
  import opened CodeUnits
  import opened CharClasses
  import opened SyntaxKinds
  import opened SyntaxTrees
  import opened Identifiers
  import opened EncodedChars

  const NullWord: Utf16 := ['n' as CodeUnit, 'u' as CodeUnit, 'l' as CodeUnit, 'l' as CodeUnit]
  const TrueWord: Utf16 := ['t' as CodeUnit, 'r' as CodeUnit, 'u' as CodeUnit, 'e' as CodeUnit]
  const FalseWord: Utf16 := ['f' as CodeUnit, 'a' as CodeUnit, 'l' as CodeUnit, 's' as CodeUnit, 'e' as CodeUnit]
  const EnumWord: Utf16 := ['e' as CodeUnit, 'n' as CodeUnit, 'u' as CodeUnit, 'm' as CodeUnit]

  /** The 32 keywords the scanner recognises. */
  predicate IsKeywordText(t: Utf16)
  {
    t == ['b' as CodeUnit, 'r' as CodeUnit, 'e' as CodeUnit, 'a' as CodeUnit, 'k' as CodeUnit]
    || t == ['c' as CodeUnit, 'a' as CodeUnit, 's' as CodeUnit, 'e' as CodeUnit]
    || t == ['c' as CodeUnit, 'a' as CodeUnit, 't' as CodeUnit, 'c' as CodeUnit, 'h' as CodeUnit]
    || t == ['c' as CodeUnit, 'l' as CodeUnit, 'a' as CodeUnit, 's' as CodeUnit, 's' as CodeUnit]
    || t == ['c' as CodeUnit, 'o' as CodeUnit, 'n' as CodeUnit, 's' as CodeUnit, 't' as CodeUnit]
    || t == ['c' as CodeUnit, 'o' as CodeUnit, 'n' as CodeUnit, 't' as CodeUnit, 'i' as CodeUnit, 'n' as CodeUnit, 'u' as CodeUnit, 'e' as CodeUnit]
    || t == ['d' as CodeUnit, 'e' as CodeUnit, 'b' as CodeUnit, 'u' as CodeUnit, 'g' as CodeUnit, 'g' as CodeUnit, 'e' as CodeUnit, 'r' as CodeUnit]
    || t == ['d' as CodeUnit, 'e' as CodeUnit, 'f' as CodeUnit, 'a' as CodeUnit, 'u' as CodeUnit, 'l' as CodeUnit, 't' as CodeUnit]
    || t == ['d' as CodeUnit, 'e' as CodeUnit, 'l' as CodeUnit, 'e' as CodeUnit, 't' as CodeUnit, 'e' as CodeUnit]
    || t == ['d' as CodeUnit, 'o' as CodeUnit]
    || t == ['e' as CodeUnit, 'l' as CodeUnit, 's' as CodeUnit, 'e' as CodeUnit]
    || t == ['e' as CodeUnit, 'x' as CodeUnit, 'p' as CodeUnit, 'o' as CodeUnit, 'r' as CodeUnit, 't' as CodeUnit]
    || t == ['e' as CodeUnit, 'x' as CodeUnit, 't' as CodeUnit, 'e' as CodeUnit, 'n' as CodeUnit, 'd' as CodeUnit, 's' as CodeUnit]
    || t == ['f' as CodeUnit, 'i' as CodeUnit, 'n' as CodeUnit, 'a' as CodeUnit, 'l' as CodeUnit, 'l' as CodeUnit, 'y' as CodeUnit]
    || t == ['f' as CodeUnit, 'o' as CodeUnit, 'r' as CodeUnit]
    || t == ['f' as CodeUnit, 'u' as CodeUnit, 'n' as CodeUnit, 'c' as CodeUnit, 't' as CodeUnit, 'i' as CodeUnit, 'o' as CodeUnit, 'n' as CodeUnit]
    || t == ['i' as CodeUnit, 'f' as CodeUnit]
    || t == ['i' as CodeUnit, 'm' as CodeUnit, 'p' as CodeUnit, 'o' as CodeUnit, 'r' as CodeUnit, 't' as CodeUnit]
    || t == ['i' as CodeUnit, 'n' as CodeUnit]
    || t == ['i' as CodeUnit, 'n' as CodeUnit, 's' as CodeUnit, 't' as CodeUnit, 'a' as CodeUnit, 'n' as CodeUnit, 'c' as CodeUnit, 'e' as CodeUnit, 'o' as CodeUnit, 'f' as CodeUnit]
    || t == ['n' as CodeUnit, 'e' as CodeUnit, 'w' as CodeUnit]
    || t == ['r' as CodeUnit, 'e' as CodeUnit, 't' as CodeUnit, 'u' as CodeUnit, 'r' as CodeUnit, 'n' as CodeUnit]
    || t == ['s' as CodeUnit, 'u' as CodeUnit, 'p' as CodeUnit, 'e' as CodeUnit, 'r' as CodeUnit]
    || t == ['s' as CodeUnit, 'w' as CodeUnit, 'i' as CodeUnit, 't' as CodeUnit, 'c' as CodeUnit, 'h' as CodeUnit]
    || t == ['t' as CodeUnit, 'h' as CodeUnit, 'i' as CodeUnit, 's' as CodeUnit]
    || t == ['t' as CodeUnit, 'h' as CodeUnit, 'r' as CodeUnit, 'o' as CodeUnit, 'w' as CodeUnit]
    || t == ['t' as CodeUnit, 'r' as CodeUnit, 'y' as CodeUnit]
    || t == ['t' as CodeUnit, 'y' as CodeUnit, 'p' as CodeUnit, 'e' as CodeUnit, 'o' as CodeUnit, 'f' as CodeUnit]
    || t == ['v' as CodeUnit, 'a' as CodeUnit, 'r' as CodeUnit]
    || t == ['v' as CodeUnit, 'o' as CodeUnit, 'i' as CodeUnit, 'd' as CodeUnit]
    || t == ['w' as CodeUnit, 'h' as CodeUnit, 'i' as CodeUnit, 'l' as CodeUnit, 'e' as CodeUnit]
    || t == ['w' as CodeUnit, 'i' as CodeUnit, 't' as CodeUnit, 'h' as CodeUnit]
  }

  /** The words the scanner classifies as something other than an identifier. */
  predicate IsReservedWord(t: Utf16)
  {
    t == NullWord || t == TrueWord || t == FalseWord || IsKeywordText(t) || t == EnumWord
  }

  /** The kind and value of the token a scanned name becomes. */
  datatype NameToken = NameToken(kind: SyntaxKind, value: TokenValue)

  /** The classification as written: it compares the source TEXT of the name with the reserved
      words and marks an escaped reserved word invalid. */
  function ClassifyIdentifierName(text: Utf16, value: Utf16, escaped: bool): NameToken
  {
    if text == NullWord then
      if escaped then NameToken(Invalid, NoValue) else NameToken(NullLiteralToken, NoValue)
    else if text == TrueWord || text == FalseWord then
      if escaped then NameToken(Invalid, NoValue)
      else NameToken(BooleanLiteralToken, BooleanValue(text == TrueWord))
    else if IsKeywordText(text) then
      if escaped then NameToken(Invalid, NoValue) else NameToken(KeywordToken, NameValue(value))
    else if text == EnumWord then
      if escaped then NameToken(Invalid, NoValue) else NameToken(FutureReservedWordToken, NameValue(value))
    else NameToken(IdentifierToken, NameValue(value))
  }

  /** The classification table: a reserved text becomes its literal, keyword or future reserved
      word token (invalid when escaped), and every other name an identifier carrying its
      decoded name. */
  lemma ClassificationTable(text: Utf16, value: Utf16, escaped: bool)
    ensures var t := ClassifyIdentifierName(text, value, escaped);
            (t.kind == Invalid <==> escaped && IsReservedWord(text))
            && (t.kind == IdentifierToken <==> !IsReservedWord(text))
            && (!IsReservedWord(text) ==> t.value == NameValue(value))
            && (!escaped ==>
                  (t.kind == NullLiteralToken <==> text == NullWord)
                  && (t.kind == BooleanLiteralToken <==> text == TrueWord || text == FalseWord)
                  && (t.kind == BooleanLiteralToken ==> t.value == BooleanValue(text == TrueWord))
                  && (t.kind == KeywordToken <==> IsKeywordText(text))
                  && (t.kind == FutureReservedWordToken <==> text == EnumWord))
  {
    LiteralWordsAreNoKeywords();
  }

  /** The literal words and `enum` are distinct from each other and from every keyword. */
  lemma LiteralWordsAreNoKeywords()
    ensures !IsKeywordText(NullWord) && !IsKeywordText(TrueWord) && !IsKeywordText(FalseWord) && !IsKeywordText(EnumWord)
    ensures NullWord != TrueWord && NullWord != FalseWord && NullWord != EnumWord
    ensures TrueWord != FalseWord && TrueWord != EnumWord && FalseWord != EnumWord
  {
  }

  /** No reserved word contains a backslash. */
  lemma ReservedWordsArePlain(t: Utf16)
    requires IsReservedWord(t)
    ensures Backslash !in t
  {
  }

  /** As written, no name the scanner produces is ever classified invalid: a name with an escape
      has a backslash in its text, so its text is no reserved word and it becomes an
      identifier. */
  lemma ScannedNameNeverInvalid(cat: CategoryTable, src: Utf16, pos: nat)
    requires pos <= |src|
    ensures var r := GetCurrentIdentifierName(cat, src, pos);
            r.IdentifierName? ==>
              ClassifyIdentifierName(r.text, r.value, r.escaped).kind != Invalid
              && (r.escaped ==> ClassifyIdentifierName(r.text, r.value, r.escaped).kind == IdentifierToken)
  {
    IdentifierNameFacts(cat, src, pos);
    var r := GetCurrentIdentifierName(cat, src, pos);
    if r.IdentifierName? && IsReservedWord(r.text) {
      ReservedWordsArePlain(r.text);
    }
    if r.IdentifierName? {
      ClassificationTable(r.text, r.value, r.escaped);
    }
  }

  /** The words reserved only in some contexts, which the scanner leaves to later phases. */
  const ContextualWords: seq<Utf16> := [
      ['l' as CodeUnit, 'e' as CodeUnit, 't' as CodeUnit],
      ['y' as CodeUnit, 'i' as CodeUnit, 'e' as CodeUnit, 'l' as CodeUnit, 'd' as CodeUnit],
      ['s' as CodeUnit, 't' as CodeUnit, 'a' as CodeUnit, 't' as CodeUnit, 'i' as CodeUnit, 'c' as CodeUnit],
      ['a' as CodeUnit, 'w' as CodeUnit, 'a' as CodeUnit, 'i' as CodeUnit, 't' as CodeUnit],
      ['e' as CodeUnit, 'v' as CodeUnit, 'a' as CodeUnit, 'l' as CodeUnit],
      ['a' as CodeUnit, 'r' as CodeUnit, 'g' as CodeUnit, 'u' as CodeUnit, 'm' as CodeUnit, 'e' as CodeUnit, 'n' as CodeUnit, 't' as CodeUnit, 's' as CodeUnit],
      ['i' as CodeUnit, 'm' as CodeUnit, 'p' as CodeUnit, 'l' as CodeUnit, 'e' as CodeUnit, 'm' as CodeUnit, 'e' as CodeUnit, 'n' as CodeUnit, 't' as CodeUnit, 's' as CodeUnit],
      ['i' as CodeUnit, 'n' as CodeUnit, 't' as CodeUnit, 'e' as CodeUnit, 'r' as CodeUnit, 'f' as CodeUnit, 'a' as CodeUnit, 'c' as CodeUnit, 'e' as CodeUnit],
      ['p' as CodeUnit, 'a' as CodeUnit, 'c' as CodeUnit, 'k' as CodeUnit, 'a' as CodeUnit, 'g' as CodeUnit, 'e' as CodeUnit],
      ['p' as CodeUnit, 'r' as CodeUnit, 'i' as CodeUnit, 'v' as CodeUnit, 'a' as CodeUnit, 't' as CodeUnit, 'e' as CodeUnit],
      ['p' as CodeUnit, 'r' as CodeUnit, 'o' as CodeUnit, 't' as CodeUnit, 'e' as CodeUnit, 'c' as CodeUnit, 't' as CodeUnit, 'e' as CodeUnit, 'd' as CodeUnit],
      ['p' as CodeUnit, 'u' as CodeUnit, 'b' as CodeUnit, 'l' as CodeUnit, 'i' as CodeUnit, 'c' as CodeUnit]
    ]

  /** Every contextually reserved word is scanned as a plain identifier. */
  lemma ContextualWordsAreIdentifiers(w: Utf16, escaped: bool)
    requires w in ContextualWords
    ensures ClassifyIdentifierName(w, w, escaped) == NameToken(IdentifierToken, NameValue(w))
  {
  }

  /** The classification as intended: the decoded name is compared with the reserved words, so
      a reserved word written with an escape is invalid. */
  function ClassifyDecodedName(value: Utf16, escaped: bool): NameToken
  {
    ClassifyIdentifierName(value, value, escaped)
  }

  /** For every scanned name, the intended classification makes exactly the escaped reserved
      words invalid, and classifies a name written without escapes as the code as written
      does. */
  lemma DecodedClassificationFacts(cat: CategoryTable, src: Utf16, pos: nat)
    requires pos <= |src|
    ensures var r := GetCurrentIdentifierName(cat, src, pos);
            r.IdentifierName? ==>
              var t := ClassifyDecodedName(r.value, r.escaped);
              && (t.kind == Invalid <==> r.escaped && IsReservedWord(r.value))
              && (t.kind == IdentifierToken <==> !IsReservedWord(r.value))
              && (!r.escaped ==> t == ClassifyIdentifierName(r.text, r.value, r.escaped))
  {
    IdentifierNameFacts(cat, src, pos);
    var r := GetCurrentIdentifierName(cat, src, pos);
    if r.IdentifierName? {
      ClassificationTable(r.value, r.value, r.escaped);
    }
  }

  const IfWord: Utf16 := ['i' as CodeUnit, 'f' as CodeUnit]

  /** `\u0069f` is the keyword `if` written with an escape: as written it becomes an identifier
      named `if`, as intended an invalid token. */
  lemma EscapedKeywordReadAsIdentifier(cat: CategoryTable)
    requires LatinLettersAreLetters(cat)
    ensures var src := UnicodeEscapeOf('i' as CodeUnit) + ['f' as CodeUnit];
            && GetCurrentIdentifierName(cat, src, 0) == IdentifierName(src, IfWord, true, 7)
            && ClassifyIdentifierName(src, IfWord, true) == NameToken(IdentifierToken, NameValue(IfWord))
            && ClassifyDecodedName(IfWord, true) == NameToken(Invalid, NoValue)
  {
    var src := UnicodeEscapeOf('i' as CodeUnit) + ['f' as CodeUnit];
    LatinLettersStartNames(cat, 'i' as CodeUnit);
    LatinLettersStartNames(cat, 'f' as CodeUnit);
    EscapedStartRoundTrip(cat, 'i' as CodeUnit, ['f' as CodeUnit], []);
    assert src + [] == src;
    assert ['i' as CodeUnit] + ['f' as CodeUnit] == IfWord;
    assert src[0] == Backslash;
    if IsReservedWord(src) {
      ReservedWordsArePlain(src);
    }
    ClassificationTable(src, IfWord, true);
    ClassificationTable(IfWord, IfWord, true);
  }
}
