/** Identifier names: scanning a name, with its `\u` escapes, and classifying it as a literal,
    keyword, future reserved word or identifier. */
module Identifiers {
  import opened CodeUnits
  import opened CharClasses
  import opened Cursor
  import opened EncodedChars
  import opened SyntaxKinds
  import opened SyntaxTrees

  /** The outcome of scanning for a name: its source text, the name it spells with every escape
      decoded, whether any unit was written as an escape, and where it ends. */
  datatype IdentifierScan =
    | NoIdentifier
    | IdentifierName(text: Utf16, value: Utf16, escaped: bool, end: nat)

  const Backslash: CodeUnit := '\\' as CodeUnit

  /** The unit at the cursor as a name reads it: a `\u` escape decoded, nothing for a backslash
      that does not start one, and otherwise the unit itself (the end-of-input unit past the
      end). */
  function PeekNameUnit(src: Utf16, pos: nat): (r: Option<EncodedChar>)
    ensures pos >= |src| ==> r == Some(EncodedChar(Eof, [Eof]))
    ensures r.Some? && pos < |src| ==>
              pos + |r.value.text| <= |src| && r.value.text == src[pos..pos + |r.value.text|]
    ensures r.Some? && PeekChar(src, pos, 0) == Backslash ==> |r.value.text| == 6
    ensures r.Some? && PeekChar(src, pos, 0) != Backslash ==> r.value.text == [r.value.unit]
  {
    var c := PeekChar(src, pos, 0);
    if c == Backslash then
      EncodedCharsAreSlices(src, pos);
      PeekCurrentUnicodeEncodedChar(src, pos)
    else Some(EncodedChar(c, [c]))
  }

  /** What one turn of the name loop does at the cursor. */
  datatype NameStep =
    | BadEscape
    | EndOfName
    | Take(consumed: Utf16, unit: CodeUnit, isEscape: bool, next: nat)

  /** A unit that continues a name is never a backslash and never the end-of-input unit. */
  lemma ContinueUnitIsPlain(cat: CategoryTable, c: CodeUnit)
    requires IsIdentifierContinueChar(cat, c)
    ensures c != Backslash && c != Eof
  {
    EofIsNoNameOrSpace(cat);
    assert IsPatternChar(Backslash);
    PatternCharsExcluded(cat, Backslash);
  }

  /** One turn of the loop: a backslash that starts no escape rejects the whole name, a unit
      (plain or escaped) that continues a name is taken, and any other unit ends the name. */
  function NameStepAt(cat: CategoryTable, src: Utf16, pos: nat): (s: NameStep)
    requires pos <= |src|
    ensures s.Take? ==>
              pos < s.next <= |src| && s.consumed == src[pos..s.next]
              && IsIdentifierContinueChar(cat, s.unit)
              && (s.isEscape <==> Backslash in s.consumed)
              && (!s.isEscape ==> s.consumed == [s.unit])
  {
    match PeekNameUnit(src, pos)
    case None => BadEscape
    case Some(e) =>
      if IsIdentifierContinueChar(cat, e.unit) then
        ContinueUnitIsPlain(cat, e.unit);
        var isEscape := PeekChar(src, pos, 0) == Backslash;
        assert isEscape ==> e.text[0] == src[pos];
        Take(e.text, e.unit, isEscape, AdvancePositionBy(src, pos, |e.text|))
      else EndOfName
  }

  /** The scanner's loop over the rest of a name; `text` and `value` are its two builders and
      `escaped` records whether an escape was met. */
  function NameLoop(cat: CategoryTable, src: Utf16, pos: nat, text: Utf16, value: Utf16,
                    escaped: bool): IdentifierScan
    requires pos <= |src|
    decreases |src| - pos
  {
    match NameStepAt(cat, src, pos)
    case BadEscape => NoIdentifier
    case EndOfName => IdentifierName(text, value, escaped, pos)
    case Take(t, u, isEscape, next) => NameLoop(cat, src, next, text + t, value + [u], escaped || isEscape)
  }

  /** A name at `pos`: an identifier start unit, plain or escaped, then the loop. */
  function GetCurrentIdentifierName(cat: CategoryTable, src: Utf16, pos: nat): IdentifierScan
    requires pos <= |src|
  {
    match PeekNameUnit(src, pos)
    case None => NoIdentifier
    case Some(e) =>
      if !IsIdentifierStartChar(cat, e.unit) then NoIdentifier
      else NameLoop(cat, src, AdvancePositionBy(src, pos, |e.text|), e.text, [e.unit],
                    PeekChar(src, pos, 0) == Backslash)
  }

  /** Every unit of a name after the first continues a name. */
  predicate ContinuesName(cat: CategoryTable, value: Utf16)
  {
    forall i :: 1 <= i < |value| ==> IsIdentifierContinueChar(cat, value[i])
  }

  /** What holds of the builders throughout: the text is the source run from `start`, the name
      starts with an identifier start unit and every later unit continues a name, the text holds
      a backslash exactly when an escape was met, and without one the text is the name itself. */
  ghost predicate NameInvariant(cat: CategoryTable, src: Utf16, start: nat, pos: nat, text: Utf16,
                                value: Utf16, escaped: bool)
  {
    start <= pos <= |src| && text == src[start..pos]
    && |value| >= 1 && IsIdentifierStartChar(cat, value[0]) && ContinuesName(cat, value)
    && (escaped <==> Backslash in text)
    && (!escaped ==> text == value)
  }

  /** Loop form of the scanner's facts: the invariant is kept to the end of the name. */
  lemma {:induction false} NameLoopFacts(cat: CategoryTable, src: Utf16, start: nat, pos: nat,
                                         text: Utf16, value: Utf16, escaped: bool)
    requires NameInvariant(cat, src, start, pos, text, value, escaped)
    ensures var r := NameLoop(cat, src, pos, text, value, escaped);
            r.IdentifierName? ==>
              pos <= r.end && NameInvariant(cat, src, start, r.end, r.text, r.value, r.escaped)
    decreases |src| - pos
  {
    match NameStepAt(cat, src, pos)
    case BadEscape =>
    case EndOfName =>
    case Take(t, u, isEscape, next) =>
      NameInvariantStep(cat, src, start, pos, text, value, escaped, t, u, isEscape, next);
      NameLoopFacts(cat, src, start, next, text + t, value + [u], escaped || isEscape);
  }

  /** A unit the loop takes keeps the invariant. */
  lemma NameInvariantStep(cat: CategoryTable, src: Utf16, start: nat, pos: nat, text: Utf16, value: Utf16,
                          escaped: bool, t: Utf16, u: CodeUnit, isEscape: bool, next: nat)
    requires NameInvariant(cat, src, start, pos, text, value, escaped)
    requires pos < next <= |src| && t == src[pos..next] && IsIdentifierContinueChar(cat, u)
    requires (isEscape <==> Backslash in t) && (!isEscape ==> t == [u])
    ensures NameInvariant(cat, src, start, next, text + t, value + [u], escaped || isEscape)
  {
    assert src[start..next] == src[start..pos] + src[pos..next];
    assert (value + [u])[0] == value[0];
    assert forall i :: 1 <= i < |value| ==> (value + [u])[i] == value[i];
  }

  /** The loop stops only where a unit does not continue the name. */
  lemma {:induction false} NameLoopStopsAtEnd(cat: CategoryTable, src: Utf16, pos: nat, text: Utf16,
                                              value: Utf16, escaped: bool)
    requires pos <= |src|
    ensures var r := NameLoop(cat, src, pos, text, value, escaped);
            r.IdentifierName? ==> r.end <= |src| && NameStepAt(cat, src, r.end) == EndOfName
    decreases |src| - pos
  {
    match NameStepAt(cat, src, pos)
    case BadEscape =>
    case EndOfName =>
    case Take(t, u, isEscape, next) =>
      NameLoopStopsAtEnd(cat, src, next, text + t, value + [u], escaped || isEscape);
  }

  /** The first unit of a name: when it starts one, the loop takes over after it with the
      invariant established. */
  lemma NameStart(cat: CategoryTable, src: Utf16, pos: nat)
    requires pos <= |src|
    requires PeekNameUnit(src, pos).Some? && IsIdentifierStartChar(cat, PeekNameUnit(src, pos).value.unit)
    ensures var e := PeekNameUnit(src, pos).value;
            var isEscape := PeekChar(src, pos, 0) == Backslash;
            pos < |src| && pos + |e.text| <= |src|
            && GetCurrentIdentifierName(cat, src, pos) == NameLoop(cat, src, pos + |e.text|, e.text, [e.unit], isEscape)
            && NameInvariant(cat, src, pos, pos + |e.text|, e.text, [e.unit], isEscape)
  {
    var e := PeekNameUnit(src, pos).value;
    EofIsNoNameOrSpace(cat);
    var isEscape := PeekChar(src, pos, 0) == Backslash;
    assert Backslash in e.text <==> isEscape by {
      if isEscape {
        assert e.text[0] == src[pos];
      } else {
        assert e.text == [e.unit];
        assert IsPatternChar(Backslash);
        PatternCharsExcluded(cat, Backslash);
      }
    }
  }

  /** A scanned name: its text is the source run it was read from, the name it spells starts
      with an identifier start unit and goes on with identifier continue units, it was written
      with an escape exactly when its text holds a backslash, without one the text is the name,
      and the unit after it does not continue a name. */
  lemma IdentifierNameFacts(cat: CategoryTable, src: Utf16, pos: nat)
    requires pos <= |src|
    ensures IsScannedName(cat, src, pos, GetCurrentIdentifierName(cat, src, pos))
  {
    var p := PeekNameUnit(src, pos);
    if p.Some? && IsIdentifierStartChar(cat, p.value.unit) {
      NameFoundFacts(cat, src, pos);
    } else {
      assert GetCurrentIdentifierName(cat, src, pos) == NoIdentifier;
    }
  }

  /** The facts of a scan whose first unit starts a name. */
  lemma NameFoundFacts(cat: CategoryTable, src: Utf16, pos: nat)
    requires pos <= |src|
    requires PeekNameUnit(src, pos).Some? && IsIdentifierStartChar(cat, PeekNameUnit(src, pos).value.unit)
    ensures IsScannedName(cat, src, pos, GetCurrentIdentifierName(cat, src, pos))
  {
    var e := PeekNameUnit(src, pos).value;
    var isEscape := PeekChar(src, pos, 0) == Backslash;
    NameStart(cat, src, pos);
    LoopScansName(cat, src, pos, pos + |e.text|, e.text, [e.unit], isEscape);
  }

  /** Both loop facts together, for a loop started after the first unit. */
  lemma LoopScansName(cat: CategoryTable, src: Utf16, start: nat, pos: nat, text: Utf16,
                      value: Utf16, escaped: bool)
    requires start < pos && NameInvariant(cat, src, start, pos, text, value, escaped)
    ensures IsScannedName(cat, src, start, NameLoop(cat, src, pos, text, value, escaped))
  {
    NameLoopFacts(cat, src, start, pos, text, value, escaped);
    NameLoopStopsAtEnd(cat, src, pos, text, value, escaped);
  }

  /** What a scan that found a name at `start` satisfies: the name ends after `start`, the
      invariant holds of it, and the unit after it does not continue it. */
  ghost predicate IsScannedName(cat: CategoryTable, src: Utf16, start: nat, r: IdentifierScan)
  {
    r.IdentifierName? ==>
      start < r.end && NameInvariant(cat, src, start, r.end, r.text, r.value, r.escaped)
      && NameStepAt(cat, src, r.end) == EndOfName
  }

  /** A plain unit that continues a name is taken on its own. */
  lemma PlainNameStep(cat: CategoryTable, src: Utf16, pos: nat)
    requires pos < |src| && IsIdentifierContinueChar(cat, src[pos])
    ensures NameStepAt(cat, src, pos) == Take([src[pos]], src[pos], false, pos + 1)
  {
    ContinueUnitIsPlain(cat, src[pos]);
  }

  /** The end of the source, or a plain unit that does not continue a name, ends the name. */
  lemma PlainNameEnd(cat: CategoryTable, src: Utf16, pos: nat)
    requires pos <= |src|
    requires pos < |src| ==> src[pos] != Backslash && !IsIdentifierContinueChar(cat, src[pos])
    ensures NameStepAt(cat, src, pos) == EndOfName
  {
    EofIsNoNameOrSpace(cat);
  }

  /** Every unit continues a name, stated unit by unit from the front. */
  predicate AllContinue(cat: CategoryTable, v: Utf16)
  {
    v == [] || (IsIdentifierContinueChar(cat, v[0]) && AllContinue(cat, v[1..]))
  }

  lemma {:induction false} AllContinueOf(cat: CategoryTable, v: Utf16)
    requires forall i :: 0 <= i < |v| ==> IsIdentifierContinueChar(cat, v[i])
    ensures AllContinue(cat, v)
    decreases |v|
  {
    if v != [] {
      assert forall i :: 0 <= i < |v[1..]| ==> v[1..][i] == v[i + 1];
      AllContinueOf(cat, v[1..]);
    }
  }

  /** Scanning a name written without escapes gives the name back, up to a unit that neither
      continues a name nor is a backslash. */
  lemma NameLoopRoundTrip(cat: CategoryTable, src: Utf16, pos: nat, v: Utf16,
                          text: Utf16, value: Utf16, escaped: bool)
    requires pos + |v| <= |src| && src[pos..pos + |v|] == v
    requires forall i :: 0 <= i < |v| ==> IsIdentifierContinueChar(cat, v[i])
    requires pos + |v| < |src| ==>
               src[pos + |v|] != Backslash && !IsIdentifierContinueChar(cat, src[pos + |v|])
    ensures NameLoop(cat, src, pos, text, value, escaped)
            == IdentifierName(text + v, value + v, escaped, pos + |v|)
  {
    AllContinueOf(cat, v);
    PlainNameLoop(cat, src, pos, v, text, value, escaped);
  }

  lemma {:induction false} PlainNameLoop(cat: CategoryTable, src: Utf16, pos: nat, v: Utf16,
                                         text: Utf16, value: Utf16, escaped: bool)
    requires pos + |v| <= |src| && src[pos..pos + |v|] == v && AllContinue(cat, v)
    requires pos + |v| < |src| ==>
               src[pos + |v|] != Backslash && !IsIdentifierContinueChar(cat, src[pos + |v|])
    ensures NameLoop(cat, src, pos, text, value, escaped)
            == IdentifierName(text + v, value + v, escaped, pos + |v|)
    decreases |v|
  {
    if v == [] {
      PlainNameEnd(cat, src, pos);
      assert text + v == text && value + v == value;
    } else {
      var u, w := v[0], v[1..];
      assert src[pos] == u;
      PlainNameStep(cat, src, pos);
      assert src[pos + 1..pos + 1 + |w|] == w;
      PlainNameLoop(cat, src, pos + 1, w, text + [u], value + [u], escaped);
      AppendFirst(text, v);
      AppendFirst(value, v);
    }
  }

  lemma AppendFirst(x: Utf16, v: Utf16)
    requires v != []
    ensures x + [v[0]] + v[1..] == x + v
  {
    assert [v[0]] + v[1..] == v;
  }

  predicate IsPlainName(cat: CategoryTable, v: Utf16)
  {
    |v| >= 1 && IsIdentifierStartChar(cat, v[0]) && ContinuesName(cat, v)
  }

  /** Any name made of a start unit and continue units, followed by a unit that does not
      continue it, scans back as itself, unescaped. */
  lemma IdentifierNameRoundTrip(cat: CategoryTable, v: Utf16, rest: Utf16)
    requires IsPlainName(cat, v)
    requires rest != [] ==> rest[0] != Backslash && !IsIdentifierContinueChar(cat, rest[0])
    ensures GetCurrentIdentifierName(cat, v + rest, 0) == IdentifierName(v, v, false, |v|)
  {
    PlainNameStart(cat, v, rest);
    PlainNameRest(cat, v, rest);
  }

  /** A plain name's first unit starts the name loop after it. */
  lemma PlainNameStart(cat: CategoryTable, v: Utf16, rest: Utf16)
    requires IsPlainName(cat, v)
    ensures GetCurrentIdentifierName(cat, v + rest, 0) == NameLoop(cat, v + rest, 1, [v[0]], [v[0]], false)
  {
    assert v[0] != Backslash by {
      assert IsPatternChar(Backslash);
      PatternCharsExcluded(cat, Backslash);
    }
    assert (v + rest)[0] == v[0];
  }

  /** After a plain name's first unit, the name loop reads the rest of the name. */
  lemma PlainNameRest(cat: CategoryTable, v: Utf16, rest: Utf16)
    requires IsPlainName(cat, v)
    requires rest != [] ==> rest[0] != Backslash && !IsIdentifierContinueChar(cat, rest[0])
    ensures NameLoop(cat, v + rest, 1, [v[0]], [v[0]], false) == IdentifierName(v, v, false, |v|)
  {
    var src := v + rest;
    assert src[1..1 + |v[1..]|] == v[1..];
    NameLoopRoundTrip(cat, src, 1, v[1..], [v[0]], [v[0]], false);
    assert [v[0]] + v[1..] == v;
  }

  /** A name whose first unit is written as a `\uXXXX` escape scans as the decoded name, marked
      escaped. */
  lemma EscapedStartRoundTrip(cat: CategoryTable, u: CodeUnit, v: Utf16, rest: Utf16)
    requires IsIdentifierStartChar(cat, u)
    requires forall i :: 0 <= i < |v| ==> IsIdentifierContinueChar(cat, v[i])
    requires rest != [] ==> rest[0] != Backslash && !IsIdentifierContinueChar(cat, rest[0])
    ensures GetCurrentIdentifierName(cat, UnicodeEscapeOf(u) + v + rest, 0)
            == IdentifierName(UnicodeEscapeOf(u) + v, [u] + v, true, 6 + |v|)
  {
    var esc := UnicodeEscapeOf(u);
    var src := esc + v + rest;
    assert src[0..6] == esc;
    UnicodeEscapeRoundTrip(u, src, 0);
    assert src[6..6 + |v|] == v;
    NameLoopRoundTrip(cat, src, 6, v, esc, [u], true);
  }
}
