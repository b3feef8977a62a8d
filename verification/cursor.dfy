/** Reading the source through a cursor: peeking ahead, taking a run of units and advancing. */
module Cursor {
  import opened CodeUnits

  /** The unit `offset` places after the cursor, or the end-of-input unit past the end. */
  function PeekChar(src: Utf16, pos: nat, offset: nat): (c: CodeUnit)
  {
    if pos + offset < |src| then src[pos + offset] else Eof
  }

  /** A peeked unit other than the end-of-input unit lies inside the source; past the end every
      peek yields the end-of-input unit. */
  lemma PeekInside(src: Utf16, pos: nat, offset: nat)
    ensures PeekChar(src, pos, offset) != Eof ==> pos + offset < |src|
    ensures pos + offset < |src| ==> PeekChar(src, pos, offset) == src[pos + offset]
    ensures pos + offset >= |src| ==> PeekChar(src, pos, offset) == Eof
  {
  }

  /** The `length` units at the cursor, when that many remain. */
  function PeekCurrentString(src: Utf16, pos: nat, length: nat): (r: Option<Utf16>)
    ensures r.Some? <==> pos + length <= |src|
    ensures r.Some? ==> |r.value| == length && forall i :: 0 <= i < length ==> r.value[i] == PeekChar(src, pos, i)
  {
    if pos + length <= |src| then Some(src[pos..pos + length]) else None
  }

  function Min(a: int, b: int): int { if a <= b then a else b }

  /** One step forward, staying put at the end of the source. */
  function AdvancePosition(src: Utf16, pos: nat): (p: nat)
    requires pos <= |src|
    ensures p == Min(pos + 1, |src|)
  {
    if pos < |src| then pos + 1 else pos
  }

  /** A jump by `offset` (forwards or backwards), clamped to the source. */
  function AdvancePositionBy(src: Utf16, pos: nat, offset: int): (p: nat)
    requires pos <= |src|
    ensures p <= |src|
    ensures 0 <= pos + offset <= |src| ==> p == pos + offset
    ensures pos + offset > |src| ==> p == |src|
    ensures pos + offset < 0 ==> p == 0
  {
    if offset > 0 then
      if pos + offset - 1 < |src| then pos + offset else |src|
    else
      if pos + offset >= 0 then pos + offset else 0
  }
}

/** The `\u` and `\x` escapes, read at the cursor without advancing. */
module EncodedChars {
  import opened CodeUnits
  import opened CharClasses
  import opened Cursor

  /** A decoded escape: the unit it stands for and the source units it occupies. */
  datatype EncodedChar = EncodedChar(unit: CodeUnit, text: Utf16)

  function Hex2(a: CodeUnit, b: CodeUnit): int
    requires IsHexDigit(a) && IsHexDigit(b)
  {
    HexDigitValue(a) * 16 + HexDigitValue(b)
  }

  function Hex4(a: CodeUnit, b: CodeUnit, c: CodeUnit, d: CodeUnit): (v: int)
    requires IsHexDigit(a) && IsHexDigit(b) && IsHexDigit(c) && IsHexDigit(d)
    ensures 0 <= v < 0x1_0000
  {
    HexDigitValue(a) * 4096 + HexDigitValue(b) * 256 + HexDigitValue(c) * 16 + HexDigitValue(d)
  }

  /** The largest code point; the escape is rejected above it. */
  const MaxCodePoint := 1114111

  /** `\uXXXX`, or `\u{XXXX}` with exactly four digits, whose value is cast to one UTF-16 unit.
      Both forms occupy the first six units only. */
  function PeekCurrentUnicodeEncodedChar(src: Utf16, pos: nat): Option<EncodedChar>
  {
    if PeekChar(src, pos, 0) == '\\' as CodeUnit && PeekChar(src, pos, 1) == 'u' as CodeUnit then
      if IsHexDigit(PeekChar(src, pos, 2)) && IsHexDigit(PeekChar(src, pos, 3))
         && IsHexDigit(PeekChar(src, pos, 4)) && IsHexDigit(PeekChar(src, pos, 5)) then
        var v := Hex4(PeekChar(src, pos, 2), PeekChar(src, pos, 3), PeekChar(src, pos, 4), PeekChar(src, pos, 5))
                 % 0x1_0000;
        if v <= MaxCodePoint then
          match PeekCurrentString(src, pos, 6)
          case Some(t) => Some(EncodedChar(v, t))
          case None => None
        else None
      else if PeekChar(src, pos, 2) == '{' as CodeUnit && IsHexDigit(PeekChar(src, pos, 3))
              && IsHexDigit(PeekChar(src, pos, 4)) && IsHexDigit(PeekChar(src, pos, 5))
              && IsHexDigit(PeekChar(src, pos, 6)) && PeekChar(src, pos, 7) == '}' as CodeUnit then
        var v := Hex4(PeekChar(src, pos, 3), PeekChar(src, pos, 4), PeekChar(src, pos, 5), PeekChar(src, pos, 6))
                 % 0x1_0000;
        if v <= MaxCodePoint then
          match PeekCurrentString(src, pos, 6)
          case Some(t) => Some(EncodedChar(v, t))
          case None => None
        else None
      else None
    else None
  }

  /** `\xXX`: two hex digits, occupying four units. */
  function PeekCurrentHexEncodedChar(src: Utf16, pos: nat): Option<EncodedChar>
  {
    if PeekChar(src, pos, 0) == '\\' as CodeUnit && PeekChar(src, pos, 1) == 'x' as CodeUnit
       && IsHexDigit(PeekChar(src, pos, 2)) && IsHexDigit(PeekChar(src, pos, 3)) then
      var v := Hex2(PeekChar(src, pos, 2), PeekChar(src, pos, 3));
      match PeekCurrentString(src, pos, 4)
      case Some(t) => Some(EncodedChar(v, t))
      case None => None
    else None
  }

  predicate IsHexRun(src: Utf16, from: nat, to: nat)
    requires from <= to <= |src|
  {
    forall i :: from <= i < to ==> IsHexDigit(src[i])
  }

  /** `\u` followed by four hex digits at `pos`. */
  predicate IsPlainUnicodeEscapeAt(src: Utf16, pos: nat)
  {
    pos + 6 <= |src| && src[pos] == '\\' as CodeUnit && src[pos + 1] == 'u' as CodeUnit
    && IsHexRun(src, pos + 2, pos + 6)
  }

  /** `\u{` followed by four hex digits and `}` at `pos`. */
  predicate IsBracedUnicodeEscapeAt(src: Utf16, pos: nat)
  {
    pos + 8 <= |src| && src[pos] == '\\' as CodeUnit && src[pos + 1] == 'u' as CodeUnit
    && src[pos + 2] == '{' as CodeUnit && IsHexRun(src, pos + 3, pos + 7)
    && src[pos + 7] == '}' as CodeUnit
  }

  /** A `\u` escape is recognised exactly in its two shapes; the 16-bit cast and the code point
      bound never reject one. Either shape yields the six units at the cursor, so the braced
      form leaves its last digit and `}` behind. */
  lemma UnicodeEscapeShapes(src: Utf16, pos: nat)
    ensures PeekCurrentUnicodeEncodedChar(src, pos).Some?
            <==> IsPlainUnicodeEscapeAt(src, pos) || IsBracedUnicodeEscapeAt(src, pos)
    ensures IsPlainUnicodeEscapeAt(src, pos) ==>
              PeekCurrentUnicodeEncodedChar(src, pos)
              == Some(EncodedChar(Hex4(src[pos + 2], src[pos + 3], src[pos + 4], src[pos + 5]), src[pos..pos + 6]))
    ensures IsBracedUnicodeEscapeAt(src, pos) ==>
              PeekCurrentUnicodeEncodedChar(src, pos)
              == Some(EncodedChar(Hex4(src[pos + 3], src[pos + 4], src[pos + 5], src[pos + 6]), src[pos..pos + 6]))
  {
    if IsPlainUnicodeEscapeAt(src, pos) {
      PlainUnicodeEscape(src, pos);
    } else if IsBracedUnicodeEscapeAt(src, pos) {
      BracedUnicodeEscape(src, pos);
    } else {
      NoUnicodeEscape(src, pos);
    }
  }

  lemma PlainUnicodeEscape(src: Utf16, pos: nat)
    requires IsPlainUnicodeEscapeAt(src, pos)
    ensures PeekCurrentUnicodeEncodedChar(src, pos)
            == Some(EncodedChar(Hex4(src[pos + 2], src[pos + 3], src[pos + 4], src[pos + 5]), src[pos..pos + 6]))
  {
    assert IsHexDigit(src[pos + 2]) && IsHexDigit(src[pos + 3]) && IsHexDigit(src[pos + 4]) && IsHexDigit(src[pos + 5]);
  }

  lemma BracedUnicodeEscape(src: Utf16, pos: nat)
    requires IsBracedUnicodeEscapeAt(src, pos)
    ensures PeekCurrentUnicodeEncodedChar(src, pos)
            == Some(EncodedChar(Hex4(src[pos + 3], src[pos + 4], src[pos + 5], src[pos + 6]), src[pos..pos + 6]))
  {
    assert IsHexDigit(src[pos + 3]) && IsHexDigit(src[pos + 4]) && IsHexDigit(src[pos + 5]) && IsHexDigit(src[pos + 6]);
    assert !IsHexDigit(src[pos + 2]);
  }

  lemma NoUnicodeEscape(src: Utf16, pos: nat)
    requires !IsPlainUnicodeEscapeAt(src, pos) && !IsBracedUnicodeEscapeAt(src, pos)
    ensures PeekCurrentUnicodeEncodedChar(src, pos).None?
  {
    if PeekCurrentUnicodeEncodedChar(src, pos).Some? {
      if IsHexDigit(PeekChar(src, pos, 2)) && IsHexDigit(PeekChar(src, pos, 3))
         && IsHexDigit(PeekChar(src, pos, 4)) && IsHexDigit(PeekChar(src, pos, 5)) {
        assert IsPlainUnicodeEscapeAt(src, pos);
      } else {
        assert IsBracedUnicodeEscapeAt(src, pos);
      }
    }
  }

  /** A `\x` escape is recognised exactly when two hex digits follow, and yields their value. */
  lemma HexEscapeShape(src: Utf16, pos: nat)
    ensures PeekCurrentHexEncodedChar(src, pos).Some?
            <==> pos + 4 <= |src| && src[pos] == '\\' as CodeUnit && src[pos + 1] == 'x' as CodeUnit
                 && IsHexDigit(src[pos + 2]) && IsHexDigit(src[pos + 3])
    ensures PeekCurrentHexEncodedChar(src, pos).Some? ==>
              PeekCurrentHexEncodedChar(src, pos)
              == Some(EncodedChar(Hex2(src[pos + 2], src[pos + 3]), src[pos..pos + 4]))
  {
  }

  /** Every recognised escape is the run of source units it reports, and it is not empty. */
  lemma EncodedCharsAreSlices(src: Utf16, pos: nat)
    ensures PeekCurrentUnicodeEncodedChar(src, pos).Some? ==>
              var e := PeekCurrentUnicodeEncodedChar(src, pos).value;
              |e.text| == 6 && pos + 6 <= |src| && e.text == src[pos..pos + 6]
    ensures PeekCurrentHexEncodedChar(src, pos).Some? ==>
              var e := PeekCurrentHexEncodedChar(src, pos).value;
              |e.text| == 4 && pos + 4 <= |src| && e.text == src[pos..pos + 4]
  {
    UnicodeEscapeShapes(src, pos);
  }

  /** The `\uXXXX` spelling of a unit, upper-case digits. */
  function UnicodeEscapeOf(u: CodeUnit): (t: Utf16)
    ensures |t| == 6
  {
    ['\\' as CodeUnit, 'u' as CodeUnit, HexDigitOf(u / 4096), HexDigitOf(u / 256 % 16),
     HexDigitOf(u / 16 % 16), HexDigitOf(u % 16)]
  }

  /** The `\xXX` spelling of a unit below 256. */
  function HexEscapeOf(u: CodeUnit): (t: Utf16)
    requires u < 256
    ensures |t| == 4
  {
    ['\\' as CodeUnit, 'x' as CodeUnit, HexDigitOf(u / 16), HexDigitOf(u % 16)]
  }

  /** Decoding the `\uXXXX` spelling of any unit gives the unit back. */
  lemma UnicodeEscapeRoundTrip(u: CodeUnit, src: Utf16, pos: nat)
    requires pos + 6 <= |src| && src[pos..pos + 6] == UnicodeEscapeOf(u)
    ensures PeekCurrentUnicodeEncodedChar(src, pos) == Some(EncodedChar(u, UnicodeEscapeOf(u)))
  {
    HexDigitsOfUnit(u);
    assert forall i :: 0 <= i < 6 ==> src[pos + i] == UnicodeEscapeOf(u)[i];
    assert IsPlainUnicodeEscapeAt(src, pos);
    PlainUnicodeEscape(src, pos);
  }

  /** The four hex digits of a unit recombine to the unit. */
  lemma HexDigitsOfUnit(u: CodeUnit)
    ensures u / 4096 < 16
    ensures (u / 4096) * 4096 + (u / 256 % 16) * 256 + (u / 16 % 16) * 16 + u % 16 == u
  {
    assert u == (u / 16) * 16 + u % 16;
    assert u / 16 == (u / 256) * 16 + (u / 16) % 16 by {
      assert u / 256 == (u / 16) / 16;
    }
    assert u / 256 == (u / 4096) * 16 + (u / 256) % 16 by {
      assert u / 4096 == (u / 256) / 16;
    }
  }

  /** Decoding the `\xXX` spelling of any unit below 256 gives the unit back. */
  lemma HexEscapeRoundTrip(u: CodeUnit, src: Utf16, pos: nat)
    requires u < 256
    requires pos + 4 <= |src| && src[pos..pos + 4] == HexEscapeOf(u)
    ensures PeekCurrentHexEncodedChar(src, pos) == Some(EncodedChar(u, HexEscapeOf(u)))
  {
    assert forall i :: 0 <= i < 4 ==> src[pos + i] == HexEscapeOf(u)[i];
    HexEscapeShape(src, pos);
  }

  /** The end of the run of hex digits starting at `i`. */
  function HexRunEnd(src: Utf16, i: nat): (j: nat)
    requires i <= |src|
    ensures i <= j <= |src| && IsHexRun(src, i, j) && (j < |src| ==> !IsHexDigit(src[j]))
    decreases |src| - i
  {
    if i < |src| && IsHexDigit(src[i]) then HexRunEnd(src, i + 1) else i
  }

  predicate AllHex(s: Utf16)
  {
    forall k :: 0 <= k < |s| ==> IsHexDigit(s[k])
  }

  /** The value of a run of hex digits, most significant first. */
  function HexValue(s: Utf16): nat
    requires AllHex(s)
  {
    if s == [] then 0 else HexValue(s[..|s| - 1]) * 16 + HexDigitValue(s[|s| - 1])
  }

  /** The shortest hex spelling of a number. */
  function HexDigitsOf(n: nat): (s: Utf16)
    ensures |s| >= 1 && AllHex(s) && HexValue(s) == n
  {
    if n < 16 then [HexDigitOf(n)]
    else
      var s := HexDigitsOf(n / 16) + [HexDigitOf(n % 16)];
      assert s[..|s| - 1] == HexDigitsOf(n / 16);
      s
  }

  /** A braced `\u` escape as intended: `\u{`, one or more hex digits naming a code point no
      greater than U+10FFFF, and `}`; it yields the code point, which may lie above the 16-bit
      range, and occupies every unit up to and including the brace. */
  function PeekBracedEscapeCorrected(src: Utf16, pos: nat): (r: Option<(nat, Utf16)>)
    ensures r.Some? ==> r.value.0 <= MaxCodePoint && pos + |r.value.1| <= |src|
                        && |r.value.1| >= 5 && r.value.1 == src[pos..pos + |r.value.1|]
                        && r.value.1[|r.value.1| - 1] == '}' as CodeUnit
  {
    if pos + 3 <= |src| && src[pos] == '\\' as CodeUnit && src[pos + 1] == 'u' as CodeUnit
       && src[pos + 2] == '{' as CodeUnit then
      var j := HexRunEnd(src, pos + 3);
      if pos + 3 < j < |src| && src[j] == '}' as CodeUnit then
        var digits := src[pos + 3..j];
        assert AllHex(digits) by {
          assert forall k :: 0 <= k < |digits| ==> digits[k] == src[pos + 3 + k];
        }
        var v := HexValue(digits);
        if v <= MaxCodePoint then Some((v, src[pos..j + 1])) else None
      else None
    else None
  }

  /** The braced spelling of a code point, with its shortest hex digits. */
  function BracedEscapeOf(cp: nat): (t: Utf16)
    ensures |t| >= 5
  {
    ['\\' as CodeUnit, 'u' as CodeUnit, '{' as CodeUnit] + HexDigitsOf(cp) + ['}' as CodeUnit]
  }

  /** As intended, every code point up to U+10FFFF round-trips through its braced spelling, and
      the escape takes the whole spelling. */
  lemma BracedEscapeRoundTrip(cp: nat, rest: Utf16)
    requires cp <= MaxCodePoint
    ensures PeekBracedEscapeCorrected(BracedEscapeOf(cp) + rest, 0) == Some((cp, BracedEscapeOf(cp)))
  {
    var digits := HexDigitsOf(cp);
    var t := BracedEscapeOf(cp);
    var src := t + rest;
    var j := 3 + |digits|;
    assert forall k :: 0 <= k < |digits| ==> src[3 + k] == digits[k];
    assert src[j] == '}' as CodeUnit;
    assert HexRunEnd(src, 3) == j;
    assert src[3..j] == digits;
    assert src[0..j + 1] == t;
  }

  /** `\u{0041}`: as written the escape stands for `A` but takes only its first six units,
      leaving `1}` behind; as intended it takes all eight. */
  lemma BracedEscapeTakesSixUnits()
    ensures var src := ['\\' as CodeUnit, 'u' as CodeUnit, '{' as CodeUnit, '0' as CodeUnit, '0' as CodeUnit,
                        '4' as CodeUnit, '1' as CodeUnit, '}' as CodeUnit];
            && PeekCurrentUnicodeEncodedChar(src, 0) == Some(EncodedChar(0x41, src[..6]))
            && PeekBracedEscapeCorrected(src, 0) == Some((0x41, src))
  {
    var src := ['\\' as CodeUnit, 'u' as CodeUnit, '{' as CodeUnit, '0' as CodeUnit, '0' as CodeUnit,
                '4' as CodeUnit, '1' as CodeUnit, '}' as CodeUnit];
    assert IsBracedUnicodeEscapeAt(src, 0);
    BracedUnicodeEscape(src, 0);
    assert HexRunEnd(src, 3) == 7;
    var digits := ['0' as CodeUnit, '0' as CodeUnit, '4' as CodeUnit, '1' as CodeUnit];
    assert src[3..7] == digits;
    assert digits[..3][..2][..1] == ['0' as CodeUnit];
    assert HexValue(digits[..3][..2][..1]) == 0;
    assert HexValue(digits[..3][..2]) == 0;
    assert HexValue(digits[..3]) == 4;
    assert HexValue(digits) == 0x41;
    assert src[0..8] == src;
  }

  /** `\u{41}` is no escape as written and stands for `A` as intended. */
  lemma ShortBracedEscapeRejected()
    ensures var src := ['\\' as CodeUnit, 'u' as CodeUnit, '{' as CodeUnit, '4' as CodeUnit, '1' as CodeUnit,
                        '}' as CodeUnit];
            && PeekCurrentUnicodeEncodedChar(src, 0).None?
            && PeekBracedEscapeCorrected(src, 0) == Some((0x41, src))
  {
    var src := ['\\' as CodeUnit, 'u' as CodeUnit, '{' as CodeUnit, '4' as CodeUnit, '1' as CodeUnit,
                '}' as CodeUnit];
    assert !IsHexDigit(src[2]);
    NoUnicodeEscape(src, 0);
    assert HexRunEnd(src, 3) == 5;
    var digits := ['4' as CodeUnit, '1' as CodeUnit];
    assert src[3..5] == digits;
    assert digits[..1] == ['4' as CodeUnit];
    assert HexValue(digits[..1]) == 4;
    assert HexValue(digits) == 0x41;
    assert src[0..6] == src;
  }
}
