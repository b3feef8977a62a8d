/** The significant digits of a decimal literal: keeping the first twenty, rounding on the
    twenty-first and carrying a one through the kept digits. */
module SignificantDigits {
  import opened CodeUnits
  import opened SyntaxTrees

  /** How many significant digits a decimal literal keeps. */
  const MaxSignificantDigits: nat := 20

  function DigitValue(c: CodeUnit): nat
  {
    if IsDigit(c) then c - Unit('0') else 0
  }

  predicate AllDigits(s: Utf16)
  {
    forall i :: 0 <= i < |s| ==> IsDigit(s[i])
  }

  /** The value of a run of decimal digits, most significant first. */
  function DigitsValue(s: Utf16): nat
  {
    if s == [] then 0 else DigitsValue(s[..|s| - 1]) * 10 + DigitValue(s[|s| - 1])
  }

  function Pow10(n: nat): nat
  {
    if n == 0 then 1 else 10 * Pow10(n - 1)
  }

  /** A run of `n` zero digits. */
  function Zeros(n: nat): (z: Utf16)
    ensures |z| == n && AllDigits(z)
  {
    seq(n, _ => Unit('0'))
  }

  /** The digits that make the significant part round up: five to nine. */
  predicate IsRoundUpDigit(c: CodeUnit)
  {
    Unit('5') <= c <= Unit('9')
  }

  /** A run of digits after one was added at its last place, with the carry out of its first. */
  datatype Carried = Carried(digits: Utf16, carry: bool)

  /** Adding one at the last place, as the carry loops do: the trailing nines become zeros and the
      last other unit goes up by one (the 16-bit cast wraps); a carry is left over only when every
      unit was a nine, an empty run included. */
  function AddOne(s: Utf16): (r: Carried)
    ensures |r.digits| == |s|
  {
    if s == [] then Carried([], true)
    else if s[|s| - 1] == Unit('9') then
      var p := AddOne(s[..|s| - 1]);
      Carried(p.digits + [Unit('0')], p.carry)
    else Carried(s[..|s| - 1] + [NextUnit(s[|s| - 1])], false)
  }

  /** The unit after `c`, wrapping at 16 bits like the cast back to a character. */
  function NextUnit(c: CodeUnit): CodeUnit
  {
    if c < 0xFFFF then c + 1 else 0
  }

  /** On decimal digits, adding one is arithmetic: the new digits plus the carry, worth ten to the
      length of the run, are the old value plus one. */
  lemma {:induction false} AddOneValue(s: Utf16)
    requires AllDigits(s)
    ensures AllDigits(AddOne(s).digits)
    ensures DigitsValue(AddOne(s).digits) + (if AddOne(s).carry then Pow10(|s|) else 0) == DigitsValue(s) + 1
  {
    if s != [] {
      var init, last := s[..|s| - 1], s[|s| - 1];
      var r := AddOne(s);
      if last == Unit('9') {
        var p := AddOne(init);
        AddOneValue(init);
        assert r.digits[..|r.digits| - 1] == p.digits;
        assert AllDigits(r.digits) by {
          forall i | 0 <= i < |r.digits| ensures IsDigit(r.digits[i]) {
            if i < |p.digits| { assert r.digits[i] == p.digits[i]; }
          }
        }
        assert DigitsValue(r.digits) == DigitsValue(p.digits) * 10;
      } else {
        assert r.digits[..|r.digits| - 1] == init;
        assert AllDigits(r.digits) by {
          forall i | 0 <= i < |r.digits| ensures IsDigit(r.digits[i]) {
            if i < |init| { assert r.digits[i] == s[i]; }
          }
        }
        assert DigitsValue(r.digits) == DigitsValue(init) * 10 + DigitValue(last) + 1;
      }
    }
  }

  /** A carry survives exactly a run of nines, and it leaves a run of zeros behind. */
  lemma {:induction false} AddOneCarries(s: Utf16)
    ensures AddOne(s).carry <==> forall i :: 0 <= i < |s| ==> s[i] == Unit('9')
    ensures AddOne(s).carry ==> AddOne(s).digits == Zeros(|s|)
  {
    if s != [] {
      var init := s[..|s| - 1];
      AddOneCarries(init);
      if s[|s| - 1] == Unit('9') {
        if AddOne(init).carry {
          assert forall i :: 0 <= i < |s| ==> s[i] == Unit('9') by {
            forall i | 0 <= i < |s| ensures s[i] == Unit('9') {
              if i < |init| { assert s[i] == init[i]; }
            }
          }
          assert Zeros(|init|) + [Unit('0')] == Zeros(|s|);
        } else {
          var i :| 0 <= i < |init| && init[i] != Unit('9');
          assert s[i] == init[i];
        }
      }
    }
  }

  /** The carry loop over the fraction followed, when a carry is left, by the loop over the whole
      part is one addition at the last place of the two runs joined. */
  lemma {:induction false} AddOneAcross(whole: Utf16, fraction: Utf16)
    ensures var f := AddOne(fraction);
            var w := if f.carry then AddOne(whole) else Carried(whole, false);
            AddOne(whole + fraction) == Carried(w.digits + f.digits, w.carry)
    decreases |fraction|
  {
    if fraction == [] {
      assert whole + fraction == whole;
    } else {
      var init := fraction[..|fraction| - 1];
      assert (whole + fraction)[..|whole + fraction| - 1] == whole + init;
      AddOneAcross(whole, init);
      if fraction[|fraction| - 1] != Unit('9') {
        assert (whole + fraction)[..|whole + fraction| - 1] + [NextUnit(fraction[|fraction| - 1])]
               == whole + (init + [NextUnit(fraction[|fraction| - 1])]);
      }
    }
  }

  /** A trailing run of nines is carried through unchanged in shape: zeros, and then the addition
      goes on at the unit before it. */
  lemma {:induction false} AddOneThroughNines(s: Utf16, k: nat)
    requires k <= |s|
    requires forall j :: k <= j < |s| ==> s[j] == Unit('9')
    ensures AddOne(s) == Carried(AddOne(s[..k]).digits + Zeros(|s| - k), AddOne(s[..k]).carry)
    decreases |s| - k
  {
    if k == |s| {
      assert s[..k] == s;
      assert AddOne(s).digits + Zeros(0) == AddOne(s).digits;
    } else {
      var init := s[..|s| - 1];
      assert init[..k] == s[..k];
      AddOneThroughNines(init, k);
      assert Zeros(|init| - k) + [Unit('0')] == Zeros(|s| - k);
    }
  }

  /** The significant digits after the cut: the kept whole and fraction digits, whether the first
      dropped digit rounds up, and how many whole digits were dropped. */
  datatype Truncated = Truncated(whole: Utf16, fraction: Utf16, roundUp: bool, shift: nat)

  /** Keeping at most twenty significant digits. Whole digits beyond the twentieth are dropped
      together with the whole fraction; otherwise the fraction is cut where the total reaches
      twenty. */
  function Truncate(whole: Utf16, fraction: Utf16): Truncated
  {
    if |whole| > MaxSignificantDigits then
      Truncated(whole[..MaxSignificantDigits], [], IsRoundUpDigit(whole[MaxSignificantDigits]),
                |whole| - MaxSignificantDigits)
    else if |whole| + |fraction| > MaxSignificantDigits then
      var keep := MaxSignificantDigits - |whole|;
      Truncated(whole, fraction[..keep], IsRoundUpDigit(fraction[keep]), 0)
    else Truncated(whole, fraction, false, 0)
  }

  /** The kept digits are the first twenty significant digits, the whole part is cut only past
      its twentieth digit, the rounding looks at the twenty-first digit, and the shift counts the
      dropped whole digits. */
  lemma TruncateKeepsLeadingDigits(whole: Utf16, fraction: Utf16)
    ensures var t := Truncate(whole, fraction);
            var all := whole + fraction;
            && t.whole + t.fraction == all[..Min(|all|, MaxSignificantDigits)]
            && t.whole == whole[..Min(|whole|, MaxSignificantDigits)]
            && (t.roundUp <==> |all| > MaxSignificantDigits && IsRoundUpDigit(all[MaxSignificantDigits]))
            && t.shift == |whole| - |t.whole|
  {
    var all := whole + fraction;
    if |whole| > MaxSignificantDigits {
      assert all[..MaxSignificantDigits] == whole[..MaxSignificantDigits];
      assert all[MaxSignificantDigits] == whole[MaxSignificantDigits];
    } else if |all| > MaxSignificantDigits {
      var keep := MaxSignificantDigits - |whole|;
      assert all[..MaxSignificantDigits] == whole + fraction[..keep];
      assert all[MaxSignificantDigits] == fraction[keep];
    } else {
      assert all[..|all|] == all;
    }
  }

  function Min(a: int, b: int): int { if a <= b then a else b }

  /** The significant digits of a literal after rounding, with the number of dropped whole
      digits. */
  datatype Rounded = Rounded(whole: Utf16, fraction: Utf16, shift: nat)

  /** The rounding procedure as written: truncate, then on a round-up add one through the fraction
      and the whole part; a carry out of the first digit prepends a one and drops the last digit
      if the total is over twenty again, from the fraction if there is one and otherwise from the
      whole part, in which case the shift is left as it was. */
  function RoundSignificant(whole: Utf16, fraction: Utf16): Rounded
  {
    var t := Truncate(whole, fraction);
    if !t.roundUp then Rounded(t.whole, t.fraction, t.shift)
    else
      var f := AddOne(t.fraction);
      var w := if f.carry then AddOne(t.whole) else Carried(t.whole, false);
      if w.carry then
        var grown := [Unit('1')] + w.digits;
        if |grown| + |f.digits| > MaxSignificantDigits then
          if |f.digits| > 0 then Rounded(grown, f.digits[..|f.digits| - 1], t.shift)
          else Rounded(grown[..|grown| - 1], f.digits, t.shift)
        else Rounded(grown, f.digits, t.shift)
      else Rounded(w.digits, f.digits, t.shift)
  }

  /** Whether the rounding carried out of the first kept digit: the twenty-first digit rounds up
      and the twenty kept digits are all nines. */
  predicate CarriesOut(whole: Utf16, fraction: Utf16)
  {
    var t := Truncate(whole, fraction);
    t.roundUp && AddOne(t.whole + t.fraction).carry
  }

  /** The rounded digits: never more than twenty, as many as were kept, and worth the kept digits
      plus one on a round-up (after a carry out, the dropped last digit is a zero, so the value is
      a tenth of that). */
  lemma RoundSignificantValue(whole: Utf16, fraction: Utf16)
    requires AllDigits(whole + fraction)
    ensures var r := RoundSignificant(whole, fraction);
            var t := Truncate(whole, fraction);
            && |r.whole| + |r.fraction| == |t.whole| + |t.fraction| <= MaxSignificantDigits
            && AllDigits(r.whole + r.fraction)
            && DigitsValue(r.whole + r.fraction) * (if CarriesOut(whole, fraction) then 10 else 1)
               == DigitsValue(t.whole + t.fraction) + (if t.roundUp then 1 else 0)
  {
    var t := Truncate(whole, fraction);
    KeptAreDigits(whole, fraction);
    if CarriesOut(whole, fraction) {
      RoundedAfterCarry(whole, fraction);
      RoundedAfterCarryValue(whole, fraction);
    } else if t.roundUp {
      RoundedWithoutCarry(whole, fraction);
    } else {
      assert RoundSignificant(whole, fraction).whole + RoundSignificant(whole, fraction).fraction
             == t.whole + t.fraction;
    }
  }

  /** The kept digits are digits, and at most twenty of them. */
  lemma KeptAreDigits(whole: Utf16, fraction: Utf16)
    requires AllDigits(whole + fraction)
    ensures var t := Truncate(whole, fraction);
            AllDigits(t.whole + t.fraction) && |t.whole| + |t.fraction| <= MaxSignificantDigits
  {
    var t := Truncate(whole, fraction);
    TruncateKeepsLeadingDigits(whole, fraction);
    var kept := t.whole + t.fraction;
    var all := whole + fraction;
    forall i | 0 <= i < |kept| ensures IsDigit(kept[i]) {
      assert kept[i] == all[i];
    }
  }

  /** A round-up without a carry out adds one to the kept digits in place. */
  lemma RoundedWithoutCarry(whole: Utf16, fraction: Utf16)
    requires AllDigits(Truncate(whole, fraction).whole + Truncate(whole, fraction).fraction)
    requires Truncate(whole, fraction).roundUp && !CarriesOut(whole, fraction)
    ensures var r := RoundSignificant(whole, fraction);
            var t := Truncate(whole, fraction);
            && r.whole + r.fraction == AddOne(t.whole + t.fraction).digits
            && AllDigits(r.whole + r.fraction)
            && DigitsValue(r.whole + r.fraction) == DigitsValue(t.whole + t.fraction) + 1
  {
    var t := Truncate(whole, fraction);
    AddOneAcross(t.whole, t.fraction);
    AddOneValue(t.whole + t.fraction);
  }

  /** After a carry out, the one and nineteen zeros are worth a tenth of the kept digits plus one. */
  lemma RoundedAfterCarryValue(whole: Utf16, fraction: Utf16)
    requires CarriesOut(whole, fraction)
    requires AllDigits(Truncate(whole, fraction).whole + Truncate(whole, fraction).fraction)
    requires |Truncate(whole, fraction).whole| + |Truncate(whole, fraction).fraction| == MaxSignificantDigits
    ensures DigitsValue([Unit('1')] + Zeros(MaxSignificantDigits - 1)) * 10
            == DigitsValue(Truncate(whole, fraction).whole + Truncate(whole, fraction).fraction) + 1
  {
    var t := Truncate(whole, fraction);
    var kept := t.whole + t.fraction;
    AddOneValue(kept);
    AddOneCarries(kept);
    OneAndZeros(MaxSignificantDigits - 1);
    ZerosValue(MaxSignificantDigits);
  }

  lemma {:induction false} ZerosValue(n: nat)
    ensures DigitsValue(Zeros(n)) == 0
  {
    if n > 0 {
      assert Zeros(n)[..n - 1] == Zeros(n - 1);
      ZerosValue(n - 1);
    }
  }

  /** A one followed by `n` zeros is ten to the `n`. */
  lemma {:induction false} OneAndZeros(n: nat)
    ensures AllDigits([Unit('1')] + Zeros(n))
    ensures DigitsValue([Unit('1')] + Zeros(n)) == Pow10(n)
  {
    if n > 0 {
      assert ([Unit('1')] + Zeros(n))[..n] == [Unit('1')] + Zeros(n - 1);
      OneAndZeros(n - 1);
    } else {
      assert ([Unit('1')] + Zeros(n))[..0] == [];
    }
  }

  /** After a carry out of twenty nines, the rounded digits are a one and nineteen zeros. */
  lemma RoundedAfterCarry(whole: Utf16, fraction: Utf16)
    requires CarriesOut(whole, fraction)
    ensures var r := RoundSignificant(whole, fraction);
            var t := Truncate(whole, fraction);
            && |t.whole| + |t.fraction| == MaxSignificantDigits
            && r.whole + r.fraction == [Unit('1')] + Zeros(MaxSignificantDigits - 1)
            && |r.whole| == |t.whole| + (if t.fraction == [] then 0 else 1)
  {
    var t := Truncate(whole, fraction);
    var kept := t.whole + t.fraction;
    TruncateKeepsLeadingDigits(whole, fraction);
    AddOneAcross(t.whole, t.fraction);
    AddOneCarries(kept);
    AddOneCarries(t.fraction);
    AddOneCarries(t.whole);
    var f := AddOne(t.fraction);
    assert f.carry by {
      forall i | 0 <= i < |t.fraction| ensures t.fraction[i] == Unit('9') {
        assert t.fraction[i] == kept[|t.whole| + i];
      }
    }
    var w := AddOne(t.whole);
    assert w.digits + f.digits == Zeros(MaxSignificantDigits);
    var grown := [Unit('1')] + w.digits;
    if |f.digits| > 0 {
      assert grown + f.digits[..|f.digits| - 1] == [Unit('1')] + Zeros(MaxSignificantDigits - 1);
    } else {
      assert grown[..|grown| - 1] + f.digits == [Unit('1')] + Zeros(MaxSignificantDigits - 1);
    }
  }

  /** The decimal point position of the rounded digits as written: the number of whole digits
      plus the shift. A carry out that drops a whole digit loses one place. */
  lemma RoundSignificantLosesPlace()
    ensures var whole := seq(21, _ => Unit('9'));
            var r := RoundSignificant(whole, []);
            CarriesOut(whole, []) && |r.whole| + r.shift == |whole|
  {
    var whole := seq(21, _ => Unit('9'));
    var t := Truncate(whole, []);
    assert t.whole == seq(20, _ => Unit('9'));
    assert CarriesOut(whole, []) by {
      AddOneCarries(t.whole + t.fraction);
      assert t.whole + t.fraction == t.whole;
    }
    RoundedAfterCarry(whole, []);
  }

  /** The rounding as intended: as written, except that dropping a whole digit after a carry out
      also counts in the shift. */
  function RoundSignificantCorrected(whole: Utf16, fraction: Utf16): Rounded
  {
    var r := RoundSignificant(whole, fraction);
    if CarriesOut(whole, fraction) && Truncate(whole, fraction).fraction == [] then r.(shift := r.shift + 1)
    else r
  }

  /** With the correction the decimal point stays where it was: the whole digits plus the shift are
      the written whole digits, one more when twenty nines rounded up to a power of ten. */
  lemma RoundSignificantCorrectedKeepsPoint(whole: Utf16, fraction: Utf16)
    ensures var r := RoundSignificantCorrected(whole, fraction);
            |r.whole| + r.shift == |whole| + (if CarriesOut(whole, fraction) then 1 else 0)
  {
    var t := Truncate(whole, fraction);
    TruncateKeepsLeadingDigits(whole, fraction);
    if CarriesOut(whole, fraction) {
      RoundedAfterCarry(whole, fraction);
    } else if t.roundUp {
      var f := AddOne(t.fraction);
      if f.carry {
        AddOneAcross(t.whole, t.fraction);
      }
    }
  }

  /** The written exponent: an optional minus sign and decimal digits. */
  function ParseExponent(e: Utf16): int
  {
    if |e| > 0 && e[0] == Unit('-') then -(DigitsValue(e[1..]) as int) else DigitsValue(e)
  }

  /** The value the scanner hands to the double conversion, as written: the rounded digits, and an
      exponent only when one was written, from which the shift is subtracted. */
  function DecimalValueAsWritten(whole: Utf16, fraction: Utf16, exponent: Utf16): (v: NumericValue)
    ensures v.DecimalNumber? && v.exponent.Some? == (|exponent| > 0)
  {
    var r := RoundSignificant(whole, fraction);
    DecimalNumber(r.whole, r.fraction, if |exponent| > 0 then Some(ParseExponent(exponent) - r.shift) else None)
  }

  /** The value as intended: the shift raises the exponent, written or not. */
  function DecimalValue(whole: Utf16, fraction: Utf16, exponent: Utf16): (v: NumericValue)
    ensures v.DecimalNumber?
  {
    var r := RoundSignificantCorrected(whole, fraction);
    var e := (if |exponent| > 0 then ParseExponent(exponent) else 0) + r.shift;
    DecimalNumber(r.whole, r.fraction, if |exponent| > 0 || r.shift > 0 then Some(e) else None)
  }

  /** Where the decimal point of a value sits: its whole digits plus its exponent. */
  function PointPosition(v: NumericValue): int
    requires v.DecimalNumber?
  {
    |v.whole| + match v.exponent case Some(e) => e case None => 0
  }

  /** The intended value keeps the decimal point of the written literal. */
  lemma DecimalValueKeepsPoint(whole: Utf16, fraction: Utf16, exponent: Utf16)
    ensures PointPosition(DecimalValue(whole, fraction, exponent))
            == |whole| + (if |exponent| > 0 then ParseExponent(exponent) else 0)
               + (if CarriesOut(whole, fraction) then 1 else 0)
  {
    RoundSignificantCorrectedKeepsPoint(whole, fraction);
  }

  /** Rounding keeps the count of dropped whole digits the truncation made. */
  lemma RoundSignificantShift(whole: Utf16, fraction: Utf16)
    ensures RoundSignificant(whole, fraction).shift == Truncate(whole, fraction).shift
  {
  }

  /** Where the value as written puts the decimal point, for all inputs: the intended place, less
      the shift once when no exponent was written and twice when one was, and less one more when a
      carry out dropped a whole digit. */
  lemma DecimalValueAsWrittenPoint(whole: Utf16, fraction: Utf16, exponent: Utf16)
    ensures var t := Truncate(whole, fraction);
            PointPosition(DecimalValueAsWritten(whole, fraction, exponent))
            == |whole| + (if |exponent| > 0 then ParseExponent(exponent) else 0)
               + (if CarriesOut(whole, fraction) then 1 else 0)
               - (if |exponent| > 0 then 2 else 1) * t.shift
               - (if CarriesOut(whole, fraction) && t.fraction == [] then 1 else 0)
  {
    RoundSignificantCorrectedKeepsPoint(whole, fraction);
    RoundSignificantShift(whole, fraction);
  }

  /** The value as written puts the point where the intended value does exactly when no whole
      digit was dropped, by the truncation or by a carry out. */
  lemma DecimalValueAsWrittenAgrees(whole: Utf16, fraction: Utf16, exponent: Utf16)
    ensures PointPosition(DecimalValueAsWritten(whole, fraction, exponent))
            == PointPosition(DecimalValue(whole, fraction, exponent))
            <==> Truncate(whole, fraction).shift == 0
                 && !(CarriesOut(whole, fraction) && Truncate(whole, fraction).fraction == [])
  {
    DecimalValueAsWrittenPoint(whole, fraction, exponent);
    DecimalValueKeepsPoint(whole, fraction, exponent);
  }

  /** As written, twenty-one digits lose their last place altogether (no exponent was written),
      and with an exponent the shift moves the point the wrong way. */
  lemma DecimalValueAsWrittenMovesPoint()
    ensures var whole := seq(21, _ => Unit('1'));
            && PointPosition(DecimalValueAsWritten(whole, [], [])) == 20
            && PointPosition(DecimalValueAsWritten(whole, [], [Unit('1')])) == 20
            && PointPosition(DecimalValue(whole, [], [])) == 21
            && PointPosition(DecimalValue(whole, [], [Unit('1')])) == 22
  {
    var whole := seq(21, _ => Unit('1'));
    var t := Truncate(whole, []);
    assert !t.roundUp;
    assert DigitsValue([Unit('1')]) == 1 by {
      assert [Unit('1')][..0] == [];
    }
  }

  /** One carry loop over a digit buffer, in place: from the last digit back, a nine becomes a zero
      and the carry goes on, any other unit goes up by one and the loop stops. The result is the
      carry left over. */
  method CarryOne(digits: array<CodeUnit>) returns (carry: bool)
    modifies digits
    ensures Carried(digits[..], carry) == AddOne(old(digits[..]))
  {
    carry := true;
    var i := digits.Length;
    while i > 0
      invariant 0 <= i <= digits.Length
      invariant digits[..i] == old(digits[..i])
      invariant forall j :: i <= j < digits.Length ==> old(digits[j]) == Unit('9') && digits[j] == Unit('0')
    {
      if digits[i - 1] == Unit('9') {
        digits[i - 1] := Unit('0');
        i := i - 1;
      } else {
        ghost var was := old(digits[..]);
        digits[i - 1] := NextUnit(digits[i - 1]);
        carry := false;
        AddOneThroughNines(was, i);
        assert was[..i][..i - 1] == was[..i - 1];
        assert digits[..] == was[..i - 1] + [NextUnit(was[i - 1])] + Zeros(digits.Length - i);
        break;
      }
    }
    if carry {
      AddOneThroughNines(old(digits[..]), 0);
      assert digits[..] == Zeros(digits.Length);
    }
  }

  /** The rounding of the significant digits, with the digit buffers changed in place as the
      scanner does it. */
  method RoundSignificantDigits(whole: Utf16, fraction: Utf16) returns (w: Utf16, f: Utf16, shift: nat)
    ensures Rounded(w, f, shift) == RoundSignificant(whole, fraction)
  {
    var roundUp := false;
    w, f, shift := whole, fraction, 0;
    if |w| > MaxSignificantDigits {
      roundUp := IsRoundUpDigit(w[MaxSignificantDigits]);
      shift := |w| - MaxSignificantDigits;
      w := w[..MaxSignificantDigits];
      f := [];
    } else if |w| + |f| > MaxSignificantDigits {
      var keep := MaxSignificantDigits - |w|;
      roundUp := IsRoundUpDigit(f[keep]);
      f := f[..keep];
    }
    ghost var t := Truncate(whole, fraction);
    assert t == Truncated(w, f, roundUp, shift);
    if roundUp {
      var fractionDigits := new CodeUnit[|f|](j requires 0 <= j < |f| => f[j]);
      assert fractionDigits[..] == f;
      var carry := CarryOne(fractionDigits);
      f := fractionDigits[..];
      ghost var added := AddOne(t.fraction);
      assert f == added.digits && carry == added.carry;
      if carry {
        var wholeDigits := new CodeUnit[|w|](j requires 0 <= j < |w| => w[j]);
        assert wholeDigits[..] == w;
        carry := CarryOne(wholeDigits);
        w := wholeDigits[..];
      }
      ghost var w' := if added.carry then AddOne(t.whole) else Carried(t.whole, false);
      assert w == w'.digits && carry == w'.carry;
      if carry {
        w := [Unit('1')] + w;
        if |w| + |f| > MaxSignificantDigits {
          if |f| > 0 {
            f := f[..|f| - 1];
          } else {
            w := w[..|w| - 1];
          }
        }
      }
    }
  }
}
