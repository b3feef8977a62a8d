/** Numeric literals: decimal literals with an optional fraction and exponent, and binary, octal
    and hexadecimal integers. */
module NumericLiterals {
  import opened CodeUnits
  import opened CharClasses
  import opened Cursor
  import opened SyntaxTrees
  import opened SignificantDigits

  /** Which behaviour a scan follows: the code as written, or with the four defects of the numeric
      scanner repaired (a lone zero, a dot after the exponent, the exponent shift and the binary
      digit weight). The lexer uses `AsWritten`. */
  datatype Reading = AsWritten | AsIntended

  datatype NumericScan = NoNumber | NumericLiteral(text: Utf16, value: NumericValue, end: nat)

  /** The builders of the decimal loop: the literal's text, its whole, fraction and exponent
      digits, and which part the loop is in. */
  datatype DecimalParts =
    DecimalParts(text: Utf16, whole: Utf16, fraction: Utf16, exponent: Utf16, inFraction: bool, inExponent: bool)

  /** One turn of the decimal loop. */
  datatype DecimalStep =
    | EnterFraction
    | TakeDigit(digit: CodeUnit)
    | EnterExponent(consumed: Utf16, sign: Utf16)
    | Reject
    | Finish

  /** A dot starts the fraction (as written even inside the exponent); a digit goes to the current
      part; an exponent marker must be followed by a digit, or by a sign and a digit, of which only
      a minus sign is kept; any other identifier start rejects the literal, anything else ends
      it. */
  function DecimalStepAt(cat: CategoryTable, src: Utf16, pos: nat, inFraction: bool, inExponent: bool,
                         reading: Reading): (s: DecimalStep)
    ensures s.EnterFraction? ==> pos < |src| && src[pos] == Unit('.') && !inFraction
    ensures s.TakeDigit? ==> pos < |src| && src[pos] == s.digit && IsDigit(s.digit)
    ensures s.EnterExponent? ==>
              && !inExponent && 1 <= |s.consumed| <= 2 && pos + |s.consumed| < |src|
              && s.consumed == src[pos..pos + |s.consumed|] && IsDigit(src[pos + |s.consumed|])
              && (s.sign == [] || s.sign == [Unit('-')])
    ensures s.Finish? ==> EndsNumber(cat, PeekChar(src, pos, 0))
  {
    var c := PeekChar(src, pos, 0);
    if c == Unit('.') && !inFraction && (reading.AsWritten? || !inExponent) then EnterFraction
    else if IsDigit(c) then TakeDigit(c)
    else if (c == Unit('e') || c == Unit('E')) && !inExponent then
      var sign := PeekChar(src, pos, 1);
      if sign == Unit('+') || sign == Unit('-') then
        if IsDigit(PeekChar(src, pos, 2)) then
          assert pos + 2 < |src| && src[pos..pos + 2] == [c, sign];
          EnterExponent([c, sign], if sign == Unit('-') then [sign] else [])
        else Reject
      else if IsDigit(sign) then EnterExponent([c], [])
      else Reject
    else if IsIdentifierStartChar(cat, c) then Reject
    else Finish
  }

  /** A unit that may follow a numeric literal: neither a digit nor an identifier start. */
  predicate EndsNumber(cat: CategoryTable, c: CodeUnit)
  {
    !IsDigit(c) && !IsIdentifierStartChar(cat, c)
  }

  /** A digit goes to the exponent, the fraction or the whole part, whichever the loop is in. */
  function AppendDigits(p: DecimalParts, digits: Utf16): DecimalParts
  {
    if p.inExponent then p.(text := p.text + digits, exponent := p.exponent + digits)
    else if p.inFraction then p.(text := p.text + digits, fraction := p.fraction + digits)
    else p.(text := p.text + digits, whole := p.whole + digits)
  }

  /** The value of a finished decimal literal. */
  function FinishValue(p: DecimalParts, reading: Reading): NumericValue
  {
    match reading
    case AsWritten => DecimalValueAsWritten(p.whole, p.fraction, p.exponent)
    case AsIntended => DecimalValue(p.whole, p.fraction, p.exponent)
  }

  function DecimalLoop(cat: CategoryTable, src: Utf16, pos: nat, p: DecimalParts, reading: Reading): NumericScan
    requires pos <= |src|
    decreases |src| - pos
  {
    match DecimalStepAt(cat, src, pos, p.inFraction, p.inExponent, reading)
    case EnterFraction => DecimalLoop(cat, src, pos + 1, p.(text := p.text + [Unit('.')], inFraction := true), reading)
    case TakeDigit(d) => DecimalLoop(cat, src, pos + 1, AppendDigits(p, [d]), reading)
    case EnterExponent(consumed, sign) =>
      DecimalLoop(cat, src, pos + |consumed|,
                  p.(text := p.text + consumed, exponent := p.exponent + sign, inExponent := true), reading)
    case Reject => NoNumber
    case Finish => NumericLiteral(p.text, FinishValue(p, reading), pos)
  }

  /** The builders after the first unit of a decimal literal: a leading dot stands for a zero whole
      part. */
  function DecimalStart(c: CodeUnit): DecimalParts
  {
    DecimalParts([c], if c == Unit('.') then [Unit('0')] else [c], [], [], c == Unit('.'), false)
  }

  predicate IsRadixPrefixLetter(c: CodeUnit)
  {
    c == Unit('b') || c == Unit('B') || c == Unit('o') || c == Unit('O') || c == Unit('x') || c == Unit('X')
  }

  /** The numeric literal at the cursor. A zero not followed by a dot must start a binary, octal or
      hexadecimal literal (as written; as intended a zero followed by anything but a digit or a
      prefix letter is a decimal literal); a dot must be followed by a digit. */
  function GetCurrentNumericLiteral(cat: CategoryTable, src: Utf16, pos: nat, reading: Reading): NumericScan
    requires pos <= |src|
  {
    var c := PeekChar(src, pos, 0);
    var next := PeekChar(src, pos, 1);
    if c == Unit('0') && next != Unit('.') && (reading.AsWritten? || IsRadixPrefixLetter(next) || IsDigit(next)) then
      if next == Unit('b') || next == Unit('B') then GetCurrentNumberBaseInteger(cat, src, pos, 2, reading)
      else if next == Unit('o') || next == Unit('O') then GetCurrentNumberBaseInteger(cat, src, pos, 8, reading)
      else if next == Unit('x') || next == Unit('X') then GetCurrentNumberBaseInteger(cat, src, pos, 16, reading)
      else NoNumber
    else if c == Unit('.') && !IsDigit(next) then NoNumber
    else if IsDigit(c) || c == Unit('.') then DecimalLoop(cat, src, pos + 1, DecimalStart(c), reading)
    else NoNumber
  }

  /** The prefix letter of each base, in either case; any other base has none. */
  predicate IsRadixPrefix(base: nat, c: CodeUnit)
  {
    (base == 2 && (c == Unit('b') || c == Unit('B')))
    || (base == 8 && (c == Unit('o') || c == Unit('O')))
    || (base == 16 && (c == Unit('x') || c == Unit('X')))
  }

  /** The digits of each base: 0-1, 0-7, and 0-9 with a-f in either case. */
  predicate IsRadixDigit(base: nat, c: CodeUnit)
  {
    (base == 2 && Unit('0') <= c <= Unit('1'))
    || (base == 8 && Unit('0') <= c <= Unit('7'))
    || (base == 16 && IsHexDigit(c))
  }

  /** What the accumulated value is multiplied by before each digit: as written, eight for binary
      literals as well as for octal ones. */
  function Scale(base: nat, reading: Reading): nat
  {
    if reading.AsWritten? && base == 2 then 8 else base
  }

  /** A binary, octal or hexadecimal literal: `0`, the prefix letter of the base and at least one
      digit of the base. */
  function GetCurrentNumberBaseInteger(cat: CategoryTable, src: Utf16, pos: nat, base: nat, reading: Reading): NumericScan
    requires pos <= |src|
  {
    if PeekChar(src, pos, 0) != Unit('0') then NoNumber
    else if !IsRadixPrefix(base, PeekChar(src, pos, 1)) then NoNumber
    else if !IsRadixDigit(base, PeekChar(src, pos, 2)) then NoNumber
    else RadixLoop(cat, src, pos + 2, base, Scale(base, reading), src[pos..pos + 2], 0)
  }

  /** The digit loop: each digit of the base is appended and folded into the value; an identifier
      start rejects the literal, anything else ends it. */
  function RadixLoop(cat: CategoryTable, src: Utf16, pos: nat, base: nat, scale: nat, text: Utf16, value: nat): NumericScan
    requires pos <= |src|
    decreases |src| - pos
  {
    var c := PeekChar(src, pos, 0);
    if IsRadixDigit(base, c) then
      RadixLoop(cat, src, pos + 1, base, scale, text + [c], value * scale + HexDigitValue(c))
    else if IsIdentifierStartChar(cat, c) then NoNumber
    else NumericLiteral(text, IntegerNumber(value), pos)
  }

  function Pow(b: nat, n: nat): nat
  {
    if n == 0 then 1 else b * Pow(b, n - 1)
  }

  /** The value of a digit of the literal; a unit that is no hexadecimal digit counts as zero. */
  function DigitOrZero(d: CodeUnit): nat
  {
    if IsHexDigit(d) then HexDigitValue(d) else 0
  }

  /** The value of a run of digits in positional notation with the given base, most significant
      first. */
  function PositionalValue(s: Utf16, base: nat): nat
  {
    if s == [] then 0
    else PositionalValue(s[..|s| - 1], base) * base + DigitOrZero(s[|s| - 1])
  }

  /** Putting a digit in front adds its value times the base to the power of the run's length. */
  lemma {:induction false} PositionalValuePrepend(d: CodeUnit, s: Utf16, base: nat)
    ensures PositionalValue([d] + s, base) == DigitOrZero(d) * Pow(base, |s|) + PositionalValue(s, base)
  {
    if s == [] {
      assert ([d] + s)[..0] == [];
    } else {
      var init := s[..|s| - 1];
      assert ([d] + s)[..|s|] == [d] + init;
      PositionalValuePrepend(d, init, base);
      var last := DigitOrZero(s[|s| - 1]);
      assert PositionalValue([d] + s, base) == PositionalValue([d] + init, base) * base + last;
      assert PositionalValue(s, base) == PositionalValue(init, base) * base + last;
      assert Pow(base, |s|) == base * Pow(base, |init|);
      Regroup(DigitOrZero(d), Pow(base, |init|), PositionalValue(init, base), base, last);
    }
  }

  /** Regrouping a digit's contribution when one more place follows it. */
  lemma Regroup(a: int, p: int, v: int, b: int, t: int)
    ensures (a * p + v) * b + t == a * (b * p) + (v * b + t)
  {
  }

  /** Folding a run of digits into a value one digit at a time, most significant first, as the
      digit loop does. */
  function FoldDigits(value: nat, scale: nat, run: Utf16): nat
    decreases |run|
  {
    if run == [] then value else FoldDigits(value * scale + DigitOrZero(run[0]), scale, run[1..])
  }

  /** Folding digits into a value shifts the value past them and adds their positional value. */
  lemma {:induction false} FoldDigitsValue(value: nat, scale: nat, run: Utf16)
    ensures FoldDigits(value, scale, run) == value * Pow(scale, |run|) + PositionalValue(run, scale)
    decreases |run|
  {
    if run != [] {
      var d, rest := run[0], run[1..];
      assert run == [d] + rest;
      FoldDigitsValue(value * scale + DigitOrZero(d), scale, rest);
      PositionalValuePrepend(d, rest, scale);
      assert Pow(scale, |run|) == scale * Pow(scale, |rest|);
      Regroup(value, scale, DigitOrZero(d), Pow(scale, |rest|), PositionalValue(rest, scale));
    }
  }

  /** What the digit loop returns: the text it was given followed by the digits it read, and a
      following unit that is neither a digit of the base nor an identifier start. */
  lemma {:induction false} RadixLoopSlice(cat: CategoryTable, src: Utf16, pos: nat, base: nat, scale: nat,
                                          text: Utf16, value: nat)
    requires pos <= |src|
    ensures var r := RadixLoop(cat, src, pos, base, scale, text, value);
            r.NumericLiteral? ==>
              && pos <= r.end <= |src| && r.text == text + src[pos..r.end]
              && !IsRadixDigit(base, PeekChar(src, r.end, 0))
              && !IsIdentifierStartChar(cat, PeekChar(src, r.end, 0))
    decreases |src| - pos
  {
    var c := PeekChar(src, pos, 0);
    if IsRadixDigit(base, c) {
      var r := RadixLoop(cat, src, pos + 1, base, scale, text + [c], value * scale + HexDigitValue(c));
      RadixLoopSlice(cat, src, pos + 1, base, scale, text + [c], value * scale + HexDigitValue(c));
      if r.NumericLiteral? {
        assert src[pos..r.end] == [c] + src[pos + 1..r.end];
        assert text + [c] + src[pos + 1..r.end] == text + src[pos..r.end];
      }
    } else if !IsIdentifierStartChar(cat, c) {
      assert src[pos..pos] == [];
    }
  }

  /** The digit loop folds the digits it read into the value it was given. */
  lemma {:induction false} RadixLoopFold(cat: CategoryTable, src: Utf16, pos: nat, base: nat, scale: nat,
                                         text: Utf16, value: nat)
    requires pos <= |src|
    ensures var r := RadixLoop(cat, src, pos, base, scale, text, value);
            r.NumericLiteral? ==>
              pos <= r.end <= |src| && r.value == IntegerNumber(FoldDigits(value, scale, src[pos..r.end]))
    decreases |src| - pos
  {
    var c := PeekChar(src, pos, 0);
    if IsRadixDigit(base, c) {
      var next := value * scale + HexDigitValue(c);
      var r := RadixLoop(cat, src, pos + 1, base, scale, text + [c], next);
      RadixLoopFold(cat, src, pos + 1, base, scale, text + [c], next);
      if r.NumericLiteral? {
        FoldFirstDigit(src, pos, r.end, scale, value, next);
      }
    } else if !IsIdentifierStartChar(cat, c) {
      assert src[pos..pos] == [];
    }
  }

  /** Folding a run that starts with a hexadecimal digit folds that digit first. */
  lemma FoldFirstDigit(src: Utf16, pos: nat, end: nat, scale: nat, value: nat, next: nat)
    requires pos < end <= |src| && IsHexDigit(src[pos]) && next == value * scale + HexDigitValue(src[pos])
    ensures FoldDigits(value, scale, src[pos..end]) == FoldDigits(next, scale, src[pos + 1..end])
  {
    var run := src[pos..end];
    assert run[0] == src[pos] && run[1..] == src[pos + 1..end];
  }

  /** The value the digit loop returns: the value it was given shifted past the digits it read,
      plus their positional value with the loop's scale. */
  lemma RadixLoopValue(cat: CategoryTable, src: Utf16, pos: nat, base: nat, scale: nat,
                       text: Utf16, value: nat)
    requires pos <= |src|
    ensures var r := RadixLoop(cat, src, pos, base, scale, text, value);
            r.NumericLiteral? ==>
              pos <= r.end <= |src|
              && r.value == IntegerNumber(value * Pow(scale, r.end - pos) + PositionalValue(src[pos..r.end], scale))
  {
    RadixLoopFold(cat, src, pos, base, scale, text, value);
    var r := RadixLoop(cat, src, pos, base, scale, text, value);
    if r.NumericLiteral? {
      FoldDigitsValue(value, scale, src[pos..r.end]);
    }
  }

  /** A binary, octal or hexadecimal literal is the prefix and the digits after it, its value is
      the positional value of those digits with the scale of the reading (the base itself as
      intended, eight for binary as written), and it is followed by neither a digit of the base
      nor an identifier start. */
  lemma NumberBaseIntegerFacts(cat: CategoryTable, src: Utf16, pos: nat, base: nat, reading: Reading)
    requires pos <= |src|
    ensures var r := GetCurrentNumberBaseInteger(cat, src, pos, base, reading);
            r.NumericLiteral? ==>
              && pos + 3 <= r.end <= |src| && r.text == src[pos..r.end]
              && IsRadixPrefix(base, r.text[1])
              && r.value == IntegerNumber(PositionalValue(r.text[2..], Scale(base, reading)))
              && !IsRadixDigit(base, PeekChar(src, r.end, 0))
              && !IsIdentifierStartChar(cat, PeekChar(src, r.end, 0))
  {
    if PeekChar(src, pos, 0) == Unit('0') && IsRadixPrefix(base, PeekChar(src, pos, 1))
       && IsRadixDigit(base, PeekChar(src, pos, 2)) {
      var scale := Scale(base, reading);
      RadixLoopSlice(cat, src, pos + 2, base, scale, src[pos..pos + 2], 0);
      RadixLoopValue(cat, src, pos + 2, base, scale, src[pos..pos + 2], 0);
      var r := RadixLoop(cat, src, pos + 2, base, scale, src[pos..pos + 2], 0);
      if r.NumericLiteral? {
        assert r.end != pos + 2;
        assert src[pos..pos + 2] + src[pos + 2..r.end] == src[pos..r.end];
        assert r.text[2..] == src[pos + 2..r.end];
      }
    }
  }

  /** As written, `0b10` is worth eight: its digits are weighed as octal digits. As intended it is
      worth two. */
  lemma BinaryLiteralScaledByEight(cat: CategoryTable)
    ensures var src := [Unit('0'), Unit('b'), Unit('1'), Unit('0')];
            && GetCurrentNumericLiteral(cat, src, 0, AsWritten) == NumericLiteral(src, IntegerNumber(8), 4)
            && GetCurrentNumericLiteral(cat, src, 0, AsIntended) == NumericLiteral(src, IntegerNumber(2), 4)
  {
    var src := [Unit('0'), Unit('b'), Unit('1'), Unit('0')];
    EofIsNoNameOrSpace(cat);
    assert src[0..2] + [Unit('1')] + [Unit('0')] == src;
  }

  /** As written, a lone `0` is not a numeric literal; as intended it is the decimal zero. */
  lemma LoneZeroRejected(cat: CategoryTable)
    ensures GetCurrentNumericLiteral(cat, [Unit('0')], 0, AsWritten) == NoNumber
    ensures GetCurrentNumericLiteral(cat, [Unit('0')], 0, AsIntended)
            == NumericLiteral([Unit('0')], DecimalNumber([Unit('0')], [], None), 1)
  {
    EofIsNoNameOrSpace(cat);
    assert DecimalStepAt(cat, [Unit('0')], 1, false, false, AsIntended) == Finish;
    assert Truncate([Unit('0')], []) == Truncated([Unit('0')], [], false, 0);
  }

  /** As written, a dot after the exponent is taken as the start of a fraction while the loop stays
      in the exponent, so `1e5.5` is one literal whose exponent digits are `55`. */
  lemma DotExtendsExponent(cat: CategoryTable)
    ensures var src := [Unit('1'), Unit('e'), Unit('5'), Unit('.'), Unit('5')];
            GetCurrentNumericLiteral(cat, src, 0, AsWritten)
            == NumericLiteral(src, DecimalNumber([Unit('1')], [], Some(55)), 5)
  {
    var src := [Unit('1'), Unit('e'), Unit('5'), Unit('.'), Unit('5')];
    var five := DecimalParts(src[..3], [Unit('1')], [], [Unit('5')], false, true);
    var dotted := five.(text := src[..4], inFraction := true);
    var done := DecimalParts(src, [Unit('1')], [], [Unit('5'), Unit('5')], true, true);
    ExponentOfOneE5(cat, src, five);
    DotAfterOneE5(cat, src, five, dotted);
    DigitAfterDot(cat, src, dotted, done);
    LiteralAtEnd(cat, src, done);
  }

  /** `1e5` at the start of `1e5.5` fills the exponent. */
  lemma ExponentOfOneE5(cat: CategoryTable, src: Utf16, five: DecimalParts)
    requires src == [Unit('1'), Unit('e'), Unit('5'), Unit('.'), Unit('5')]
    requires five == DecimalParts(src[..3], [Unit('1')], [], [Unit('5')], false, true)
    ensures GetCurrentNumericLiteral(cat, src, 0, AsWritten) == DecimalLoop(cat, src, 3, five, AsWritten)
  {
    var start := DecimalStart(Unit('1'));
    assert GetCurrentNumericLiteral(cat, src, 0, AsWritten) == DecimalLoop(cat, src, 1, start, AsWritten);
    assert src[2..3] == [Unit('5')];
    ExponentPhase(cat, src, 1, start, [Unit('5')], AsWritten);
    assert start.(text := start.text + [Unit('e')] + [Unit('5')], exponent := start.exponent + [Unit('5')], inExponent := true)
           == five;
  }

  /** The dot of `1e5.5`, as written, enters the fraction. */
  lemma DotAfterOneE5(cat: CategoryTable, src: Utf16, five: DecimalParts, dotted: DecimalParts)
    requires src == [Unit('1'), Unit('e'), Unit('5'), Unit('.'), Unit('5')]
    requires five == DecimalParts(src[..3], [Unit('1')], [], [Unit('5')], false, true)
    requires dotted == five.(text := src[..4], inFraction := true)
    ensures DecimalLoop(cat, src, 3, five, AsWritten) == DecimalLoop(cat, src, 4, dotted, AsWritten)
  {
    DotInsideExponent(cat, src, 3, five, AsWritten);
    assert five.text + [Unit('.')] == src[..4];
  }

  /** The last digit of `1e5.5` goes to the exponent. */
  lemma DigitAfterDot(cat: CategoryTable, src: Utf16, dotted: DecimalParts, done: DecimalParts)
    requires src == [Unit('1'), Unit('e'), Unit('5'), Unit('.'), Unit('5')]
    requires dotted == DecimalParts(src[..4], [Unit('1')], [], [Unit('5')], true, true)
    requires done == DecimalParts(src, [Unit('1')], [], [Unit('5'), Unit('5')], true, true)
    ensures DecimalLoop(cat, src, 4, dotted, AsWritten) == DecimalLoop(cat, src, 5, done, AsWritten)
  {
    assert DecimalStepAt(cat, src, 4, true, true, AsWritten) == TakeDigit(Unit('5'));
    assert AppendDigits(dotted, [Unit('5')]) == done;
  }

  /** A dot inside an exponent, before any fraction: as written the loop enters the fraction and
      stays in the exponent, so the digits after the dot extend the exponent; as intended the
      literal ends before the dot. */
  lemma DotInsideExponent(cat: CategoryTable, src: Utf16, pos: nat, p: DecimalParts, reading: Reading)
    requires pos < |src| && src[pos] == Unit('.') && p.inExponent && !p.inFraction
    ensures reading.AsWritten? ==>
              DecimalLoop(cat, src, pos, p, reading)
              == DecimalLoop(cat, src, pos + 1, p.(text := p.text + [Unit('.')], inFraction := true), reading)
    ensures reading.AsIntended? ==>
              DecimalLoop(cat, src, pos, p, reading) == NumericLiteral(p.text, FinishValue(p, reading), pos)
  {
    assert DecimalStepAt(cat, src, pos, false, true, reading) == if reading.AsWritten? then EnterFraction else Finish;
  }

  /** At the end of `1e5.5`, with exponent digits `55`, the loop finishes. */
  lemma LiteralAtEnd(cat: CategoryTable, src: Utf16, done: DecimalParts)
    requires |src| == 5 && done == DecimalParts(src, [Unit('1')], [], [Unit('5'), Unit('5')], true, true)
    ensures DecimalLoop(cat, src, 5, done, AsWritten) == NumericLiteral(src, DecimalNumber([Unit('1')], [], Some(55)), 5)
  {
    EofIsNoNameOrSpace(cat);
    assert DecimalStepAt(cat, src, 5, true, true, AsWritten) == Finish;
    assert Truncate([Unit('1')], []) == Truncated([Unit('1')], [], false, 0);
    assert [Unit('5'), Unit('5')][..1] == [Unit('5')] && [Unit('5')][..0] == [];
    assert DigitsValue([Unit('5')]) == 5;
    assert ParseExponent([Unit('5'), Unit('5')]) == 55;
  }

  /** As intended the dot ends a literal that already has an exponent: `1e5.5` gives the literal
      `1e5` and leaves the dot for the next token. */
  lemma DotEndsExponent(cat: CategoryTable)
    ensures var src := [Unit('1'), Unit('e'), Unit('5'), Unit('.'), Unit('5')];
            GetCurrentNumericLiteral(cat, src, 0, AsIntended)
            == NumericLiteral(src[..3], DecimalNumber([Unit('1')], [], Some(5)), 3)
  {
    var src := [Unit('1'), Unit('e'), Unit('5'), Unit('.'), Unit('5')];
    var start := DecimalStart(Unit('1'));
    var five := DecimalParts(src[..3], [Unit('1')], [], [Unit('5')], false, true);
    assert DecimalStepAt(cat, src, 3, false, true, AsIntended) == Finish;
    assert Truncate([Unit('1')], []) == Truncated([Unit('1')], [], false, 0);
    assert ParseExponent([Unit('5')]) == 5;
    assert DecimalLoop(cat, src, 3, five, AsIntended) == NumericLiteral(src[..3], DecimalNumber([Unit('1')], [], Some(5)), 3);
    assert DecimalLoop(cat, src, 1, start, AsIntended) == DecimalLoop(cat, src, 3, five, AsIntended);
  }

  /** What the decimal loop returns: the text it was given followed by the units it read, ending
      before a unit that is neither a digit nor an identifier start. */
  lemma {:induction false} DecimalLoopSlice(cat: CategoryTable, src: Utf16, pos: nat, p: DecimalParts, reading: Reading)
    requires pos <= |src|
    ensures var r := DecimalLoop(cat, src, pos, p, reading);
            r.NumericLiteral? ==>
              && pos <= r.end <= |src| && r.text == p.text + src[pos..r.end]
              && EndsNumber(cat, PeekChar(src, r.end, 0))
    decreases |src| - pos
  {
    var step := DecimalStepAt(cat, src, pos, p.inFraction, p.inExponent, reading);
    if step.Finish? {
      assert DecimalLoop(cat, src, pos, p, reading) == NumericLiteral(p.text, FinishValue(p, reading), pos);
      assert src[pos..pos] == [];
    } else if !step.Reject? {
      var next, q := LoopStep(cat, src, pos, p, reading);
      DecimalLoopSlice(cat, src, next, q, reading);
      MoreText(src, pos, next, p.text, src[pos..next], DecimalLoop(cat, src, next, q, reading));
    }
  }

  /** A turn of the decimal loop that reads units: the loop goes on after them with their text
      appended. */
  lemma LoopStep(cat: CategoryTable, src: Utf16, pos: nat, p: DecimalParts, reading: Reading)
    returns (next: nat, q: DecimalParts)
    requires pos <= |src|
    requires var s := DecimalStepAt(cat, src, pos, p.inFraction, p.inExponent, reading); !s.Reject? && !s.Finish?
    ensures pos < next <= |src| && q.text == p.text + src[pos..next]
    ensures DecimalLoop(cat, src, pos, p, reading) == DecimalLoop(cat, src, next, q, reading)
  {
    match DecimalStepAt(cat, src, pos, p.inFraction, p.inExponent, reading)
    case EnterFraction =>
      next, q := FractionTurn(cat, src, pos, p, reading);
    case TakeDigit(d) =>
      next, q := DigitTurn(cat, src, pos, p, reading);
    case EnterExponent(consumed, sign) =>
      next, q := ExponentTurn(cat, src, pos, p, reading);
  }

  /** The turn at the dot that starts the fraction. */
  lemma FractionTurn(cat: CategoryTable, src: Utf16, pos: nat, p: DecimalParts, reading: Reading)
    returns (next: nat, q: DecimalParts)
    requires pos <= |src| && DecimalStepAt(cat, src, pos, p.inFraction, p.inExponent, reading).EnterFraction?
    ensures pos < next <= |src| && q.text == p.text + src[pos..next]
    ensures DecimalLoop(cat, src, pos, p, reading) == DecimalLoop(cat, src, next, q, reading)
  {
    next, q := pos + 1, p.(text := p.text + [Unit('.')], inFraction := true);
    assert src[pos..next] == [Unit('.')];
  }

  /** The turn at a digit. */
  lemma DigitTurn(cat: CategoryTable, src: Utf16, pos: nat, p: DecimalParts, reading: Reading)
    returns (next: nat, q: DecimalParts)
    requires pos <= |src| && DecimalStepAt(cat, src, pos, p.inFraction, p.inExponent, reading).TakeDigit?
    ensures pos < next <= |src| && q.text == p.text + src[pos..next]
    ensures DecimalLoop(cat, src, pos, p, reading) == DecimalLoop(cat, src, next, q, reading)
  {
    var d := DecimalStepAt(cat, src, pos, p.inFraction, p.inExponent, reading).digit;
    next, q := pos + 1, AppendDigits(p, [d]);
    assert src[pos..next] == [d];
    AppendDigitsText(p, [d]);
  }

  /** The turn at an exponent marker. */
  lemma ExponentTurn(cat: CategoryTable, src: Utf16, pos: nat, p: DecimalParts, reading: Reading)
    returns (next: nat, q: DecimalParts)
    requires pos <= |src| && DecimalStepAt(cat, src, pos, p.inFraction, p.inExponent, reading).EnterExponent?
    ensures pos < next <= |src| && q.text == p.text + src[pos..next]
    ensures DecimalLoop(cat, src, pos, p, reading) == DecimalLoop(cat, src, next, q, reading)
  {
    var s := DecimalStepAt(cat, src, pos, p.inFraction, p.inExponent, reading);
    next, q := pos + |s.consumed|, p.(text := p.text + s.consumed, exponent := p.exponent + s.sign, inExponent := true);
  }

  /** Digits are appended to the text whichever part they go to. */
  lemma AppendDigitsText(p: DecimalParts, digits: Utf16)
    ensures AppendDigits(p, digits).text == p.text + digits
  {
  }

  /** Text read in one step and the text read after it join up to the text read from the start. */
  lemma MoreText(src: Utf16, pos: nat, next: nat, text: Utf16, read: Utf16, r: NumericScan)
    requires pos <= next <= |src| && read == src[pos..next]
    requires r.NumericLiteral? ==> next <= r.end <= |src| && r.text == text + read + src[next..r.end]
    ensures r.NumericLiteral? ==> r.text == text + src[pos..r.end]
  {
    if r.NumericLiteral? {
      assert src[pos..next] + src[next..r.end] == src[pos..r.end];
    }
  }

  /** Every numeric literal is the non-empty run of source units it reports, and the unit after
      it does not start an identifier. */
  lemma NumericLiteralFacts(cat: CategoryTable, src: Utf16, pos: nat, reading: Reading)
    requires pos <= |src|
    ensures var r := GetCurrentNumericLiteral(cat, src, pos, reading);
            r.NumericLiteral? ==>
              && pos < r.end <= |src| && r.text == src[pos..r.end]
              && !IsIdentifierStartChar(cat, PeekChar(src, r.end, 0))
  {
    var c := PeekChar(src, pos, 0);
    var next := PeekChar(src, pos, 1);
    if c == Unit('0') && next != Unit('.') && (reading.AsWritten? || IsRadixPrefixLetter(next) || IsDigit(next)) {
      NumberBaseIntegerFacts(cat, src, pos, 2, reading);
      NumberBaseIntegerFacts(cat, src, pos, 8, reading);
      NumberBaseIntegerFacts(cat, src, pos, 16, reading);
    } else if c == Unit('.') && !IsDigit(next) {
    } else if IsDigit(c) || c == Unit('.') {
      assert GetCurrentNumericLiteral(cat, src, pos, reading) == DecimalLoop(cat, src, pos + 1, DecimalStart(c), reading);
      DecimalLiteralFacts(cat, src, pos, reading);
    }
  }

  /** A decimal literal started at the cursor is the run of source units it reports. */
  lemma DecimalLiteralFacts(cat: CategoryTable, src: Utf16, pos: nat, reading: Reading)
    requires pos < |src|
    ensures var r := DecimalLoop(cat, src, pos + 1, DecimalStart(src[pos]), reading);
            r.NumericLiteral? ==>
              && pos < r.end <= |src| && r.text == src[pos..r.end]
              && !IsIdentifierStartChar(cat, PeekChar(src, r.end, 0))
  {
    var c := src[pos];
    DecimalLoopSlice(cat, src, pos + 1, DecimalStart(c), reading);
    var r := DecimalLoop(cat, src, pos + 1, DecimalStart(c), reading);
    if r.NumericLiteral? {
      assert [c] + src[pos + 1..r.end] == src[pos..r.end];
    }
  }

  /** A run of digits is read one digit at a time into the part the loop is in. */
  lemma {:induction false} TakeDigits(cat: CategoryTable, src: Utf16, pos: nat, k: nat, p: DecimalParts, reading: Reading)
    requires pos + k <= |src| && AllDigits(src[pos..pos + k])
    ensures DecimalLoop(cat, src, pos, p, reading) == DecimalLoop(cat, src, pos + k, AppendDigits(p, src[pos..pos + k]), reading)
    decreases k
  {
    if k == 0 {
      assert AppendDigits(p, src[pos..pos]) == p;
    } else {
      var d := src[pos];
      assert IsDigit(src[pos..pos + k][0]);
      assert DecimalStepAt(cat, src, pos, p.inFraction, p.inExponent, reading) == TakeDigit(d);
      var q := AppendDigits(p, [d]);
      assert src[pos + 1..pos + k] == src[pos..pos + k][1..];
      TakeDigits(cat, src, pos + 1, k - 1, q, reading);
      assert [d] + src[pos + 1..pos + k] == src[pos..pos + k];
      AppendDigitsTwice(p, [d], src[pos + 1..pos + k]);
    }
  }

  lemma AppendDigitsTwice(p: DecimalParts, a: Utf16, b: Utf16)
    ensures AppendDigits(AppendDigits(p, a), b) == AppendDigits(p, a + b)
  {
    assert p.text + a + b == p.text + (a + b);
    assert p.whole + a + b == p.whole + (a + b);
    assert p.fraction + a + b == p.fraction + (a + b);
    assert p.exponent + a + b == p.exponent + (a + b);
  }

  function FractionSpelling(f: Utf16): Utf16
  {
    if f == [] then [] else [Unit('.')] + f
  }

  function ExponentSpelling(e: Utf16): Utf16
  {
    if e == [] then [] else [Unit('e')] + e
  }

  /** The exponent a spelling with these exponent digits carries; none without digits. */
  function SpelledExponent(e: Utf16): Option<int>
  {
    if e == [] then None else Some(DigitsValue(e) as int)
  }

  /** How a decimal number with these digits is spelled: the whole digits, then a dot and the
      fraction digits if there are any, then `e` and the exponent digits if there are any. */
  function DecimalSpelling(whole: Utf16, fraction: Utf16, exponent: Utf16): Utf16
  {
    whole + FractionSpelling(fraction) + ExponentSpelling(exponent)
  }

  /** The builders once the whole digits and the fraction of a spelling are read. */
  function AfterFraction(w: Utf16, f: Utf16): DecimalParts
  {
    if f == [] then DecimalParts(w, w, [], [], false, false)
    else DecimalParts(w + FractionSpelling(f), w, f, [], true, false)
  }

  /** The builders once the whole spelling is read. */
  function AfterExponent(w: Utf16, f: Utf16, e: Utf16): DecimalParts
  {
    var p := AfterFraction(w, f);
    if e == [] then p else p.(text := p.text + ExponentSpelling(e), exponent := e, inExponent := true)
  }

  /** The unit after a lone leading zero lets the decimal branch start: as written only a dot
      does, as intended anything but a digit or a prefix letter. */
  predicate ZeroMayStart(reading: Reading, next: CodeUnit)
  {
    next == Unit('.') || (reading.AsIntended? && !IsRadixPrefixLetter(next) && !IsDigit(next))
  }

  /** The unit after a spelling ends the literal there. */
  predicate EndsSpelling(cat: CategoryTable, c: CodeUnit, f: Utf16, e: Utf16, reading: Reading)
  {
    EndsNumber(cat, c) && c != Unit('e') && c != Unit('E')
    && (c == Unit('.') ==> f != [] || (e != [] && reading.AsIntended?))
  }

  /** The whole digits and the fraction of a spelling at the start of the source. */
  lemma FractionStage(cat: CategoryTable, src: Utf16, w: Utf16, f: Utf16, reading: Reading)
    requires |w| >= 1 && AllDigits(w) && AllDigits(f) && |w| + |FractionSpelling(f)| <= |src|
    requires src[..|w|] == w && src[|w|..|w| + |FractionSpelling(f)|] == FractionSpelling(f)
    requires w[0] != Unit('0') || (|w| == 1 && ZeroMayStart(reading, PeekChar(src, 0, 1)))
    ensures GetCurrentNumericLiteral(cat, src, 0, reading)
            == DecimalLoop(cat, src, |w| + |FractionSpelling(f)|, AfterFraction(w, f), reading)
  {
    WholePhase(cat, src, w, reading);
    if f != [] {
      FractionAfterWhole(cat, src, w, f, reading);
    }
  }

  lemma FractionAfterWhole(cat: CategoryTable, src: Utf16, w: Utf16, f: Utf16, reading: Reading)
    requires f != [] && AllDigits(f) && |w| + |FractionSpelling(f)| <= |src|
    requires src[|w|..|w| + |FractionSpelling(f)|] == FractionSpelling(f)
    ensures DecimalLoop(cat, src, |w|, DecimalParts(w, w, [], [], false, false), reading)
            == DecimalLoop(cat, src, |w| + |FractionSpelling(f)|, AfterFraction(w, f), reading)
  {
    var end := |w| + |FractionSpelling(f)|;
    assert FractionSpelling(f) == [Unit('.')] + f && end == |w| + 1 + |f|;
    SpellingParts(src, |w|, Unit('.'), f);
    FractionFromWhole(cat, src, |w|, end, w, f, reading);
  }

  /** A dot and a run of digits after the whole part fill the fraction. */
  lemma FractionFromWhole(cat: CategoryTable, src: Utf16, pos: nat, end: nat, w: Utf16, f: Utf16, reading: Reading)
    requires f != [] && AllDigits(f) && end == pos + 1 + |f| <= |src|
    requires src[pos] == Unit('.') && src[pos + 1..pos + 1 + |f|] == f
    ensures DecimalLoop(cat, src, pos, DecimalParts(w, w, [], [], false, false), reading)
            == DecimalLoop(cat, src, end, AfterFraction(w, f), reading)
  {
    FractionPhase(cat, src, pos, DecimalParts(w, w, [], [], false, false), f, reading);
    FractionParts(w, f);
    SameLoop(cat, src, pos + 1 + |f|, end, AfterFraction(w, f), reading);
  }

  lemma FractionParts(w: Utf16, f: Utf16)
    requires f != []
    ensures var p := DecimalParts(w, w, [], [], false, false);
            p.(text := p.text + [Unit('.')] + f, fraction := p.fraction + f, inFraction := true) == AfterFraction(w, f)
  {
    assert [] + f == f;
    assert w + [Unit('.')] + f == w + FractionSpelling(f);
  }

  /** Where the marker and the digits of a fraction or exponent spelling lie in the source. */
  lemma SpellingParts(src: Utf16, pos: nat, marker: CodeUnit, d: Utf16)
    requires pos + 1 + |d| <= |src| && src[pos..pos + 1 + |d|] == [marker] + d
    ensures src[pos] == marker && src[pos + 1..pos + 1 + |d|] == d
  {
    assert src[pos + 1..pos + 1 + |d|] == src[pos..pos + 1 + |d|][1..];
  }

  /** The exponent of a spelling. */
  lemma ExponentStage(cat: CategoryTable, src: Utf16, pos: nat, end: nat, w: Utf16, f: Utf16, e: Utf16, reading: Reading)
    requires AllDigits(e) && end == pos + |ExponentSpelling(e)| <= |src| && src[pos..end] == ExponentSpelling(e)
    ensures DecimalLoop(cat, src, pos, AfterFraction(w, f), reading)
            == DecimalLoop(cat, src, end, AfterExponent(w, f, e), reading)
  {
    if e == [] {
      assert end == pos && AfterExponent(w, f, e) == AfterFraction(w, f);
    } else {
      assert end == pos + 1 + |e|;
      SpellingParts(src, pos, Unit('e'), e);
      ExponentAfterFraction(cat, src, pos, end, w, f, e, reading);
    }
  }

  /** A non-empty exponent spelled after the fraction. */
  lemma ExponentAfterFraction(cat: CategoryTable, src: Utf16, pos: nat, end: nat, w: Utf16, f: Utf16, e: Utf16,
                              reading: Reading)
    requires e != [] && AllDigits(e) && end == pos + 1 + |e| <= |src|
    requires src[pos] == Unit('e') && src[pos + 1..pos + 1 + |e|] == e
    ensures DecimalLoop(cat, src, pos, AfterFraction(w, f), reading)
            == DecimalLoop(cat, src, end, AfterExponent(w, f, e), reading)
  {
    var p := AfterFraction(w, f);
    assert !p.inExponent;
    ExponentPhase(cat, src, pos, p, e, reading);
    ExponentParts(w, f, e);
    SameLoop(cat, src, pos + 1 + |e|, end, AfterExponent(w, f, e), reading);
  }

  /** The loop at two equal positions. */
  lemma SameLoop(cat: CategoryTable, src: Utf16, a: nat, b: nat, p: DecimalParts, reading: Reading)
    requires a == b <= |src|
    ensures DecimalLoop(cat, src, a, p, reading) == DecimalLoop(cat, src, b, p, reading)
  {
  }

  lemma ExponentParts(w: Utf16, f: Utf16, e: Utf16)
    requires e != []
    ensures var p := AfterFraction(w, f);
            p.(text := p.text + [Unit('e')] + e, exponent := p.exponent + e, inExponent := true) == AfterExponent(w, f, e)
  {
    var p := AfterFraction(w, f);
    assert p.text + [Unit('e')] + e == p.text + ExponentSpelling(e);
    assert [] + e == e;
  }

  /** The end of a spelling. */
  lemma FinishStage(cat: CategoryTable, src: Utf16, w: Utf16, f: Utf16, e: Utf16, reading: Reading)
    requires AllDigits(e) && |w| + |f| <= MaxSignificantDigits
    requires |DecimalSpelling(w, f, e)| <= |src|
    requires EndsSpelling(cat, PeekChar(src, |DecimalSpelling(w, f, e)|, 0), f, e, reading)
    ensures DecimalLoop(cat, src, |DecimalSpelling(w, f, e)|, AfterExponent(w, f, e), reading)
            == NumericLiteral(DecimalSpelling(w, f, e), DecimalNumber(w, f, SpelledExponent(e)),
                              |DecimalSpelling(w, f, e)|)
  {
    var p := AfterExponent(w, f, e);
    var end := |DecimalSpelling(w, f, e)|;
    SpelledParts(w, f, e);
    FinishAt(cat, src, end, p.inFraction, p.inExponent, reading);
    LoopFinishes(cat, src, end, p, reading);
    ShortDecimalValue(w, f, e, reading);
    assert FinishValue(p, reading) == FinishValue(DecimalParts([], w, f, e, false, false), reading);
  }

  /** The builders after a whole spelling hold its text and its three digit runs. */
  lemma SpelledParts(w: Utf16, f: Utf16, e: Utf16)
    ensures var p := AfterExponent(w, f, e);
            && p.text == DecimalSpelling(w, f, e) && p.whole == w && p.fraction == f && p.exponent == e
            && p.inFraction == (f != []) && p.inExponent == (e != [])
  {
  }

  /** A unit that ends a spelling makes the loop finish. */
  lemma FinishAt(cat: CategoryTable, src: Utf16, pos: nat, inFraction: bool, inExponent: bool, reading: Reading)
    requires var c := PeekChar(src, pos, 0);
             EndsNumber(cat, c) && c != Unit('e') && c != Unit('E')
             && (c == Unit('.') ==> inFraction || (inExponent && reading.AsIntended?))
    ensures DecimalStepAt(cat, src, pos, inFraction, inExponent, reading) == Finish
  {
  }

  /** The loop at a unit that ends the number returns the literal read so far. */
  lemma LoopFinishes(cat: CategoryTable, src: Utf16, pos: nat, p: DecimalParts, reading: Reading)
    requires pos <= |src| && DecimalStepAt(cat, src, pos, p.inFraction, p.inExponent, reading) == Finish
    ensures DecimalLoop(cat, src, pos, p, reading) == NumericLiteral(p.text, FinishValue(p, reading), pos)
  {
  }

  /** The whole digits at the start of the source lead the decimal loop into the unit after
      them. */
  lemma WholePhase(cat: CategoryTable, src: Utf16, w: Utf16, reading: Reading)
    requires 1 <= |w| <= |src| && src[..|w|] == w && AllDigits(w)
    requires w[0] != Unit('0') || (|w| == 1 && (PeekChar(src, 0, 1) == Unit('.')
             || (reading.AsIntended? && !IsRadixPrefixLetter(PeekChar(src, 0, 1)) && !IsDigit(PeekChar(src, 0, 1)))))
    ensures GetCurrentNumericLiteral(cat, src, 0, reading)
            == DecimalLoop(cat, src, |w|, DecimalParts(w, w, [], [], false, false), reading)
  {
    WholeStart(cat, src, w, reading);
    WholeDigits(cat, src, w, reading);
  }

  /** The whole digits after the first are appended to the whole part. */
  lemma WholeDigits(cat: CategoryTable, src: Utf16, w: Utf16, reading: Reading)
    requires 1 <= |w| <= |src| && src[..|w|] == w && AllDigits(w)
    ensures DecimalLoop(cat, src, 1, DecimalStart(w[0]), reading)
            == DecimalLoop(cat, src, |w|, DecimalParts(w, w, [], [], false, false), reading)
  {
    var k := |w| - 1;
    assert src[1..1 + k] == w[1..];
    TakeDigits(cat, src, 1, k, DecimalStart(w[0]), reading);
    assert AppendDigits(DecimalStart(w[0]), w[1..]) == DecimalParts(w, w, [], [], false, false) by {
      assert [w[0]] + w[1..] == w;
    }
    SameLoop(cat, src, 1 + k, |w|, DecimalParts(w, w, [], [], false, false), reading);
  }

  /** The first whole digit takes the scanner into the decimal loop. */
  lemma WholeStart(cat: CategoryTable, src: Utf16, w: Utf16, reading: Reading)
    requires 1 <= |w| <= |src| && src[..|w|] == w && AllDigits(w)
    requires w[0] != Unit('0') || (|w| == 1 && (PeekChar(src, 0, 1) == Unit('.')
             || (reading.AsIntended? && !IsRadixPrefixLetter(PeekChar(src, 0, 1)) && !IsDigit(PeekChar(src, 0, 1)))))
    ensures GetCurrentNumericLiteral(cat, src, 0, reading) == DecimalLoop(cat, src, 1, DecimalStart(w[0]), reading)
  {
    assert IsDigit(w[0]) && src[0] == w[0];
  }

  /** A dot and a run of digits fill the fraction. */
  lemma FractionPhase(cat: CategoryTable, src: Utf16, pos: nat, p: DecimalParts, f: Utf16, reading: Reading)
    requires pos + 1 + |f| <= |src| && src[pos] == Unit('.') && src[pos + 1..pos + 1 + |f|] == f && AllDigits(f)
    requires !p.inFraction && !p.inExponent
    ensures DecimalLoop(cat, src, pos, p, reading)
            == DecimalLoop(cat, src, pos + 1 + |f|,
                           p.(text := p.text + [Unit('.')] + f, fraction := p.fraction + f, inFraction := true), reading)
  {
    assert DecimalStepAt(cat, src, pos, false, false, reading) == EnterFraction;
    var q := p.(text := p.text + [Unit('.')], inFraction := true);
    TakeDigits(cat, src, pos + 1, |f|, q, reading);
  }

  /** An `e` and a run of digits fill the exponent. */
  lemma ExponentPhase(cat: CategoryTable, src: Utf16, pos: nat, p: DecimalParts, e: Utf16, reading: Reading)
    requires e != [] && pos + 1 + |e| <= |src| && src[pos] == Unit('e') && src[pos + 1..pos + 1 + |e|] == e
    requires AllDigits(e) && !p.inExponent
    ensures DecimalLoop(cat, src, pos, p, reading)
            == DecimalLoop(cat, src, pos + 1 + |e|,
                           p.(text := p.text + [Unit('e')] + e, exponent := p.exponent + e, inExponent := true), reading)
  {
    assert IsDigit(e[0]) && src[pos + 1] == e[0];
    assert DecimalStepAt(cat, src, pos, p.inFraction, false, reading) == EnterExponent([Unit('e')], []);
    assert src[pos..pos + 1] == [Unit('e')];
    var q := p.(text := p.text + [Unit('e')], inExponent := true);
    assert p.exponent + [] == p.exponent;
    assert DecimalLoop(cat, src, pos, p, reading) == DecimalLoop(cat, src, pos + 1, q, reading);
    TakeDigits(cat, src, pos + 1, |e|, q, reading);
  }

  /** Twenty significant digits or fewer are kept as they are, and an exponent of digits alone is
      their value, in either reading. */
  lemma ShortDecimalValue(w: Utf16, f: Utf16, e: Utf16, reading: Reading)
    requires |w| + |f| <= MaxSignificantDigits && AllDigits(e)
    ensures FinishValue(DecimalParts([], w, f, e, false, false), reading)
            == DecimalNumber(w, f, SpelledExponent(e))
  {
    assert Truncate(w, f) == Truncated(w, f, false, 0);
    assert !CarriesOut(w, f);
    assert e != [] ==> IsDigit(e[0]) && ParseExponent(e) == DigitsValue(e);
  }

  /** Scanning the spelling of a decimal number with at most twenty significant digits gives back
      its digits and exponent, provided the spelling is not followed by a unit that would extend
      or reject it. As written a lone zero needs a fraction and a dot may not follow an exponent;
      as intended neither restriction applies. */
  lemma DecimalSpellingRoundTrip(cat: CategoryTable, w: Utf16, f: Utf16, e: Utf16, rest: Utf16, reading: Reading)
    requires LatinLettersAreLetters(cat)
    requires AllDigits(w) && AllDigits(f) && AllDigits(e) && |w| >= 1 && |w| + |f| <= MaxSignificantDigits
    requires w[0] != Unit('0') || (|w| == 1 && (f != [] || reading.AsIntended?))
    requires rest != [] ==> EndsNumber(cat, rest[0])
                            && (rest[0] == Unit('.') ==> f != [] || (e != [] && reading.AsIntended?))
    ensures var t := DecimalSpelling(w, f, e);
            GetCurrentNumericLiteral(cat, t + rest, 0, reading)
            == NumericLiteral(t, DecimalNumber(w, f, SpelledExponent(e)), |t|)
  {
    var t := DecimalSpelling(w, f, e);
    SpellingSlices(w, FractionSpelling(f), ExponentSpelling(e), rest);
    if w[0] == Unit('0') {
      ZeroFollower(cat, w, f, e, rest, reading);
    }
    FollowerEndsSpelling(cat, t, f, e, rest, reading);
    SpellingAt(cat, t + rest, w, f, e, reading);
  }

  /** A spelling at the start of the source, followed by a unit that ends it. */
  lemma SpellingAt(cat: CategoryTable, src: Utf16, w: Utf16, f: Utf16, e: Utf16, reading: Reading)
    requires AllDigits(w) && AllDigits(f) && AllDigits(e) && |w| >= 1 && |w| + |f| <= MaxSignificantDigits
    requires |DecimalSpelling(w, f, e)| <= |src|
    requires src[..|w|] == w && src[|w|..|w| + |FractionSpelling(f)|] == FractionSpelling(f)
    requires src[|w| + |FractionSpelling(f)|..|DecimalSpelling(w, f, e)|] == ExponentSpelling(e)
    requires w[0] != Unit('0') || (|w| == 1 && ZeroMayStart(reading, PeekChar(src, 0, 1)))
    requires EndsSpelling(cat, PeekChar(src, |DecimalSpelling(w, f, e)|, 0), f, e, reading)
    ensures GetCurrentNumericLiteral(cat, src, 0, reading)
            == NumericLiteral(DecimalSpelling(w, f, e), DecimalNumber(w, f, SpelledExponent(e)),
                              |DecimalSpelling(w, f, e)|)
  {
    FractionStage(cat, src, w, f, reading);
    ExponentToEnd(cat, src, |w| + |FractionSpelling(f)|, w, f, e, reading);
  }

  /** From the exponent on, the loop reads the rest of a spelling and finishes it. */
  lemma ExponentToEnd(cat: CategoryTable, src: Utf16, mid: nat, w: Utf16, f: Utf16, e: Utf16, reading: Reading)
    requires AllDigits(e) && |w| + |f| <= MaxSignificantDigits && mid == |w| + |FractionSpelling(f)|
    requires |DecimalSpelling(w, f, e)| <= |src|
    requires src[mid..|DecimalSpelling(w, f, e)|] == ExponentSpelling(e)
    requires EndsSpelling(cat, PeekChar(src, |DecimalSpelling(w, f, e)|, 0), f, e, reading)
    ensures DecimalLoop(cat, src, mid, AfterFraction(w, f), reading)
            == NumericLiteral(DecimalSpelling(w, f, e), DecimalNumber(w, f, SpelledExponent(e)),
                              |DecimalSpelling(w, f, e)|)
  {
    var end := |DecimalSpelling(w, f, e)|;
    assert end == mid + |ExponentSpelling(e)|;
    ExponentStage(cat, src, mid, end, w, f, e, reading);
    FinishStage(cat, src, w, f, e, reading);
  }

  /** Where the parts of a spelling lie in the source. */
  lemma SpellingSlices(w: Utf16, fs: Utf16, es: Utf16, rest: Utf16)
    ensures var src := w + fs + es + rest;
            && src[..|w|] == w && src[|w|..|w| + |fs|] == fs && src[|w| + |fs|..|w| + |fs| + |es|] == es
  {
    var src := w + fs + es + rest;
    assert src == w + (fs + (es + rest));
  }

  /** What follows a lone zero in a spelling. */
  lemma ZeroFollower(cat: CategoryTable, w: Utf16, f: Utf16, e: Utf16, rest: Utf16, reading: Reading)
    requires LatinLettersAreLetters(cat)
    requires |w| == 1 && (f != [] || reading.AsIntended?)
    requires rest != [] ==> EndsNumber(cat, rest[0])
    ensures ZeroMayStart(reading, PeekChar(DecimalSpelling(w, f, e) + rest, 0, 1))
  {
    var src := DecimalSpelling(w, f, e) + rest;
    if f != [] {
      assert src[1] == Unit('.');
    } else if e != [] {
      assert src[1] == Unit('e');
    } else {
      assert src == w + rest;
      if rest != [] {
        assert src[1] == rest[0];
        if IsLatinLetter(rest[0]) {
          LatinLettersStartNames(cat, rest[0]);
        }
      }
    }
  }

  /** What follows a spelling ends it. */
  lemma FollowerEndsSpelling(cat: CategoryTable, t: Utf16, f: Utf16, e: Utf16, rest: Utf16, reading: Reading)
    requires LatinLettersAreLetters(cat)
    requires rest != [] ==> EndsNumber(cat, rest[0])
                            && (rest[0] == Unit('.') ==> f != [] || (e != [] && reading.AsIntended?))
    ensures EndsSpelling(cat, PeekChar(t + rest, |t|, 0), f, e, reading)
  {
    EofIsNoNameOrSpace(cat);
    if rest != [] {
      assert (t + rest)[|t|] == rest[0];
      if IsLatinLetter(rest[0]) {
        LatinLettersStartNames(cat, rest[0]);
      }
    }
  }
}
