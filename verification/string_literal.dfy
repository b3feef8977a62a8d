/** String literals: the quoted text, its decoded value and the escapes inside it. */
module StringLiterals {
  import opened CodeUnits
  import opened Cursor
  import opened EncodedChars
  import CharClasses

  /** The outcome of scanning for a string literal at the cursor. `Hangs` is the scanner's
      endless loop: it reached the end of the source inside the literal, where every further
      step appends the end-of-input unit without moving. */
  datatype StringScan =
    | NoString
    | Hangs
    | StringLiteral(text: Utf16, quote: CodeUnit, value: Utf16, end: nat)

  predicate IsQuote(c: CodeUnit)
  {
    c == '"' as CodeUnit || c == '\'' as CodeUnit
  }

  /** The unit `\c` stands for, when `c` is neither `u`, `x` nor a line terminator: the seven
      single-letter escapes, and every other unit standing for itself. */
  function EscapedUnit(c: CodeUnit): CodeUnit
  {
    if c == '0' as CodeUnit then 0x0000
    else if c == 'b' as CodeUnit then 0x0008
    else if c == 'f' as CodeUnit then 0x000C
    else if c == 'n' as CodeUnit then 0x000A
    else if c == 'r' as CodeUnit then 0x000D
    else if c == 't' as CodeUnit then 0x0009
    else if c == 'v' as CodeUnit then 0x000B
    else c
  }

  /** A string literal at `pos`: a quote, then units up to the same quote. */
  function GetCurrentStringLiteral(src: Utf16, pos: nat): StringScan
    requires pos <= |src|
  {
    var c := PeekChar(src, pos, 0);
    if IsQuote(c) then StringLoop(src, c, AdvancePosition(src, pos), [c], []) else NoString
  }

  /** What one turn of the scanner's loop does at `pos`. */
  datatype StringStep =
    | Close
    | Abort
    | Append(consumed: Utf16, decoded: Utf16, next: nat)

  /** One turn of the loop, for a cursor inside the source: the closing quote ends the literal,
      an unescaped line terminator aborts it, and anything else appends the units it consumes to
      the text and what they stand for to the value. */
  function StringStepAt(src: Utf16, quote: CodeUnit, pos: nat): (s: StringStep)
    requires pos < |src|
    ensures s.Append? ==> pos < s.next <= |src|
    ensures s.Append? && s.next < |src| ==> s.consumed == src[pos..s.next]
  {
    var c := src[pos];
    if c == quote then Close
    else if c == '\\' as CodeUnit then EscapeStepAt(src, pos)
    else if IsLineTerminator(c) then Abort
    else Append([c], [c], pos + 1)
  }

  /** The turn at a backslash: a `\u` or `\x` escape when one is well formed (a lone backslash
      otherwise), a line continuation (`\` before LF, LS, PS, CR or CR LF) that stands for
      nothing, or a single-unit escape. A backslash as the last unit consumes the end-of-input
      unit after it. */
  function EscapeStepAt(src: Utf16, pos: nat): (s: StringStep)
    requires pos < |src| && src[pos] == '\\' as CodeUnit
    ensures s.Append? && pos < s.next <= |src|
    ensures s.next < |src| ==> s.consumed == src[pos..s.next]
  {
    var c := src[pos];
    var d := PeekChar(src, pos, 1);
    if d == 'u' as CodeUnit then
      match PeekCurrentUnicodeEncodedChar(src, pos)
      case Some(e) =>
        EncodedCharsAreSlices(src, pos);
        Append(e.text, [e.unit], AdvancePositionBy(src, pos, |e.text|))
      case None => Append([c], [c], pos + 1)
    else if d == 'x' as CodeUnit then
      match PeekCurrentHexEncodedChar(src, pos)
      case Some(e) =>
        EncodedCharsAreSlices(src, pos);
        Append(e.text, [e.unit], AdvancePositionBy(src, pos, |e.text|))
      case None => Append([c], [c], pos + 1)
    else
      var next := AdvancePosition(src, pos + 1);
      assert next < |src| ==> d == src[pos + 1] && next == pos + 2;
      if d == LF || d == LS || d == PS then Append([c, d], [], next)
      else if d == CR then
        if PeekChar(src, next, 0) == LF then
          assert next < |src| ==> src[pos..next + 1] == [c, d, src[next]];
          Append([c, d, LF], [], AdvancePosition(src, next))
        else Append([c, d], [], next)
      else Append([c, d], [EscapedUnit(d)], next)
  }

  /** The scanner's loop; `text` and `value` are its two builders. */
  function StringLoop(src: Utf16, quote: CodeUnit, pos: nat, text: Utf16, value: Utf16): StringScan
    requires pos <= |src|
    decreases |src| - pos
  {
    if pos == |src| then Hangs
    else
      match StringStepAt(src, quote, pos)
      case Close => StringLiteral(text + [quote], quote, value, pos + 1)
      case Abort => NoString
      case Append(consumed, decoded, next) => StringLoop(src, quote, next, text + consumed, value + decoded)
  }

  /** Loop form of the tiling property: the text builder stays the source run scanned so far. */
  lemma {:induction false} StringLoopIsSlice(src: Utf16, quote: CodeUnit, start: nat, pos: nat,
                                             text: Utf16, value: Utf16)
    requires start < pos <= |src| && text == src[start..pos]
    ensures var r := StringLoop(src, quote, pos, text, value);
            r.StringLiteral? ==> pos < r.end <= |src| && r.text == src[start..r.end]
                                 && r.quote == quote && src[r.end - 1] == quote
    decreases |src| - pos
  {
    if pos < |src| {
      match StringStepAt(src, quote, pos)
      case Close =>
        assert src[start..pos + 1] == text + [quote];
      case Abort =>
      case Append(consumed, decoded, next) =>
        if next < |src| {
          assert src[start..next] == text + consumed;
          StringLoopIsSlice(src, quote, start, next, text + consumed, value + decoded);
        }
    }
  }

  /** A string literal's text is exactly the source run it was scanned from, and it starts and
      ends with the same quote. */
  lemma StringLiteralIsSlice(src: Utf16, pos: nat)
    requires pos <= |src|
    ensures var r := GetCurrentStringLiteral(src, pos);
            r.StringLiteral? ==> pos + 2 <= r.end <= |src| && r.text == src[pos..r.end]
                                 && IsQuote(r.quote) && r.text[0] == r.quote && r.text[|r.text| - 1] == r.quote
  {
    var c := PeekChar(src, pos, 0);
    if IsQuote(c) {
      StringLoopIsSlice(src, c, pos, pos + 1, [c], []);
    }
  }

  /** The spelling of one unit inside a literal quoted with `quote`: the quote, backslash, LF and
      CR are escaped, LS and PS written as `\u` escapes, and every other unit written as is. */
  function EncodeUnit(u: CodeUnit, quote: CodeUnit): (t: Utf16)
    ensures 1 <= |t| <= 6
  {
    if u == quote || u == '\\' as CodeUnit then ['\\' as CodeUnit, u]
    else if u == LF then ['\\' as CodeUnit, 'n' as CodeUnit]
    else if u == CR then ['\\' as CodeUnit, 'r' as CodeUnit]
    else if u == LS || u == PS then UnicodeEscapeOf(u)
    else [u]
  }

  function EncodeBody(v: Utf16, quote: CodeUnit): Utf16
  {
    if v == [] then [] else EncodeUnit(v[0], quote) + EncodeBody(v[1..], quote)
  }

  /** A literal whose value is `v`. */
  function QuoteString(v: Utf16, quote: CodeUnit): Utf16
  {
    [quote] + EncodeBody(v, quote) + [quote]
  }

  /** One turn of the loop over the spelling of a unit consumes the spelling and appends the
      unit. */
  lemma StepDecodesUnit(src: Utf16, quote: CodeUnit, pos: nat, u: CodeUnit, e: Utf16)
    requires IsQuote(quote) && e == EncodeUnit(u, quote)
    requires pos + |e| < |src| && src[pos..pos + |e|] == e
    ensures StringStepAt(src, quote, pos) == Append(e, [u], pos + |e|)
  {
    assert forall i :: 0 <= i < |e| ==> src[pos + i] == e[i];
    if u == quote || u == '\\' as CodeUnit {
      assert src[pos] == '\\' as CodeUnit && src[pos + 1] == u;
      assert EscapedUnit(u) == u;
    } else if u == LF {
      assert src[pos] == '\\' as CodeUnit && src[pos + 1] == 'n' as CodeUnit;
    } else if u == CR {
      assert src[pos] == '\\' as CodeUnit && src[pos + 1] == 'r' as CodeUnit;
    } else if u == LS || u == PS {
      assert src[pos] == '\\' as CodeUnit && src[pos + 1] == 'u' as CodeUnit;
      UnicodeEscapeRoundTrip(u, src, pos);
    } else {
      assert e == [u] && src[pos] == u;
    }
  }

  /** Over the spelling of a unit, the loop takes one turn that consumes the spelling and
      appends the unit. */
  lemma LoopDecodesUnit(src: Utf16, quote: CodeUnit, pos: nat, u: CodeUnit, e: Utf16, text: Utf16, value: Utf16)
    requires IsQuote(quote) && e == EncodeUnit(u, quote)
    requires pos + |e| < |src| && src[pos..pos + |e|] == e
    ensures StringLoop(src, quote, pos, text, value) == StringLoop(src, quote, pos + |e|, text + e, value + [u])
  {
    StepDecodesUnit(src, quote, pos, u, e);
  }

  /** A slice holding a body and a closing unit splits into the body's first part and the rest. */
  lemma SplitSlice(src: Utf16, pos: nat, body: Utf16, e: Utf16, rest: Utf16, q: CodeUnit)
    requires body == e + rest && pos + |body| < |src| && src[pos..pos + |body| + 1] == body + [q]
    ensures pos + |e| + |rest| < |src|
    ensures src[pos..pos + |e|] == e
    ensures src[pos + |e|..pos + |e| + |rest| + 1] == rest + [q]
  {
    assert src[pos..pos + |e|] == src[pos..pos + |body| + 1][..|e|];
    assert src[pos + |e|..pos + |e| + |rest| + 1] == src[pos..pos + |body| + 1][|e|..];
  }

  /** The loop takes one turn whenever the step it is at appends. */
  lemma LoopTakesStep(src: Utf16, quote: CodeUnit, pos: nat, text: Utf16, value: Utf16)
    requires pos < |src| && StringStepAt(src, quote, pos).Append?
    ensures var s := StringStepAt(src, quote, pos);
            StringLoop(src, quote, pos, text, value) == StringLoop(src, quote, s.next, text + s.consumed, value + s.decoded)
  {
  }

  /** At the closing quote the loop returns the literal. */
  lemma LoopAtQuote(src: Utf16, quote: CodeUnit, pos: nat, text: Utf16, value: Utf16)
    requires pos < |src| && src[pos] == quote
    ensures StringLoop(src, quote, pos, text, value) == StringLiteral(text + [quote], quote, value, pos + 1)
  {
  }

  /** Loop form of the round trip: scanning an encoded body and its closing quote appends
      exactly the encoded value. */
  lemma {:induction false} StringLoopDecodesBody(src: Utf16, quote: CodeUnit, pos: nat, v: Utf16, body: Utf16,
                                                 text: Utf16, value: Utf16)
    requires IsQuote(quote) && body == EncodeBody(v, quote)
    requires pos + |body| < |src| && src[pos..pos + |body| + 1] == body + [quote]
    ensures StringLoop(src, quote, pos, text, value)
            == StringLiteral(text + body + [quote], quote, value + v, pos + |body| + 1)
    decreases v, 1
  {
    if v == [] {
      assert src[pos] == (body + [quote])[0];
      LoopAtQuote(src, quote, pos, text, value);
    } else {
      StringLoopDecodesNonEmptyBody(src, quote, pos, v, body, text, value);
    }
  }

  /** The inductive step of the round trip: the first unit's spelling, then the rest. */
  lemma {:induction false} StringLoopDecodesNonEmptyBody(src: Utf16, quote: CodeUnit, pos: nat, v: Utf16, body: Utf16,
                                                         text: Utf16, value: Utf16)
    requires IsQuote(quote) && v != [] && body == EncodeBody(v, quote)
    requires pos + |body| < |src| && src[pos..pos + |body| + 1] == body + [quote]
    ensures StringLoop(src, quote, pos, text, value)
            == StringLiteral(text + body + [quote], quote, value + v, pos + |body| + 1)
    decreases v, 0
  {
    var u, e, rest := v[0], EncodeUnit(v[0], quote), EncodeBody(v[1..], quote);
    assert body == e + rest;
    FirstUnitTurn(src, quote, pos, u, body, e, rest, text, value);
    StringLoopDecodesBody(src, quote, pos + |e|, v[1..], rest, text + e, value + [u]);
    SameLiteral(text, e, rest, body, quote, value, v, pos);
  }

  /** Over the spelling of a unit followed by more units and the closing quote, the loop's first
      turn consumes the spelling and leaves the rest before the closing quote. */
  lemma FirstUnitTurn(src: Utf16, quote: CodeUnit, pos: nat, u: CodeUnit, body: Utf16, e: Utf16, rest: Utf16,
                      text: Utf16, value: Utf16)
    requires IsQuote(quote) && e == EncodeUnit(u, quote) && body == e + rest
    requires pos + |body| < |src| && src[pos..pos + |body| + 1] == body + [quote]
    ensures pos + |e| + |rest| < |src|
    ensures src[pos + |e|..pos + |e| + |rest| + 1] == rest + [quote]
    ensures StringLoop(src, quote, pos, text, value) == StringLoop(src, quote, pos + |e|, text + e, value + [u])
  {
    SplitSlice(src, pos, body, e, rest, quote);
    LoopDecodesUnit(src, quote, pos, u, e, text, value);
  }

  /** Regrouping the builders after one turn and the rest of the loop. */
  lemma SameLiteral(text: Utf16, e: Utf16, rest: Utf16, body: Utf16, quote: CodeUnit, value: Utf16, v: Utf16, pos: nat)
    requires v != [] && body == e + rest
    ensures StringLiteral(text + e + rest + [quote], quote, value + [v[0]] + v[1..], pos + |e| + |rest| + 1)
            == StringLiteral(text + body + [quote], quote, value + v, pos + |body| + 1)
  {
    assert text + e + rest + [quote] == text + body + [quote];
    assert value + [v[0]] + v[1..] == value + v;
  }

  /** Scanning the literal of any value gives back the value, with the literal as its text. */
  lemma StringLiteralRoundTrip(v: Utf16, quote: CodeUnit, rest: Utf16)
    requires IsQuote(quote)
    ensures var lit := QuoteString(v, quote);
            GetCurrentStringLiteral(lit + rest, 0) == StringLiteral(lit, quote, v, |lit|)
  {
    var lit := QuoteString(v, quote);
    var src := lit + rest;
    var body := EncodeBody(v, quote);
    assert src[1..1 + |body| + 1] == body + [quote];
    StringLoopDecodesBody(src, quote, 1, v, body, [quote], []);
    assert [quote] + body + [quote] == lit;
  }

  /** A backslash before a unit other than `u`, `x` or a line terminator is a single-unit escape:
      both units go to the text and the unit's escape value to the value. */
  lemma SingleEscape(src: Utf16, pos: nat)
    requires pos + 1 < |src| && src[pos] == '\\' as CodeUnit
    requires src[pos + 1] != 'u' as CodeUnit && src[pos + 1] != 'x' as CodeUnit && !IsLineTerminator(src[pos + 1])
    ensures EscapeStepAt(src, pos) == Append(src[pos..pos + 2], [EscapedUnit(src[pos + 1])], pos + 2)
  {
    assert src[pos..pos + 2] == [src[pos], src[pos + 1]];
  }

  /** A backslash before a line terminator (a CR not followed by LF) continues the line: both
      units go to the text and nothing to the value. */
  lemma LineContinuation(src: Utf16, pos: nat)
    requires pos + 1 < |src| && src[pos] == '\\' as CodeUnit && IsLineTerminator(src[pos + 1])
    requires src[pos + 1] == CR && pos + 2 < |src| ==> src[pos + 2] != LF
    ensures EscapeStepAt(src, pos) == Append(src[pos..pos + 2], [], pos + 2)
  {
    assert src[pos..pos + 2] == [src[pos], src[pos + 1]];
  }

  /** A backslash before CR LF continues the line across all three units. */
  lemma CrLfContinuation(src: Utf16, pos: nat)
    requires pos + 2 < |src| && src[pos] == '\\' as CodeUnit && src[pos + 1] == CR && src[pos + 2] == LF
    ensures EscapeStepAt(src, pos) == Append(src[pos..pos + 3], [], pos + 3)
  {
    assert src[pos..pos + 3] == [src[pos], src[pos + 1], src[pos + 2]];
  }

  /** A `\u` that is no well-formed escape is not interpreted: the backslash alone goes to both
      the text and the value, and the next turn reads the `u` as a plain unit. */
  lemma MalformedUnicodeEscape(src: Utf16, quote: CodeUnit, pos: nat)
    requires IsQuote(quote) && pos + 1 < |src| && src[pos] == '\\' as CodeUnit && src[pos + 1] == 'u' as CodeUnit
    requires PeekCurrentUnicodeEncodedChar(src, pos).None?
    ensures StringStepAt(src, quote, pos) == Append([src[pos]], [src[pos]], pos + 1)
    ensures StringStepAt(src, quote, pos + 1) == Append([src[pos + 1]], [src[pos + 1]], pos + 2)
  {
  }

  /** A `\x` that is no well-formed escape is kept the same way: the backslash alone, then the `x`
      as a plain unit. */
  lemma MalformedHexEscape(src: Utf16, quote: CodeUnit, pos: nat)
    requires IsQuote(quote) && pos + 1 < |src| && src[pos] == '\\' as CodeUnit && src[pos + 1] == 'x' as CodeUnit
    requires PeekCurrentHexEncodedChar(src, pos).None?
    ensures StringStepAt(src, quote, pos) == Append([src[pos]], [src[pos]], pos + 1)
    ensures StringStepAt(src, quote, pos + 1) == Append([src[pos + 1]], [src[pos + 1]], pos + 2)
  {
  }

  /** A literal holding the malformed escape `\uZ` keeps all three units, backslash included, in
      its value. */
  lemma MalformedEscapeKept(quote: CodeUnit)
    requires IsQuote(quote)
    ensures var src := [quote, '\\' as CodeUnit, 'u' as CodeUnit, 'Z' as CodeUnit, quote];
            GetCurrentStringLiteral(src, 0) == StringLiteral(src, quote, src[1..4], 5)
  {
    var src := [quote, '\\' as CodeUnit, 'u' as CodeUnit, 'Z' as CodeUnit, quote];
    assert !CharClasses.IsHexDigit(src[3]) && src[3] != '{' as CodeUnit;
    MalformedUnicodeEscape(src, quote, 1);
    assert GetCurrentStringLiteral(src, 0) == StringLoop(src, quote, 1, [quote], []);
    LoopTakesStep(src, quote, 1, [quote], []);
    var t1, v1 := [quote] + [src[1]], [] + [src[1]];
    LoopTakesStep(src, quote, 2, t1, v1);
    var t2, v2 := t1 + [src[2]], v1 + [src[2]];
    assert StringStepAt(src, quote, 3) == Append([src[3]], [src[3]], 4);
    LoopTakesStep(src, quote, 3, t2, v2);
    var t3, v3 := t2 + [src[3]], v2 + [src[3]];
    LoopAtQuote(src, quote, 4, t3, v3);
    assert v3 == [src[1], src[2], src[3]] && t3 == [quote, src[1], src[2], src[3]];
    assert src[1..4] == [src[1], src[2], src[3]];
  }

  /** A unit the loop appends as itself: no quote, backslash or line terminator. */
  predicate IsPlainStringUnit(quote: CodeUnit, c: CodeUnit)
  {
    c != quote && c != '\\' as CodeUnit && !IsLineTerminator(c)
  }

  /** A run of plain units that reaches an unescaped line terminator ends the loop without a
      literal, whatever the builders hold. */
  lemma {:induction false} PlainRunThenTerminatorAborts(src: Utf16, quote: CodeUnit, pos: nat, j: nat, text: Utf16, value: Utf16)
    requires IsQuote(quote) && pos <= j < |src| && IsLineTerminator(src[j])
    requires forall i :: pos <= i < j ==> IsPlainStringUnit(quote, src[i])
    ensures StringLoop(src, quote, pos, text, value) == NoString
    decreases j - pos
  {
    if pos == j {
      assert StringStepAt(src, quote, pos) == Abort;
    } else {
      assert StringStepAt(src, quote, pos) == Append([src[pos]], [src[pos]], pos + 1);
      PlainRunThenTerminatorAborts(src, quote, pos + 1, j, text + [src[pos]], value + [src[pos]]);
    }
  }

  /** An unescaped line terminator inside a literal ends the scan without a literal: a quote,
      plain units, then a line terminator is no string, wherever it stands in the source. */
  lemma RawLineTerminatorRejects(src: Utf16, pos: nat, j: nat)
    requires pos < j < |src| && IsQuote(src[pos]) && IsLineTerminator(src[j])
    requires forall i :: pos < i < j ==> IsPlainStringUnit(src[pos], src[i])
    ensures GetCurrentStringLiteral(src, pos) == NoString
  {
    PlainRunThenTerminatorAborts(src, src[pos], pos + 1, j, [src[pos]], []);
  }

  /** A run of plain units up to the end of the source never ends the loop. */
  lemma {:induction false} PlainRunHangs(src: Utf16, quote: CodeUnit, pos: nat, text: Utf16, value: Utf16)
    requires pos <= |src|
    requires forall i :: pos <= i < |src| ==> IsPlainStringUnit(quote, src[i])
    ensures StringLoop(src, quote, pos, text, value) == Hangs
    decreases |src| - pos
  {
    if pos < |src| {
      assert StringStepAt(src, quote, pos) == Append([src[pos]], [src[pos]], pos + 1);
      PlainRunHangs(src, quote, pos + 1, text + [src[pos]], value + [src[pos]]);
    }
  }

  /** Nor does a run of plain units closed by a backslash as the last unit: the backslash takes
      the end-of-input unit with it and leaves the cursor at the end. */
  lemma {:induction false} PlainRunThenBackslashHangs(src: Utf16, quote: CodeUnit, pos: nat, text: Utf16, value: Utf16)
    requires IsQuote(quote) && pos < |src| && src[|src| - 1] == '\\' as CodeUnit
    requires forall i :: pos <= i < |src| - 1 ==> IsPlainStringUnit(quote, src[i])
    ensures StringLoop(src, quote, pos, text, value) == Hangs
    decreases |src| - pos
  {
    if pos == |src| - 1 {
      assert StringStepAt(src, quote, pos) == Append([src[pos], Eof], [Eof], |src|);
    } else {
      assert StringStepAt(src, quote, pos) == Append([src[pos]], [src[pos]], pos + 1);
      PlainRunThenBackslashHangs(src, quote, pos + 1, text + [src[pos]], value + [src[pos]]);
    }
  }

  /** A literal that reaches the end of the source, or whose last unit is a backslash, never
      finishes, whatever plain units it holds. */
  lemma UnterminatedHangs(quote: CodeUnit, body: Utf16)
    requires IsQuote(quote) && forall i :: 0 <= i < |body| ==> IsPlainStringUnit(quote, body[i])
    ensures GetCurrentStringLiteral([quote] + body, 0) == Hangs
    ensures GetCurrentStringLiteral([quote] + body + ['\\' as CodeUnit], 0) == Hangs
  {
    var open := [quote] + body;
    assert forall i :: 1 <= i < |open| ==> open[i] == body[i - 1];
    PlainRunHangs(open, quote, 1, [quote], []);
    var slash := open + ['\\' as CodeUnit];
    assert forall i :: 1 <= i < |slash| - 1 ==> slash[i] == body[i - 1];
    PlainRunThenBackslashHangs(slash, quote, 1, [quote], []);
  }

  /** The loop as intended: reaching the end of the source inside a literal ends the scan
      without a literal, as an unescaped line terminator does. */
  function StringLoopCorrected(src: Utf16, quote: CodeUnit, pos: nat, text: Utf16, value: Utf16): (r: StringScan)
    requires pos <= |src|
    decreases |src| - pos
  {
    if pos == |src| then NoString
    else
      match StringStepAt(src, quote, pos)
      case Close => StringLiteral(text + [quote], quote, value, pos + 1)
      case Abort => NoString
      case Append(consumed, decoded, next) => StringLoopCorrected(src, quote, next, text + consumed, value + decoded)
  }

  /** A string literal at `pos`, with the loop as intended. */
  function GetCurrentStringLiteralCorrected(src: Utf16, pos: nat): StringScan
    requires pos <= |src|
  {
    var c := PeekChar(src, pos, 0);
    if IsQuote(c) then StringLoopCorrected(src, c, AdvancePosition(src, pos), [c], []) else NoString
  }

  /** The loop as intended finishes every scan: it finds the same literals as the loop as
      written, and no literal exactly where that one never finishes. */
  lemma {:induction false} StringLoopCorrectedAgrees(src: Utf16, quote: CodeUnit, pos: nat, text: Utf16, value: Utf16)
    requires pos <= |src|
    ensures var r := StringLoop(src, quote, pos, text, value);
            StringLoopCorrected(src, quote, pos, text, value) == if r.Hangs? then NoString else r
    decreases |src| - pos
  {
    if pos < |src| {
      match StringStepAt(src, quote, pos)
      case Close =>
      case Abort =>
      case Append(consumed, decoded, next) =>
        StringLoopCorrectedAgrees(src, quote, next, text + consumed, value + decoded);
    }
  }

  /** The scan as intended never hangs, and otherwise agrees with the scan as written. */
  lemma StringLiteralCorrectedAgrees(src: Utf16, pos: nat)
    requires pos <= |src|
    ensures var r := GetCurrentStringLiteral(src, pos);
            && !GetCurrentStringLiteralCorrected(src, pos).Hangs?
            && GetCurrentStringLiteralCorrected(src, pos) == if r.Hangs? then NoString else r
  {
    var c := PeekChar(src, pos, 0);
    if IsQuote(c) {
      StringLoopCorrectedAgrees(src, c, AdvancePosition(src, pos), [c], []);
    }
  }

  /** As intended, an unterminated literal and a literal ending in a backslash are no
      literals. */
  lemma UnterminatedRejectedCorrected(quote: CodeUnit, body: Utf16)
    requires IsQuote(quote) && forall i :: 0 <= i < |body| ==> IsPlainStringUnit(quote, body[i])
    ensures GetCurrentStringLiteralCorrected([quote] + body, 0) == NoString
    ensures GetCurrentStringLiteralCorrected([quote] + body + ['\\' as CodeUnit], 0) == NoString
  {
    UnterminatedHangs(quote, body);
    StringLiteralCorrectedAgrees([quote] + body, 0);
    StringLiteralCorrectedAgrees([quote] + body + ['\\' as CodeUnit], 0);
  }
}
