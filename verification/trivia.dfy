/** The trivia scanners: comments, line terminator sequences and runs of white space. */
module TriviaScanners {
  import opened CodeUnits
  import opened CharClasses
  import opened Cursor

  const Slash: CodeUnit := '/' as CodeUnit
  const Star: CodeUnit := '*' as CodeUnit

  /** How the comment loop recognises the end of the source: as written by the value of the
      peeked unit (U+FFFF), so a U+FFFF inside the source is taken for the end; as intended by
      the position. The lexer uses `ByValue`. */
  datatype EndTest = ByValue | ByPosition

  /** The outcome of scanning for a comment: its text, whether it is a multi-line comment and
      where it ends. */
  datatype CommentScan = NoComment | Comment(text: Utf16, multiLine: bool, end: nat)

  predicate AtEnd(src: Utf16, pos: nat, test: EndTest)
  {
    if test.ByValue? then PeekChar(src, pos, 0) == Eof else pos >= |src|
  }

  /** A comment at the cursor: `//` or slash-star, then the loop. */
  function GetCurrentComment(src: Utf16, pos: nat, test: EndTest): CommentScan
    requires pos <= |src|
  {
    if PeekChar(src, pos, 0) != Slash then NoComment
    else
      var c := PeekChar(src, pos, 1);
      if c != Star && c != Slash then NoComment
      else CommentLoop(src, pos + 2, c == Star, [Slash, c], test)
  }

  /** The comment loop. A multi-line comment ends after the first star-slash and is abandoned at the
      end; a single-line comment ends before a line terminator or at the end. */
  function CommentLoop(src: Utf16, pos: nat, multiLine: bool, text: Utf16, test: EndTest): CommentScan
    requires pos <= |src|
    decreases |src| - pos
  {
    var c := PeekChar(src, pos, 0);
    if multiLine then
      if c == Star && PeekChar(src, pos, 1) == Slash then Comment(text + [Star, Slash], true, pos + 2)
      else if AtEnd(src, pos, test) then NoComment
      else CommentLoop(src, pos + 1, true, text + [c], test)
    else if IsLineTerminator(c) || AtEnd(src, pos, test) then Comment(text, false, pos)
    else CommentLoop(src, pos + 1, false, text + [c], test)
  }

  /** A star-slash starts at index `i` of `t`. */
  predicate HasCloserAt(t: Utf16, i: nat)
  {
    i + 1 < |t| && t[i] == Star && t[i + 1] == Slash
  }

  /** What a scanned comment is: the source run from the cursor, made of `//` followed by units
      that are not line terminators and ending where a line terminator or the end follows, or of
      slash-star followed by units up to and including the first star-slash after it. As written no unit
      after the opening pair is U+FFFF. */
  ghost predicate IsScannedComment(src: Utf16, pos: nat, r: CommentScan, test: EndTest)
  {
    r.Comment? ==>
      && pos + 2 <= r.end <= |src| && r.text == src[pos..r.end]
      && r.text[0] == Slash && r.text[1] == (if r.multiLine then Star else Slash)
      && (test.ByValue? ==> forall i :: 2 <= i < |r.text| ==> r.text[i] != Eof)
      && (!r.multiLine ==>
            && (forall i :: 2 <= i < |r.text| ==> !IsLineTerminator(r.text[i]))
            && (r.end < |src| ==> IsLineTerminator(src[r.end]) || (test.ByValue? && src[r.end] == Eof)))
      && (r.multiLine ==>
            && |r.text| >= 4 && HasCloserAt(r.text, |r.text| - 2)
            && forall i :: 2 <= i < |r.text| - 2 ==> !HasCloserAt(r.text, i))
  }

  /** What holds of the loop's text builder: the source run so far, the opening pair, no line
      terminator in a single-line comment, no star-slash after the opening pair in a multi-line one and
      no star-slash about to be completed by the next unit, and no U+FFFF as written. */
  ghost predicate CommentInvariant(src: Utf16, start: nat, pos: nat, multiLine: bool, text: Utf16, test: EndTest)
  {
    && start + 2 <= pos <= |src| && text == src[start..pos]
    && text[0] == Slash && text[1] == (if multiLine then Star else Slash)
    && (test.ByValue? ==> forall i :: 2 <= i < |text| ==> text[i] != Eof)
    && (!multiLine ==> forall i :: 2 <= i < |text| ==> !IsLineTerminator(text[i]))
    && (multiLine ==>
          && (forall i :: 2 <= i < |text| ==> !HasCloserAt(text, i))
          && (|text| > 2 && text[|text| - 1] == Star ==> PeekChar(src, pos, 0) != Slash))
  }

  /** Loop form of the comment facts. */
  lemma {:induction false} CommentLoopFacts(src: Utf16, start: nat, pos: nat, multiLine: bool, text: Utf16, test: EndTest)
    requires CommentInvariant(src, start, pos, multiLine, text, test)
    ensures IsScannedComment(src, start, CommentLoop(src, pos, multiLine, text, test), test)
    decreases |src| - pos
  {
    var c := PeekChar(src, pos, 0);
    if multiLine && c == Star && PeekChar(src, pos, 1) == Slash {
      assert src[start..pos + 2] == text + [Star, Slash];
      ClosedComment(text);
    } else if multiLine && !AtEnd(src, pos, test) {
      assert src[start..pos + 1] == text + [c];
      OpenCommentStep(src, start, pos, text, test);
      CommentLoopFacts(src, start, pos + 1, true, text + [c], test);
    } else if !multiLine && !(IsLineTerminator(c) || AtEnd(src, pos, test)) {
      assert src[start..pos + 1] == text + [c];
      CommentLoopFacts(src, start, pos + 1, false, text + [c], test);
    }
  }

  /** Closing a multi-line comment: the star-slash appended is the first one after the opening pair. */
  lemma ClosedComment(text: Utf16)
    requires |text| >= 2 && forall i :: 2 <= i < |text| ==> !HasCloserAt(text, i)
    ensures var t := text + [Star, Slash];
            HasCloserAt(t, |t| - 2) && forall i :: 2 <= i < |t| - 2 ==> !HasCloserAt(t, i)
  {
    var t := text + [Star, Slash];
    forall i | 2 <= i < |t| - 2
      ensures !HasCloserAt(t, i)
    {
      assert !HasCloserAt(text, i);
      if i + 1 < |text| {
        assert t[i] == text[i] && t[i + 1] == text[i + 1];
      }
    }
  }

  /** Taking one more unit of a multi-line comment keeps the invariant. */
  lemma OpenCommentStep(src: Utf16, start: nat, pos: nat, text: Utf16, test: EndTest)
    requires CommentInvariant(src, start, pos, true, text, test)
    requires !(PeekChar(src, pos, 0) == Star && PeekChar(src, pos, 1) == Slash) && !AtEnd(src, pos, test)
    ensures pos < |src| && CommentInvariant(src, start, pos + 1, true, text + [src[pos]], test)
  {
    var c := src[pos];
    var t := text + [c];
    assert src[start..pos + 1] == t;
    forall i | 2 <= i < |t|
      ensures !HasCloserAt(t, i)
    {
      if i + 1 < |text| {
        assert t[i] == text[i] && t[i + 1] == text[i + 1];
        assert !HasCloserAt(text, i);
      }
    }
  }

  /** A scanned comment is a run of the source as described by IsScannedComment. */
  lemma CommentFacts(src: Utf16, pos: nat, test: EndTest)
    requires pos <= |src|
    ensures IsScannedComment(src, pos, GetCurrentComment(src, pos, test), test)
  {
    if PeekChar(src, pos, 0) == Slash {
      var c := PeekChar(src, pos, 1);
      if c == Star || c == Slash {
        assert src[pos..pos + 2] == [Slash, c];
        CommentLoopFacts(src, pos, pos + 2, c == Star, [Slash, c], test);
      }
    }
  }

  /** Neither a line terminator nor, as written, U+FFFF. */
  predicate IsCommentLineUnit(c: CodeUnit, test: EndTest)
  {
    !IsLineTerminator(c) && (test.ByValue? ==> c != Eof)
  }

  /** A single-line comment with body `b` followed by the end of the source or a line
      terminator is scanned back whole. */
  lemma SingleLineCommentRoundTrip(b: Utf16, rest: Utf16, test: EndTest)
    requires forall i :: 0 <= i < |b| ==> IsCommentLineUnit(b[i], test)
    requires rest == [] || IsLineTerminator(rest[0])
    ensures var src := [Slash, Slash] + b + rest;
            GetCurrentComment(src, 0, test) == Comment([Slash, Slash] + b, false, 2 + |b|)
  {
    var src := [Slash, Slash] + b + rest;
    SingleLineBody(src, 2, b, [Slash, Slash], test);
  }

  lemma {:induction false} SingleLineBody(src: Utf16, pos: nat, b: Utf16, text: Utf16, test: EndTest)
    requires pos + |b| <= |src| && src[pos..pos + |b|] == b
    requires forall i :: 0 <= i < |b| ==> IsCommentLineUnit(b[i], test)
    requires pos + |b| == |src| || IsLineTerminator(src[pos + |b|])
    ensures CommentLoop(src, pos, false, text, test) == Comment(text + b, false, pos + |b|)
    decreases |b|
  {
    if b == [] {
      assert text + b == text;
    } else {
      assert src[pos] == b[0];
      assert src[pos + 1..pos + |b|] == b[1..];
      SingleLineBody(src, pos + 1, b[1..], text + [b[0]], test);
      assert text + [b[0]] + b[1..] == text + b;
    }
  }

  /** A multi-line comment whose body holds no star-slash (and, as written, no U+FFFF) is scanned back
      whole, whatever follows it. */
  lemma MultiLineCommentRoundTrip(b: Utf16, rest: Utf16, test: EndTest)
    requires forall i :: 0 <= i < |b| ==> !HasCloserAt(b, i) && (test.ByValue? ==> b[i] != Eof)
    ensures var src := [Slash, Star] + b + [Star, Slash] + rest;
            GetCurrentComment(src, 0, test) == Comment([Slash, Star] + b + [Star, Slash], true, 4 + |b|)
  {
    var src := [Slash, Star] + b + [Star, Slash] + rest;
    assert src[2..2 + |b|] == b;
    MultiLineBody(src, 2, b, [Slash, Star], test);
    assert src[2 + |b|] == Star && src[3 + |b|] == Slash;
  }

  lemma {:induction false} MultiLineBody(src: Utf16, pos: nat, b: Utf16, text: Utf16, test: EndTest)
    requires pos + |b| + 2 <= |src| && src[pos..pos + |b|] == b
    requires src[pos + |b|] == Star && src[pos + |b| + 1] == Slash
    requires forall i :: 0 <= i < |b| ==> !HasCloserAt(b, i) && (test.ByValue? ==> b[i] != Eof)
    ensures CommentLoop(src, pos, true, text, test) == Comment(text + b + [Star, Slash], true, pos + |b| + 2)
    decreases |b|
  {
    if b == [] {
      assert text + b == text;
    } else {
      assert src[pos] == b[0];
      assert !HasCloserAt(b, 0);
      assert |b| > 1 ==> src[pos + 1] == b[1];
      assert src[pos + 1..pos + |b|] == b[1..];
      forall i | 0 <= i < |b[1..]|
        ensures !HasCloserAt(b[1..], i) && (test.ByValue? ==> b[1..][i] != Eof)
      {
        assert !HasCloserAt(b, i + 1);
      }
      MultiLineBody(src, pos + 1, b[1..], text + [b[0]], test);
      assert text + [b[0]] + b[1..] == text + b;
    }
  }

  /** As written a U+FFFF ends a single-line comment: `//a` then U+FFFF then `b` gives the
      comment `//a`. */
  lemma EndUnitEndsLineComment()
    ensures var src := [Slash, Slash, Unit('a'), Eof, Unit('b')];
            GetCurrentComment(src, 0, ByValue) == Comment(src[..3], false, 3)
  {
    var src := [Slash, Slash, Unit('a'), Eof, Unit('b')];
    assert CommentLoop(src, 3, false, src[..3], ByValue) == Comment(src[..3], false, 3);
    assert [Slash, Slash] + [Unit('a')] == src[..3];
  }

  /** As written a U+FFFF abandons a multi-line comment: slash-star then U+FFFF then star-slash is no
      comment. */
  lemma EndUnitAbandonsBlockComment()
    ensures GetCurrentComment([Slash, Star, Eof, Star, Slash], 0, ByValue) == NoComment
  {
  }

  /** Judged by position, U+FFFF is an ordinary comment unit: the same two sources give the
      whole single-line comment and the whole multi-line comment. */
  lemma EndUnitInsideComments()
    ensures var src := [Slash, Slash, Unit('a'), Eof, Unit('b')];
            GetCurrentComment(src, 0, ByPosition) == Comment(src, false, 5)
    ensures var src := [Slash, Star, Eof, Star, Slash];
            GetCurrentComment(src, 0, ByPosition) == Comment(src, true, 5)
  {
    SingleLineCommentRoundTrip([Unit('a'), Eof, Unit('b')], [], ByPosition);
    assert [Slash, Slash] + [Unit('a'), Eof, Unit('b')] + [] == [Slash, Slash, Unit('a'), Eof, Unit('b')];
    MultiLineCommentRoundTrip([Eof], [], ByPosition);
    assert [Slash, Star] + [Eof] + [Star, Slash] + [] == [Slash, Star, Eof, Star, Slash];
  }

  /** Where no unit from the cursor on is U+FFFF the two end tests agree. */
  lemma {:induction false} CommentLoopEndTestsAgree(src: Utf16, pos: nat, multiLine: bool, text: Utf16)
    requires pos <= |src| && forall i :: pos <= i < |src| ==> src[i] != Eof
    ensures CommentLoop(src, pos, multiLine, text, ByValue) == CommentLoop(src, pos, multiLine, text, ByPosition)
    decreases |src| - pos
  {
    assert AtEnd(src, pos, ByValue) == AtEnd(src, pos, ByPosition);
    if pos < |src| {
      CommentLoopEndTestsAgree(src, pos + 1, multiLine, text + [src[pos]]);
    }
  }

  lemma CommentEndTestsAgree(src: Utf16, pos: nat)
    requires pos <= |src| && forall i :: pos <= i < |src| ==> src[i] != Eof
    ensures GetCurrentComment(src, pos, ByValue) == GetCurrentComment(src, pos, ByPosition)
  {
    if pos + 2 <= |src| {
      CommentLoopEndTestsAgree(src, pos + 2, src[pos + 1] == Star, [Slash, src[pos + 1]]);
    }
  }

  /** The outcome of scanning for a line terminator sequence or a run of white space. */
  datatype TriviaScan = NoTrivia | TriviaText(text: Utf16, end: nat)

  /** LF, LS or PS alone, or CR followed by an optional LF. */
  function GetCurrentLineTerminatorSequence(src: Utf16, pos: nat): (r: TriviaScan)
    requires pos <= |src|
  {
    var c := PeekChar(src, pos, 0);
    if c == LF || c == LS || c == PS then TriviaText([c], pos + 1)
    else if c == CR then
      if PeekChar(src, pos, 1) == LF then TriviaText([CR, LF], pos + 2) else TriviaText([CR], pos + 1)
    else NoTrivia
  }

  /** A line terminator sequence is found exactly at a line terminator; it is the source run it
      was read from, one of the five sequences, and a CR is taken together with a following LF. */
  lemma LineTerminatorFacts(src: Utf16, pos: nat)
    requires pos <= |src|
    ensures var r := GetCurrentLineTerminatorSequence(src, pos);
            && (r.TriviaText? <==> pos < |src| && IsLineTerminator(src[pos]))
            && (r.TriviaText? ==>
                  && pos < r.end <= |src| && r.text == src[pos..r.end]
                  && (r.text == [LF] || r.text == [LS] || r.text == [PS] || r.text == [CR] || r.text == [CR, LF])
                  && (r.text == [CR] ==> PeekChar(src, pos, 1) != LF))
  {
    var c := PeekChar(src, pos, 0);
    if c == CR && PeekChar(src, pos, 1) == LF {
      assert src[pos..pos + 2] == [CR, LF];
    }
  }

  /** The white-space loop: every white-space unit is taken. */
  function WhiteSpaceLoop(cat: CategoryTable, src: Utf16, pos: nat, text: Utf16): (r: (Utf16, nat))
    requires pos <= |src|
    decreases |src| - pos
  {
    var c := PeekChar(src, pos, 0);
    if IsWhiteSpaceUnit(cat, c) then
      EofIsNoNameOrSpace(cat);
      WhiteSpaceLoop(cat, src, pos + 1, text + [c])
    else (text, pos)
  }

  /** A run of white space at the cursor; none when the run is empty. */
  function GetCurrentWhiteSpace(cat: CategoryTable, src: Utf16, pos: nat): TriviaScan
    requires pos <= |src|
  {
    var (text, end) := WhiteSpaceLoop(cat, src, pos, []);
    if end > pos then TriviaText(text, end) else NoTrivia
  }

  lemma {:induction false} WhiteSpaceLoopFacts(cat: CategoryTable, src: Utf16, start: nat, pos: nat, text: Utf16)
    requires start <= pos <= |src| && text == src[start..pos]
    ensures var (t, end) := WhiteSpaceLoop(cat, src, pos, text);
            && pos <= end <= |src| && t == src[start..end]
            && (forall i :: pos <= i < end ==> IsWhiteSpaceUnit(cat, src[i]))
            && !IsWhiteSpaceUnit(cat, PeekChar(src, end, 0))
    decreases |src| - pos
  {
    var c := PeekChar(src, pos, 0);
    if IsWhiteSpaceUnit(cat, c) {
      EofIsNoNameOrSpace(cat);
      assert src[start..pos + 1] == text + [c];
      WhiteSpaceLoopFacts(cat, src, start, pos + 1, text + [c]);
    }
  }

  /** A run of white space is found exactly at a white-space unit; it is the longest run of
      white-space units from the cursor. */
  lemma WhiteSpaceFacts(cat: CategoryTable, src: Utf16, pos: nat)
    requires pos <= |src|
    ensures var r := GetCurrentWhiteSpace(cat, src, pos);
            && (r.TriviaText? <==> pos < |src| && IsWhiteSpaceUnit(cat, src[pos]))
            && (r.TriviaText? ==>
                  && pos < r.end <= |src| && r.text == src[pos..r.end]
                  && (forall i :: 0 <= i < |r.text| ==> IsWhiteSpaceUnit(cat, r.text[i]))
                  && !IsWhiteSpaceUnit(cat, PeekChar(src, r.end, 0)))
  {
    assert src[pos..pos] == [];
    WhiteSpaceLoopFacts(cat, src, pos, pos, []);
    EofIsNoNameOrSpace(cat);
    var (t, end) := WhiteSpaceLoop(cat, src, pos, []);
    if pos < |src| && IsWhiteSpaceUnit(cat, src[pos]) {
      assert end > pos;
    }
    forall i | 0 <= i < |t| && end > pos
      ensures IsWhiteSpaceUnit(cat, t[i])
    {
      assert t[i] == src[pos + i];
    }
  }
}
