/** Text as the scanner sees it: a sequence of UTF-16 code units. */
module CodeUnits {

  /** One UTF-16 storage unit (a C# `char`), surrogates included. */
  type CodeUnit = c: int | 0 <= c < 0x1_0000

  type Utf16 = seq<CodeUnit>

  /** The conventional Some/None wrapper. */
  datatype Option<+T> = None | Some(value: T)

  /** The unit the scanner reads past the end of the source (U+FFFF). */
  const Eof: CodeUnit := 0xFFFF

  const LF: CodeUnit := 0x000A
  const CR: CodeUnit := 0x000D
  const LS: CodeUnit := 0x2028
  const PS: CodeUnit := 0x2029

  /** The code unit of a character from the Basic Multilingual Plane. */
  function Unit(c: char): (u: CodeUnit)
    requires c as int < 0x1_0000
  {
    c as int
  }

  /** The scanner's named units are the code units of its character literals: line feed,
      carriage return, line and paragraph separator, and the end marker U+FFFF. */
  lemma NamedUnits()
    ensures Unit('\n') == LF && Unit('\r') == CR
    ensures Unit('\U{2028}') == LS && Unit('\U{2029}') == PS && Unit('\U{FFFF}') == Eof
  {
  }

  /** Two characters of the Basic Multilingual Plane have the same code unit exactly when they
      are the same character. */
  lemma UnitInjective(a: char, b: char)
    requires a as int < 0x1_0000 && b as int < 0x1_0000
    ensures Unit(a) == Unit(b) <==> a == b
  {
  }

  /** The code units of a string; every character of the strings used here lies in the Basic
      Multilingual Plane, and any other would be replaced by U+FFFD. */
  function Units(s: string): (r: Utf16)
    ensures |r| == |s|
  {
    if s == [] then []
    else [if s[0] as int < 0x1_0000 then s[0] as int else 0xFFFD] + Units(s[1..])
  }

  /** A string of the Basic Multilingual Plane. */
  predicate IsBmp(s: string)
  {
    forall i :: 0 <= i < |s| ==> s[i] as int < 0x1_0000
  }

  /** The units of a string of the Basic Multilingual Plane are its characters' code units, one
      for one. */
  lemma {:induction false} UnitsOfBmp(s: string)
    requires IsBmp(s)
    ensures forall i :: 0 <= i < |s| ==> Units(s)[i] == Unit(s[i])
  {
    if s != [] {
      UnitsOfBmp(s[1..]);
      forall i | 0 <= i < |s|
        ensures Units(s)[i] == Unit(s[i])
      {
        if i > 0 {
          assert s[1..][i - 1] == s[i];
        }
      }
    }
  }

  /** On strings of the Basic Multilingual Plane nothing is lost: two strings have the same
      units exactly when they are equal. */
  lemma UnitsInjective(s: string, t: string)
    requires IsBmp(s) && IsBmp(t)
    ensures Units(s) == Units(t) <==> s == t
  {
    UnitsOfBmp(s);
    UnitsOfBmp(t);
    if Units(s) == Units(t) {
      forall i | 0 <= i < |s|
        ensures s[i] == t[i]
      {
        assert Unit(s[i]) == Unit(t[i]);
        UnitInjective(s[i], t[i]);
      }
    }
  }

  /** LF, CR, LS and PS: the units that end a line. */
  predicate IsLineTerminator(c: CodeUnit)
  {
    c == LF || c == CR || c == LS || c == PS
  }

  /** An ASCII decimal digit. */
  predicate IsDigit(c: CodeUnit)
  {
    Unit('0') <= c <= Unit('9')
  }
}
