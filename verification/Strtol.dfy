/** How the C library's strtol family reads a text with base 0. */
module Strtol {
  import opened Longs
  import opened ExprMachine
  import opened ExprTree

  function Clamp(x: int): int {
    if x < LONG_MIN then LONG_MIN else if x > LONG_MAX then LONG_MAX else x
  }

  /** isspace. */
  predicate IsSpace(c: char) {
    c == ' ' || 9 <= c as int <= 13
  }

  function SkipSpaces(s: string, i: nat): (j: nat)
    requires i <= |s|
    ensures i <= j <= |s|
    decreases |s| - i
  {
    if i < |s| && IsSpace(s[i]) then SkipSpaces(s, i + 1) else i
  }

  predicate AnyHexPrefix(s: string) {
    |s| >= 2 && s[0] == '0' && (s[1] == 'x' || s[1] == 'X')
  }

  /** Behind white space and one sign. */
  function SignEnd(text: string): (j: nat)
    ensures j <= |text|
  {
    var i := SkipSpaces(text, 0);
    if i < |text| && (text[i] == '-' || text[i] == '+') then i + 1 else i
  }

  predicate IsNegative(text: string) {
    CharAt(text, SkipSpaces(text, 0)) == '-'
  }

  lemma NoSign(text: string)
    requires text != "" && !IsSpace(text[0]) && text[0] != '-' && text[0] != '+'
    ensures SignEnd(text) == 0 && !IsNegative(text) && text[SignEnd(text)..] == text
  {
    assert text[0..] == text;
  }

  lemma MinusSign(text: string)
    requires text != "" && text[0] == '-'
    ensures SignEnd(text) == 1 && IsNegative(text)
  {
  }

  function PrefixEnd(text: string): (start: nat)
    ensures start <= |text|
  {
    if AnyHexPrefix(text) then 2 else 0
  }

  function PrefixBase(text: string): (base: nat)
    ensures 8 <= base <= 16
  {
    if AnyHexPrefix(text) then 16 else if CharAt(text, 0) == '0' then 8 else 10
  }

  /** The digits up to the first character that is none. */
  function MagnitudeOf(text: string): nat {
    DigitsValue(text[PrefixEnd(text)..DigitRun(text, PrefixBase(text), PrefixEnd(text))], PrefixBase(text))
  }

  /** strtol, whatever follows the number. */
  function LongOf(text: string): (x: int)
    ensures LONG_MIN <= x <= LONG_MAX
  {
    var m: int := MagnitudeOf(text[SignEnd(text)..]);
    Clamp(if IsNegative(text) then -m else m)
  }

  // ----- the same, said of the text

  predicate White(c: char) {
    c as int in {32, 9, 10, 11, 12, 13}
  }

  predicate FigureOf(c: char, base: nat) {
    0 <= Figure(c) < base
  }

  /** The text has white space up to `i` and one sign or none up to `j`. */
  predicate Signed(text: string, i: nat, j: nat) {
    && i <= j <= |text|
    && (forall k :: 0 <= k < i ==> White(text[k])) && (i < |text| ==> !White(text[i]))
    && j == if i < |text| && text[i] in "+-" then i + 1 else i
  }

  /** The rest has a prefix or none up to `d`, which with the first figure names the base; the figures of
      that base end at `e`. */
  predicate Spelled(rest: string, d: nat, e: nat, base: nat) {
    && d <= e <= |rest|
    && (if |rest| >= 2 && rest[0] == '0' && rest[1] in "xX" then d == 2 && base == 16
        else d == 0 && base == if rest != "" && rest[0] == '0' then 8 else 10)
    && (forall k :: d <= k < e ==> FigureOf(rest[k], base)) && (e < |rest| ==> !FigureOf(rest[e], base))
  }

  function Saturated(v: int): int {
    if v < -0x8000_0000_0000_0000 then -0x8000_0000_0000_0000 else if v > 0x7fff_ffff_ffff_ffff then 0x7fff_ffff_ffff_ffff else v
  }

  lemma {:induction false} SpacesEnd(s: string, i: nat)
    requires i <= |s|
    ensures var j := SkipSpaces(s, i); (forall k :: i <= k < j ==> White(s[k])) && (j < |s| ==> !White(s[j]))
    decreases |s| - i
  {
    if i < |s| && IsSpace(s[i]) { SpacesEnd(s, i + 1); }
  }

  lemma {:induction false} RunEnds(s: string, base: nat, i: nat)
    requires i <= |s| && base <= 16
    ensures var j := DigitRun(s, base, i); (forall k :: i <= k < j ==> FigureOf(s[k], base)) && (j < |s| ==> !FigureOf(s[j], base))
    decreases |s| - i
  {
    hide Figure;
    if i < |s| {
      FigureIs(s[i]);
      if IsXDigit(s[i]) && DigitOf(s[i]) < base { RunEnds(s, base, i + 1); }
    }
  }

  lemma MagnitudeSpelled(rest: string) returns (d: nat, e: nat, base: nat)
    ensures Spelled(rest, d, e, base) && MagnitudeOf(rest) == Positional(rest[d..e], base)
    ensures d == PrefixEnd(rest) && e == DigitRun(rest, base, d) && base == PrefixBase(rest)
  {
    base, d := PrefixBase(rest), PrefixEnd(rest);
    e := DigitRun(rest, base, d);
    RunEnds(rest, base, d);
    forall k | 0 <= k < e - d ensures IsXDigit(rest[d..e][k]) { assert rest[d..e][k] == rest[d + k]; }
    hide FigureOf, DigitRun;
    DigitsArePositional(rest[d..e], base);
  }

  lemma SignSpelled(text: string) returns (i: nat)
    ensures Signed(text, i, SignEnd(text)) && (IsNegative(text) <==> i < |text| && text[i] == '-')
  {
    i := SkipSpaces(text, 0);
    SpacesEnd(text, 0);
    hide SkipSpaces, White;
  }

  /** strtol reads any text as it is spelled, saturating. */
  lemma LongOfSpelled(text: string) returns (i: nat, j: nat, d: nat, e: nat, base: nat)
    ensures Signed(text, i, j) && Spelled(text[j..], d, e, base)
    ensures LongOf(text) == Saturated(if i < |text| && text[i] == '-' then -Positional(text[j..][d..e], base) else Positional(text[j..][d..e], base))
  {
    j := SignEnd(text);
    i := SignSpelled(text);
    d, e, base := MagnitudeSpelled(text[j..]);
    hide Signed, Spelled, MagnitudeOf, SignEnd, IsNegative, Positional;
  }
}
