/** Printing a 128-bit vector register as a list of bytes and reading such a list back (`reg.c`). */
module VectorReg {
  import opened ExprMachine
  import opened ExprSub
  import opened Strtol

  const LONG_BYTES: nat := 8
  const ULONG_MAX: nat := 0xffff_ffff_ffff_ffff

  /** A register as the two longs that make it up in memory. */
  datatype Quad = Quad(lower: nat, upper: nat) {
    predicate Valid() { lower <= ULONG_MAX && upper <= ULONG_MAX }
  }

  // ----- printing

  /** The bytes of a long as they lie in memory, least significant first. */
  function BytesOf(x: nat, n: nat): (bytes: seq<nat>)
    ensures |bytes| == n && forall i :: 0 <= i < n ==> bytes[i] < 256
  {
    if n == 0 then [] else [x % 256] + BytesOf(x / 256, n - 1)
  }

  /** "%02x". */
  function Pad2(b: nat): (s: string)
    ensures AllXDigits(s)
  {
    if b < 16 then ['0', HexDigit(b)] else HexText(b)
  }

  function ByteText(b: nat): string { "0x" + Pad2(b) }

  /** Tokens separated by single blanks. */
  function Joined(bytes: seq<nat>): string {
    if bytes == [] then ""
    else if |bytes| == 1 then ByteText(bytes[0])
    else Joined(bytes[..|bytes| - 1]) + " " + ByteText(bytes[|bytes| - 1])
  }

  /** The brace text of the quadword branch of regtoa: both longs, byte by byte. */
  function Printed(q: Quad): string {
    "{" + Joined(BytesOf(q.lower, LONG_BYTES) + BytesOf(q.upper, LONG_BYTES)) + "}"
  }

  /** What is printed for a byte. */
  lemma ByteTextIs(b: nat)
    requires b < 256
    ensures ByteText(b) == "0x" + ["0123456789abcdef"[b / 16], "0123456789abcdef"[b % 16]]
  {
    DigitLower(b / 16);
    DigitLower(b % 16);
    PadTwoDigits(b);
  }

  // ----- reading

  /** strrchr(value, ' '); |s| if there is none. */
  function LastBlank(s: string, n: nat): (i: nat)
    requires n <= |s|
    ensures i < n || i == |s|
    ensures i < n ==> s[i] == ' '
  {
    if n == 0 then |s| else if s[n - 1] == ' ' then n - 1 else LastBlank(s, n - 1)
  }

  /** The last token, and the text without it; a text without blanks stays. */
  function LastToken(value: string): string {
    var p := LastBlank(value, |value|);
    if p < |value| then value[p + 1..] else value
  }

  function WithoutLast(value: string): string {
    var p := LastBlank(value, |value|);
    if p < |value| then value[..p] else value
  }

  /** The byte loop: `n` values, last token first, converted to unsigned ints. */
  function ReadBytes(value: string, n: nat): (bytes: seq<nat>)
    ensures |bytes| == n
    decreases n
  {
    if n == 0 then [] else [LongOf(LastToken(value)) % 0x1_0000_0000] + ReadBytes(WithoutLast(value), n - 1)
  }

  function HexOfAll(bytes: seq<nat>): (s: string)
    ensures AllXDigits(s)
  {
    if bytes == [] then "" else HexOfAll(bytes[..|bytes| - 1]) + Pad2(bytes[|bytes| - 1])
  }

  /** strtoul saturates. */
  function Ulong(digits: string): nat
    requires AllXDigits(digits)
  {
    var v := DigitsValue(digits, 16);
    if v > ULONG_MAX then ULONG_MAX else v
  }

  datatype SetResult = BadValue | NewValue(q: Quad)

  /** The quadword branch of setreg. The bytes read first form what the code calls the low half; it is
      stored in the upper long. */
  function SetQuad(value: string): SetResult {
    if |value| < 3 || value[0] != '{' || value[|value| - 1] != '}' then BadValue
    else
      var bytes := ReadBytes(value[1..|value| - 1], 2 * LONG_BYTES);
      NewValue(Quad(Ulong(HexOfAll(bytes[LONG_BYTES..])), Ulong(HexOfAll(bytes[..LONG_BYTES]))))
  }

  // ----- values of byte lists

  function Pow256(n: nat): (r: nat)
    ensures r > 0
  {
    if n == 0 then 1 else 256 * Pow256(n - 1)
  }

  /** Most significant byte first. */
  function BigValue(bytes: seq<nat>): nat {
    if bytes == [] then 0 else BigValue(bytes[..|bytes| - 1]) * 256 + bytes[|bytes| - 1]
  }

  predicate AllBytes(bytes: seq<nat>) {
    forall i :: 0 <= i < |bytes| ==> bytes[i] < 256
  }

  lemma {:induction false} BigValueFits(bytes: seq<nat>)
    requires AllBytes(bytes)
    ensures BigValue(bytes) < Pow256(|bytes|)
  {
    if bytes != [] { BigValueFits(bytes[..|bytes| - 1]); }
  }

  lemma Pad2Value(b: nat, s: string)
    requires b < 256 && AllXDigits(s)
    ensures |Pad2(b)| == 2 && DigitsValue(s + Pad2(b), 16) == DigitsValue(s, 16) * 256 + b
  {
    hide HexText;
    var d1, d0 := HexDigit(b / 16), HexDigit(b % 16);
    PadTwoDigits(b);
    var t := s + Pad2(b);
    assert t[..|t| - 1] == s + [d1] && t[|t| - 1] == d0;
    assert (s + [d1])[..|s|] == s;
    assert DigitsValue(s + [d1], 16) == DigitsValue(s, 16) * 16 + b / 16;
  }

  lemma PadTwoDigits(b: nat)
    requires b < 256
    ensures Pad2(b) == [HexDigit(b / 16), HexDigit(b % 16)]
  {
    if b >= 16 { assert HexText(b / 16) == [HexDigit(b / 16)]; }
  }

  lemma {:induction false} HexOfAllValue(bytes: seq<nat>)
    requires AllBytes(bytes)
    ensures DigitsValue(HexOfAll(bytes), 16) == BigValue(bytes)
  {
    hide Pad2;
    if bytes != [] {
      HexOfAllValue(bytes[..|bytes| - 1]);
      Pad2Value(bytes[|bytes| - 1], HexOfAll(bytes[..|bytes| - 1]));
    }
  }

  lemma EightBytes(bytes: seq<nat>)
    requires AllBytes(bytes) && |bytes| == LONG_BYTES
    ensures Ulong(HexOfAll(bytes)) == BigValue(bytes)
  {
    HexOfAllValue(bytes);
    BigValueFits(bytes);
    assert Pow256(8) == 256 * Pow256(7) == 0x1_0000 * Pow256(6) == 0x100_0000 * Pow256(5) == 0x1_0000_0000 * Pow256(4);
    assert Pow256(4) == 256 * Pow256(3) == 0x1_0000 * Pow256(2) == 0x100_0000 * Pow256(1) == 0x1_0000_0000 * Pow256(0);
  }

  // ----- what the byte loop reads

  lemma {:induction false} LastBlankAt(s: string, n: nat, p: nat)
    requires n <= |s| && (p < n || p == |s|)
    requires p < n ==> s[p] == ' ' && forall k :: p < k < n ==> s[k] != ' '
    requires p == |s| ==> forall k :: 0 <= k < n ==> s[k] != ' '
    ensures LastBlank(s, n) == p
  {
    if n > 0 && s[n - 1] != ' ' { LastBlankAt(s, n - 1, p); }
  }

  lemma ByteTokenReads(b: nat)
    requires b < 256
    ensures |ByteText(b)| == 4 && (forall k :: 0 <= k < 4 ==> ByteText(b)[k] != ' ') && LongOf(ByteText(b)) == b
  {
    PadTwoDigits(b);
    Pad2Value(b, "");
    assert DigitsValue("", 16) == 0 && "" + Pad2(b) == Pad2(b);
    var t := ByteText(b);
    assert t[2..4] == Pad2(b);
    assert DigitRun(t, 16, 4) == 4 && DigitRun(t, 16, 3) == 4 && DigitRun(t, 16, 2) == 4;
    assert MagnitudeOf(t) == b && t[0] == '0';
    hide ByteText, Pad2, MagnitudeOf, SignEnd, IsNegative;
    NoSign(t);
  }

  /** A token without blanks is cut off at the blank before it. */
  lemma CutLast(rest: string, tok: string)
    requires forall k :: 0 <= k < |tok| ==> tok[k] != ' '
    ensures LastToken(rest + " " + tok) == tok && WithoutLast(rest + " " + tok) == rest
    ensures LastToken(tok) == tok && WithoutLast(tok) == tok
  {
    hide LastBlank;
    var s, p := rest + " " + tok, |rest|;
    forall k | p < k < |s| ensures s[k] != ' ' { assert s[k] == tok[k - p - 1]; }
    LastBlankAt(s, |s|, p);
    LastBlankAt(tok, |tok|, |tok|);
  }

  lemma LastOfJoined(bytes: seq<nat>)
    requires AllBytes(bytes) && bytes != []
    ensures LastToken(Joined(bytes)) == ByteText(bytes[|bytes| - 1])
    ensures WithoutLast(Joined(bytes)) == if |bytes| == 1 then Joined(bytes) else Joined(bytes[..|bytes| - 1])
  {
    hide ByteText, LastToken, WithoutLast;
    ByteTokenReads(bytes[|bytes| - 1]);
    CutLast(Joined(bytes[..|bytes| - 1]), ByteText(bytes[|bytes| - 1]));
  }

  /** The `i`-th value read is the `i`-th from the end; when the tokens run out the first repeats. */
  function Picked(bytes: seq<nat>, n: nat): (r: seq<nat>)
    requires bytes != []
    ensures |r| == n && forall i :: 0 <= i < n ==> r[i] == bytes[if i < |bytes| then |bytes| - 1 - i else 0]
    decreases n
  {
    if n == 0 then []
    else [bytes[|bytes| - 1]] + Picked(if |bytes| == 1 then bytes else bytes[..|bytes| - 1], n - 1)
  }

  lemma {:induction false} ReadJoined(bytes: seq<nat>, n: nat)
    requires AllBytes(bytes) && bytes != []
    ensures ReadBytes(Joined(bytes), n) == Picked(bytes, n)
    decreases n
  {
    hide Joined, LastToken, WithoutLast, LongOf;
    if n > 0 {
      LastOfJoined(bytes);
      ByteTokenReads(bytes[|bytes| - 1]);
      ReadJoined(if |bytes| == 1 then bytes else bytes[..|bytes| - 1], n - 1);
    }
  }

  /** Reading any list of byte tokens: the last sixteen count, last one most significant, and a
      shorter list is filled up with its first. */
  lemma SetReadsBytes(bytes: seq<nat>)
    requires AllBytes(bytes) && bytes != []
    ensures var p := Picked(bytes, 2 * LONG_BYTES);
      SetQuad("{" + Joined(bytes) + "}") == NewValue(Quad(BigValue(p[LONG_BYTES..]), BigValue(p[..LONG_BYTES])))
  {
    hide Joined, ReadBytes, HexOfAll, BigValue, Ulong;
    var value := "{" + Joined(bytes) + "}";
    var p := Picked(bytes, 2 * LONG_BYTES);
    assert value[1..|value| - 1] == Joined(bytes);
    JoinedNotEmpty(bytes);
    ReadJoined(bytes, 2 * LONG_BYTES);
    EightBytes(p[LONG_BYTES..]);
    EightBytes(p[..LONG_BYTES]);
  }

  lemma JoinedNotEmpty(bytes: seq<nat>)
    requires bytes != []
    ensures |Joined(bytes)| > 0
  {
  }

  // ----- the round trip

  lemma {:induction false} BigValueOfBytes(x: nat, n: nat, p: seq<nat>)
    requires x < Pow256(n) && |p| == n && forall i :: 0 <= i < n ==> p[i] == BytesOf(x, n)[n - 1 - i]
    ensures BigValue(p) == x
    decreases n
  {
    if n > 0 {
      var b := BytesOf(x, n);
      assert x / 256 < Pow256(n - 1);
      var p1 := p[..n - 1];
      forall i | 0 <= i < n - 1 ensures p1[i] == BytesOf(x / 256, n - 1)[n - 2 - i] {
        assert b[n - 1 - i] == BytesOf(x / 256, n - 1)[n - 2 - i];
      }
      BigValueOfBytes(x / 256, n - 1, p1);
      assert p[n - 1] == b[0] == x % 256;
    }
  }

  lemma LongFits(x: nat)
    requires x <= ULONG_MAX
    ensures x < Pow256(LONG_BYTES)
  {
    assert Pow256(8) == 256 * Pow256(7) == 0x1_0000 * Pow256(6) == 0x100_0000 * Pow256(5) == 0x1_0000_0000 * Pow256(4);
    assert Pow256(4) == 256 * Pow256(3) == 0x1_0000 * Pow256(2) == 0x100_0000 * Pow256(1) == 0x1_0000_0000 * Pow256(0);
  }

  /** For every 128-bit value: setting a register to the text printed for it restores the value. */
  lemma SetPrintedRestores(q: Quad)
    requires q.Valid()
    ensures SetQuad(Printed(q)) == NewValue(q)
  {
    hide SetQuad, Joined, BigValue;
    var lower, upper := BytesOf(q.lower, LONG_BYTES), BytesOf(q.upper, LONG_BYTES);
    var bytes := lower + upper;
    SetReadsBytes(bytes);
    var p := Picked(bytes, 2 * LONG_BYTES);
    LongFits(q.lower);
    LongFits(q.upper);
    BigValueOfBytes(q.lower, LONG_BYTES, p[LONG_BYTES..]);
    BigValueOfBytes(q.upper, LONG_BYTES, p[..LONG_BYTES]);
  }

  // ----- the loops

  /** A byte loop of regtoa: the first `n` bytes of a long, each followed by a blank. */
  method AppendBytes(text: string, x: nat, n: nat) returns (out: string, rest: nat)
    requires n <= LONG_BYTES
    ensures out == text + Spaced(BytesOf(x, LONG_BYTES)[..n])
    ensures BytesOf(rest, LONG_BYTES - n) == BytesOf(x, LONG_BYTES)[n..]
  {
    hide ByteText, Spaced, BytesOf;
    ghost var all := BytesOf(x, LONG_BYTES);
    out, rest := text, x;
    SpacedNone(all);
    var i := 0;
    while i < n
      invariant i <= n && BytesOf(rest, LONG_BYTES - i) == all[i..]
      invariant out == text + Spaced(all[..i])
    {
      BytesStep(rest, LONG_BYTES - i);
      assert all[i] == all[i..][0] == rest % 256 && all[i..][1..] == all[i + 1..];
      SpacedSnoc(all, i);
      out := out + ByteText(rest % 256) + " ";
      rest := rest / 256;
      i := i + 1;
    }
  }

  /** The quadword branch of regtoa; the last byte is followed by the brace. */
  method PrintQuad(q: Quad) returns (text: string)
    ensures text == Printed(q)
  {
    hide ByteText, BytesOf, Spaced, Joined;
    ghost var lower, upper := BytesOf(q.lower, LONG_BYTES), BytesOf(q.upper, LONG_BYTES);
    var rest;
    text, rest := AppendBytes("{", q.lower, LONG_BYTES);
    assert lower[..LONG_BYTES] == lower;
    text, rest := AppendBytes(text, q.upper, LONG_BYTES - 1);
    assert upper[LONG_BYTES - 1..][0] == upper[LONG_BYTES - 1];
    OneByte(rest);
    SpacedAppend(lower, upper[..LONG_BYTES - 1]);
    assert (lower + upper)[..2 * LONG_BYTES - 1] == lower + upper[..LONG_BYTES - 1];
    SpacedJoined(lower + upper);
    text := text + ByteText(rest % 256) + "}";
  }

  lemma BytesStep(x: nat, n: nat)
    requires n > 0
    ensures BytesOf(x, n)[0] == x % 256 && BytesOf(x, n)[1..] == BytesOf(x / 256, n - 1)
  {
  }

  lemma OneByte(x: nat)
    ensures BytesOf(x, 1) == [x % 256]
  {
    assert BytesOf(x / 256, 0) == [];
  }

  lemma {:induction false} SpacedAppend(a: seq<nat>, b: seq<nat>)
    ensures Spaced(a + b) == Spaced(a) + Spaced(b)
    decreases |b|
  {
    hide ByteText;
    if b == [] {
      assert a + b == a;
    } else {
      SpacedAppend(a, b[..|b| - 1]);
      assert (a + b)[..|a + b| - 1] == a + b[..|b| - 1];
    }
  }

  /** Tokens, each followed by a blank. */
  ghost function Spaced(bytes: seq<nat>): string {
    if bytes == [] then "" else Spaced(bytes[..|bytes| - 1]) + ByteText(bytes[|bytes| - 1]) + " "
  }

  lemma SpacedNone(bytes: seq<nat>)
    ensures Spaced(bytes[..0]) == ""
  {
  }

  lemma SpacedSnoc(bytes: seq<nat>, i: nat)
    requires i < |bytes|
    ensures Spaced(bytes[..i + 1]) == Spaced(bytes[..i]) + ByteText(bytes[i]) + " "
  {
    assert bytes[..i + 1][..i] == bytes[..i];
  }

  lemma {:induction false} SpacedJoined(bytes: seq<nat>)
    requires bytes != []
    ensures Joined(bytes) == Spaced(bytes[..|bytes| - 1]) + ByteText(bytes[|bytes| - 1])
  {
    if |bytes| > 1 {
      var front := bytes[..|bytes| - 1];
      SpacedJoined(front);
      SpacedSnoc(bytes, |bytes| - 2);
      assert bytes[..|bytes| - 2] == front[..|front| - 1];
    }
  }

  /** setreg's token loop: the text is cut at its last blank in every round. */
  method ReadTokens(text: string) returns (lo: string, hi: string)
    ensures var bytes := ReadBytes(text, 2 * LONG_BYTES);
      lo == HexOfAll(bytes[..LONG_BYTES]) && hi == HexOfAll(bytes[LONG_BYTES..])
  {
    hide LastToken, WithoutLast, LongOf, Pad2, HexOfAll;
    ghost var bytes := ReadBytes(text, 2 * LONG_BYTES);
    var value := text;
    lo, hi := "", "";
    HexOfNone();
    assert bytes[..0] == [] && bytes[LONG_BYTES..LONG_BYTES] == [];
    var i := 0;
    while i < 2 * LONG_BYTES
      invariant i <= 2 * LONG_BYTES && ReadBytes(value, 2 * LONG_BYTES - i) == bytes[i..]
      invariant lo == HexOfAll(bytes[..if i < LONG_BYTES then i else LONG_BYTES])
      invariant hi == HexOfAll(bytes[LONG_BYTES..if i < LONG_BYTES then LONG_BYTES else i])
    {
      var byte := LongOf(LastToken(value)) % 0x1_0000_0000;
      value := WithoutLast(value);
      ReadStep(bytes, i, byte);
      if i < LONG_BYTES { lo := lo + Pad2(byte); } else { hi := hi + Pad2(byte); }
      i := i + 1;
    }
    assert bytes[LONG_BYTES..2 * LONG_BYTES] == bytes[LONG_BYTES..];
  }

  lemma HexOfNone()
    ensures HexOfAll([]) == ""
  {
  }

  lemma ReadStep(bytes: seq<nat>, i: nat, byte: nat)
    requires i < |bytes| == 2 * LONG_BYTES && bytes[i..][0] == byte
    ensures bytes[i..][1..] == bytes[i + 1..]
    ensures i < LONG_BYTES ==> HexOfAll(bytes[..i + 1]) == HexOfAll(bytes[..i]) + Pad2(byte)
    ensures i >= LONG_BYTES ==> HexOfAll(bytes[LONG_BYTES..i + 1]) == HexOfAll(bytes[LONG_BYTES..i]) + Pad2(byte)
  {
    hide Pad2;
    assert bytes[..i + 1][..i] == bytes[..i];
    if i >= LONG_BYTES {
      var part := bytes[LONG_BYTES..i + 1];
      assert part[..|part| - 1] == bytes[LONG_BYTES..i] && part[|part| - 1] == bytes[i] == bytes[i..][0];
    }
  }

  /** setreg on vector register `which` of a thread. */
  method SetVector(v: array<Quad>, which: nat, value: string) returns (failed: bool)
    requires which < v.Length
    modifies v
    ensures match SetQuad(value)
      case BadValue => failed && v[..] == old(v[..])
      case NewValue(q) => !failed && v[..] == old(v[..])[which := q]
  {
    hide Ulong, ReadBytes, HexOfAll;
    if |value| == 0 || value[0] != '{' || value[|value| - 1] != '}' { return true; }
    if |value| == 2 { return true; }
    var lo, hi := ReadTokens(value[1..|value| - 1]);
    v[which] := Quad(Ulong(hi), Ulong(lo));
    failed := false;
  }
}
