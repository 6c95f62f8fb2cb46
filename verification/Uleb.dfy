/** ULEB128 decoding as `decode_uleb128` does it (`image.c`). */
module Uleb {
  import opened Arithmetic

  type Byte = x: int | 0 <= x < 256

  /** Bitwise or, bit by bit. */
  function BitOr(a: nat, b: nat): nat {
    if a == 0 && b == 0 then 0
    else (if a % 2 == 1 || b % 2 == 1 then 1 else 0) + 2 * BitOr(a / 2, b / 2)
  }

  const INT_RANGE: int := 0x8000_0000

  /** The group at `p` ends inside the data and no 7-bit part is shifted out of a C int, which would
      be undefined. */
  predicate Decodable(data: seq<Byte>, p: nat, shift: nat)
    decreases |data| - p
  {
    && p < |data| && shift < 32 && data[p] % 128 * TwoTo(shift) < INT_RANGE
    && (data[p] >= 128 ==> Decodable(data, p + 1, shift + 7))
  }

  datatype Decoded = Decoded(val: nat, next: nat)

  /** The decoding loop from byte `p` on. */
  function DecodeFrom(data: seq<Byte>, p: nat, shift: nat, val: nat): (d: Decoded)
    requires Decodable(data, p, shift)
    ensures p < d.next <= |data|
    decreases |data| - p
  {
    var val1 := BitOr(val, data[p] % 128 * TwoTo(shift));
    if data[p] < 128 then Decoded(val1, p + 1) else DecodeFrom(data, p + 1, shift + 7, val1)
  }

  function Decode(data: seq<Byte>, p: nat): Decoded
    requires Decodable(data, p, 0)
  {
    DecodeFrom(data, p, 0, 0)
  }

  /** decode_uleb128: the pointer moves past the group. */
  method DecodeUleb(data: seq<Byte>, p: nat) returns (val: nat, next: nat, len: nat)
    requires Decodable(data, p, 0)
    ensures Decode(data, p) == Decoded(val, next) && p < next <= |data| && len == next - p
  {
    hide BitOr, TwoTo;
    var shift := 0;
    val, next := 0, p;
    while true
      invariant p <= next && Decodable(data, next, shift)
      invariant DecodeFrom(data, next, shift, val) == Decode(data, p)
      decreases |data| - next
    {
      var byte := data[next];
      next := next + 1;
      val := BitOr(val, byte % 128 * TwoTo(shift));
      shift := shift + 7;
      if byte < 128 { break; }
    }
    len := next - p;
  }

  // ----- what a group of bytes encodes (section 7.6 of DWARF version 4)

  function GroupValue(g: seq<Byte>): nat {
    if g == [] then 0 else g[0] % 128 + 128 * GroupValue(g[1..])
  }

  /** All bytes but the last are marked; redundant trailing zero bits are allowed. */
  predicate IsGroup(g: seq<Byte>) {
    g != [] && g[|g| - 1] < 128 && forall k :: 0 <= k < |g| - 1 ==> g[k] >= 128
  }

  /** Groups of up to five bytes for values below 2^31. */
  predicate Fits(g: seq<Byte>) {
    |g| <= 5 && GroupValue(g) < INT_RANGE
  }

  function Encode(n: nat): (g: seq<Byte>) {
    if n < 128 then [n] else [n % 128 + 128] + Encode(n / 128)
  }

  lemma {:induction false} OrAdds(v: nat, x: nat, k: nat)
    requires v < TwoTo(k)
    ensures BitOr(v, x * TwoTo(k)) == v + x * TwoTo(k)
  {
    if k == 0 {
      OrZero(x);
    } else {
      var y := x * TwoTo(k - 1);
      assert x * TwoTo(k) == 2 * y;
      OrAdds(v / 2, x, k - 1);
      assert BitOr(v / 2, y) == v / 2 + y;
      if v != 0 || y != 0 {
        assert (2 * y) / 2 == y && (2 * y) % 2 == 0;
        assert BitOr(v, 2 * y) == v % 2 + 2 * BitOr(v / 2, y);
      }
    }
  }

  lemma {:induction false} OrZero(x: nat)
    ensures BitOr(0, x) == x
  {
    if x != 0 { OrZero(x / 2); }
  }

  lemma TwoToStep(k: nat)
    ensures TwoTo(k + 7) == 128 * TwoTo(k)
  {
    assert TwoTo(k + 7) == 2 * TwoTo(k + 6) == 4 * TwoTo(k + 5) == 8 * TwoTo(k + 4);
    assert TwoTo(k + 4) == 2 * TwoTo(k + 3) == 4 * TwoTo(k + 2) == 8 * TwoTo(k + 1) == 16 * TwoTo(k);
  }

  predicate StandsAt(data: seq<Byte>, p: nat, g: seq<Byte>) {
    p + |g| <= |data| && data[p..p + |g|] == g
  }

  /** One part of a group: the arithmetic of `val |= part << shift`. */
  lemma PartAdds(val: nat, x: nat, rest: nat, k: nat)
    requires val < TwoTo(k) && x < 128 && val + (x + 128 * rest) * TwoTo(k) < INT_RANGE
    ensures x * TwoTo(k) < INT_RANGE
    ensures var v := BitOr(val, x * TwoTo(k));
      && v < TwoTo(k + 7)
      && v + rest * TwoTo(k + 7) == val + (x + 128 * rest) * TwoTo(k)
  {
    hide BitOr, TwoTo;
    OrAdds(val, x, k);
    TwoToStep(k);
    PartArithmetic(val, x, rest, TwoTo(k));
  }

  lemma PartArithmetic(val: nat, x: nat, rest: nat, m: nat)
    requires val < m && x < 128
    ensures x * m <= (x + 128 * rest) * m && val + x * m < 128 * m
    ensures val + x * m + rest * (128 * m) == val + (x + 128 * rest) * m
  {
    assert (x + 128 * rest) * m == x * m + 128 * rest * m;
    assert rest * m >= 0 && 128 * rest * m == 128 * (rest * m) == rest * (128 * m);
    assert x * m <= 127 * m;
  }

  lemma {:induction false} DecodeGroupFrom(data: seq<Byte>, p: nat, g: seq<Byte>, shift: nat, val: nat)
    requires IsGroup(g) && StandsAt(data, p, g)
    requires shift + 7 * (|g| - 1) < 32 && val < TwoTo(shift) && val + GroupValue(g) * TwoTo(shift) < INT_RANGE
    ensures Decodable(data, p, shift)
    ensures DecodeFrom(data, p, shift, val) == Decoded(val + GroupValue(g) * TwoTo(shift), p + |g|)
    decreases |g|
  {
    hide BitOr, TwoTo;
    assert data[p] == data[p..p + |g|][0] == g[0];
    PartAdds(val, g[0] % 128, GroupValue(g[1..]), shift);
    if |g| > 1 {
      assert data[p + 1..p + |g|] == g[1..];
      DecodeGroupFrom(data, p + 1, g[1..], shift + 7, BitOr(val, g[0] % 128 * TwoTo(shift)));
    } else {
      assert GroupValue(g[1..]) == 0;
      assert 0 * TwoTo(shift + 7) == 0;
    }
  }

  /** Decoding a group returns its value and consumes exactly its bytes. */
  lemma DecodeGroup(data: seq<Byte>, p: nat, g: seq<Byte>)
    requires IsGroup(g) && Fits(g) && StandsAt(data, p, g)
    ensures Decodable(data, p, 0) && Decode(data, p) == Decoded(GroupValue(g), p + |g|)
  {
    assert TwoTo(0) == 1;
    DecodeGroupFrom(data, p, g, 0, 0);
  }

  /** The canonical encoding is such a group. */
  lemma Shorter(n: nat, k: nat)
    requires n >= 128 && k > 0 && n < TwoTo(7 * k)
    ensures k > 1 && n / 128 < TwoTo(7 * (k - 1))
  {
    assert 7 * k == 7 * (k - 1) + 7;
    TwoToStep(7 * (k - 1));
    assert TwoTo(0) == 1;
  }

  lemma {:induction false} EncodeIsGroup(n: nat)
    ensures IsGroup(Encode(n)) && GroupValue(Encode(n)) == n
    ensures forall k: nat :: n < TwoTo(7 * k) && k > 0 ==> |Encode(n)| <= k
  {
    if n >= 128 {
      var rest := Encode(n / 128);
      EncodeIsGroup(n / 128);
      assert Encode(n) == [n % 128 + 128] + rest && Encode(n)[1..] == rest;
      hide Encode;
      forall k: nat | n < TwoTo(7 * k) && k > 0 ensures k > 1 && n / 128 < TwoTo(7 * (k - 1)) { Shorter(n, k); }
    } else {
      assert Encode(n)[1..] == [];
    }
  }

  /** Round trip: every delta below 2^31 decodes from its encoding. */
  lemma DecodeEncode(data: seq<Byte>, p: nat, n: nat)
    requires n < INT_RANGE && StandsAt(data, p, Encode(n))
    ensures Decodable(data, p, 0) && Decode(data, p) == Decoded(n, p + |Encode(n)|)
  {
    EncodeIsGroup(n);
    assert n < TwoTo(7 * 5) by {
      TwoToStep(0); TwoToStep(7); TwoToStep(14); TwoToStep(21); TwoToStep(28);
      assert TwoTo(0) == 1;
    }
    DecodeGroup(data, p, Encode(n));
  }
}
