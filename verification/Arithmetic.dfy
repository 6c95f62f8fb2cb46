/** What 64-bit arithmetic means, said of integers and bits: the reference that the evaluators are
    compared with. */
module Arithmetic {
  predicate IsLong(x: int) {
    -0x8000_0000_0000_0000 <= x <= 0x7fff_ffff_ffff_ffff
  }

  /** `v` is the long that the integer `x` becomes: `x` itself if it is a long, else the one that
      differs from it by a multiple of 2^64. */
  predicate Becomes(x: int, v: int) {
    IsLong(v) && (v - x) % 0x1_0000_0000_0000_0000 == 0
  }

  lemma BecomesItself(x: int, v: int)
    requires IsLong(x)
    ensures Becomes(x, v) <==> v == x
  {
  }

  lemma BecomesOne(x: int, v: int, w: int)
    requires Becomes(x, v) && Becomes(x, w)
    ensures v == w
  {
  }

  /** Division toward zero: `q` times the divisor and a rest of the dividend's sign. */
  predicate Quotient(a: int, b: int, q: int, r: int) {
    && a == q * b + r && -Size(b) < r < Size(b)
    && (r > 0 ==> a > 0) && (r < 0 ==> a < 0)
  }

  function Size(x: int): int {
    if x < 0 then -x else x
  }

  lemma QuotientOne(a: int, b: int, q: int, r: int, q1: int, r1: int)
    requires Quotient(a, b, q, r) && Quotient(a, b, q1, r1)
    ensures q == q1 && r == r1
  {
    var d := q - q1;
    assert d * b == q * b - q1 * b == r1 - r;
    if d != 0 { TimesSize(d, b); }
  }

  lemma TimesSize(d: int, b: int)
    requires d != 0
    ensures d * b >= Size(b) || d * b <= -Size(b)
  {
    if d >= 1 { assert d * b == b + (d - 1) * b; Signs(d - 1, b); }
    else { assert d * b == -b + (d + 1) * b; Signs(-d - 1, b); assert (d + 1) * b == -((-d - 1) * b); }
  }

  lemma Signs(k: nat, b: int)
    ensures b >= 0 ==> k * b >= 0
    ensures b <= 0 ==> k * b <= 0
  {
  }

  lemma QuotientNegated(a: int, b: int, q: int, r: int)
    requires Quotient(a, b, q, r)
    ensures Quotient(-a, b, -q, -r)
  {
    assert (-q) * b == -(q * b);
  }

  // ----- bits

  function TwoTo(n: nat): (p: nat)
    ensures p > 0
  {
    if n == 0 then 1 else 2 * TwoTo(n - 1)
  }

  /** Bit `i` of an integer in two's complement. */
  predicate Bit(x: int, i: nat) {
    x / TwoTo(i) % 2 == 1
  }

  lemma BitNext(x: int, i: nat)
    requires i > 0
    ensures Bit(x, i) == Bit(x / 2, i - 1)
  {
    DivTwice(x, TwoTo(i - 1));
  }

  lemma DivTwice(x: int, p: nat)
    requires p > 0
    ensures x / (2 * p) == x / 2 / p
  {
    var h, b := x / 2, x % 2;
    var q, r := h / p, h % p;
    assert x == 2 * h + b && h == q * p + r;
    assert x == q * (2 * p) + (2 * r + b);
    DivUnique(x, 2 * p, q, 2 * r + b);
  }

  lemma DivUnique(x: int, p: nat, q: int, r: int)
    requires p > 0 && x == q * p + r && 0 <= r < p
    ensures x / p == q && x % p == r
  {
    var q1, r1 := x / p, x % p;
    assert (q1 - q) * p == q1 * p - q * p == r - r1;
    if q1 != q { TimesSize(q1 - q, p); }
  }
}
