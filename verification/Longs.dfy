/** C longs: 64 bits, two's complement. */
module Longs {
  import opened Arithmetic

  datatype Option<+T> = None | Some(value: T)

  const TWO_63: int := 0x8000_0000_0000_0000
  const LONG_MIN: int := -TWO_63
  const LONG_MAX: int := TWO_63 - 1

  /** Two's-complement wrap-around to a long. */
  function Wrap(x: int): (w: int)
    ensures LONG_MIN <= w <= LONG_MAX
    ensures LONG_MIN <= x <= LONG_MAX ==> w == x
  {
    (x + TWO_63) % (2 * TWO_63) - TWO_63
  }

  /** C division truncates toward zero. */
  function TruncDiv(a: int, b: int): int
    requires b != 0
  {
    if a >= 0 then a / b else -((-a) / b)
  }

  lemma WrapBecomes(x: int)
    ensures Becomes(x, Wrap(x))
  {
  }

  lemma EuclidIs(m: nat, b: int)
    requires b != 0
    ensures Quotient(m, b, m / b, m % b)
  {
  }

  lemma RestIs(a: int, b: int, q: int, r: int)
    requires Quotient(a, b, q, r)
    ensures r == a - b * q
  {
  }

  lemma TruncDivIs(a: int, b: int)
    requires b != 0
    ensures Quotient(a, b, TruncDiv(a, b), a - b * TruncDiv(a, b))
  {
    hide Quotient;
    if a >= 0 {
      EuclidIs(a, b);
      RestIs(a, b, a / b, a % b);
    } else {
      EuclidIs(-a, b);
      QuotientNegated(-a, b, -a / b, -a % b);
      RestIs(a, b, -(-a / b), -(-a % b));
    }
  }
}
