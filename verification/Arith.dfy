/** Integer arithmetic the solver is led through one step at a time. */
module Arith {

  function Max(a: int, b: int): int { if a < b then b else a }

  function Min(a: int, b: int): int { if a < b then a else b }

  function Abs(a: int): nat { if a < 0 then -a else a }

  /** Go's division, toward zero. */
  function Quo(a: int, b: nat): int
    requires b > 0
  {
    if a >= 0 then a / b else -((-a) / b)
  }

  function Pow2(n: nat): (p: nat)
    ensures p >= 1
  {
    if n == 0 then 1 else 2 * Pow2(n - 1)
  }

  const MAX_INT64: int := 0x7FFF_FFFF_FFFF_FFFF

  lemma MulLe(a: int, b: int, g: int)
    requires a <= b && g >= 0
    ensures a * g <= b * g
  {
  }

  lemma MulLt(a: int, b: int, g: int)
    requires a < b && g >= 1
    ensures a * g + g <= b * g
  {
    MulLe(a + 1, b, g);
  }

  lemma MulPos(a: int, b: int)
    requires a >= 0 && b >= 0
    ensures a * b >= 0
  {
  }

  lemma MulMul(a: int, b: int, c: int)
    ensures a * b * c == a * (b * c) == (a * c) * b
  {
  }

  lemma MulRotate(a: int, b: int, c: int)
    ensures a * b * c == (c * b) * a
  {
  }

  lemma Distribute(a: int, b: int, g: int)
    ensures (a + b) * g == a * g + b * g
    ensures (a - b) * g == a * g - b * g
  {
  }

  lemma DivBounds(a: int, d: int)
    requires d > 0
    ensures (a / d) * d <= a < (a / d) * d + d
  {
    assert a == d * (a / d) + a % d;
  }

  lemma DivGe(a: int, q: int, d: int)
    requires d > 0 && a >= q * d
    ensures a / d >= q
  {
    DivBounds(a, d);
    NotBelow(a / d, q, d, a);
  }

  lemma NotBelow(x: int, q: int, d: int, a: int)
    requires d > 0 && a < x * d + d && a >= q * d
    ensures x >= q
  {
    Distribute(q, x, d);
    var e := q - x;
    assert e * d < d;
    assert e >= 1 ==> e * d >= d;
  }

  lemma DivLe(a: int, q: int, d: int)
    requires d > 0 && a <= q * d
    ensures a / d <= q
  {
    DivBounds(a, d);
    NotBelow(q, a / d, d, q * d);
  }

  lemma DivLt(a: int, q: int, d: int)
    requires d > 0 && a < q * d
    ensures a / d < q
  {
    DivBounds(a, d);
    NotBelow(q - 1, a / d, d, q * d - 1);
  }

  lemma DivExact(q: int, d: int)
    requires d > 0
    ensures q * d / d == q
  {
    DivGe(q * d, q, d);
    DivLe(q * d, q, d);
  }

  /** Quotients of values at least a divisor apart differ. */
  lemma DivStep(a: int, b: int, d: int)
    requires d > 0 && b >= a + d
    ensures a / d < b / d
  {
    DivBounds(a, d);
    assert (a / d + 1) * d == (a / d) * d + d;
    DivGe(b, a / d + 1, d);
  }
}
