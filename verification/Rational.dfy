/** Bounded reduction of a ratio (mkv/model.go, gcd and avReduce): aspect ratios in lowest terms, or their best
    approximation with both parts at most max. */
module Rational {
  import opened Arith

  /** Go's uint64: every operation on it is checked to stay in range, so nothing below wraps around. */
  newtype uint64 = x: int | 0 <= x <= 0xFFFF_FFFF_FFFF_FFFF

  ghost predicate Divides(d: int, n: int) {
    exists k :: n == k * d
  }

  ghost predicate Coprime(a: int, b: int) {
    forall d :: d >= 1 && Divides(d, a) && Divides(d, b) ==> d == 1
  }

  lemma DividesCombination(d: int, a: int, b: int, q: int)
    requires Divides(d, a) && Divides(d, b)
    ensures Divides(d, a + q * b)
  {
    var i, j :| a == i * d && b == j * d;
    assert a + q * b == (i + q * j) * d;
  }

  /** g is the greatest common divisor in the divisibility sense, 1 for the pair of zeros. */
  ghost predicate IsGcd(g: int, a: int, b: int) {
    && g >= 1
    && (a == 0 && b == 0 ==> g == 1)
    && (a != 0 || b != 0 ==> Divides(g, a) && Divides(g, b) && forall d :: d >= 1 && Divides(d, a) && Divides(d, b) ==> Divides(d, g))
  }

  /** The pairs a, b and x, y have the same common divisors. */
  ghost predicate SameCommon(a: int, b: int, x: int, y: int) {
    forall d :: d >= 1 ==> (Divides(d, x) && Divides(d, y) <==> Divides(d, a) && Divides(d, b))
  }

  method Gcd(a: uint64, b: uint64) returns (g: uint64)
    ensures IsGcd(g as int, a as int, b as int)
  {
    var x, y := a, b;
    while y != 0
      invariant x == 0 && y == 0 <==> a == 0 && b == 0
      invariant SameCommon(a as int, b as int, x as int, y as int)
      decreases y
    {
      RemainderKeepsDivisors(x as int, y as int);
      x, y := y, x % y;
    }
    if x == 0 {
      return 1;
    }
    LastIsGcd(a as int, b as int, x as int);
    g := x;
  }

  lemma LastIsGcd(a: int, b: int, x: int)
    requires SameCommon(a, b, x, 0) && x >= 1 && (a != 0 || b != 0)
    ensures IsGcd(x, a, b)
  {
    assert Divides(x, x) by { assert x == 1 * x; }
    assert Divides(x, 0) by { assert 0 == 0 * x; }
    forall d | d >= 1 && Divides(d, a) && Divides(d, b) ensures Divides(d, x) {
      assert Divides(d, x) && Divides(d, 0);
    }
  }

  lemma RemainderKeepsDivisors(x: nat, y: nat)
    requires y != 0
    ensures SameCommon(x, y, y, x % y)
  {
    var q := x / y;
    assert x == x % y + q * y;
    forall d | d >= 1 ensures Divides(d, y) && Divides(d, x % y) <==> Divides(d, x) && Divides(d, y) {
      if Divides(d, y) {
        if Divides(d, x % y) { DividesCombination(d, x % y, y, q); }
        if Divides(d, x) { DividesCombination(d, x, y, -q); }
      }
    }
  }

  lemma Multiple(d: int, n: int)
    requires d >= 1 && Divides(d, n)
    ensures n == (n / d) * d
  {
    var k :| n == k * d;
    DivExact(k, d);
  }

  lemma ScaledDivides(d: int, i: int, g: int)
    requires Divides(d, i)
    ensures Divides(d * g, i * g)
  {
    var p :| i == p * d;
    MulMul(p, d, g);
    assert i * g == p * (d * g);
  }

  /** Dividing out the gcd leaves coprime parts of the same ratio. */
  lemma ReducedCoprime(num: nat, den: nat, g: nat)
    requires den > 0 && IsGcd(g, num, den)
    ensures (num / g) * g == num && (den / g) * g == den && den / g > 0
    ensures Coprime(num / g, den / g)
  {
    var i, j := num / g, den / g;
    Multiple(g, num); Multiple(g, den);
    assert j > 0 by { if j <= 0 { MulLe(j, 0, g); } }
    forall d | d >= 1 && Divides(d, i) && Divides(d, j) ensures d == 1 {
      ScaledDivides(d, i, g); ScaledDivides(d, j, g);
      MulLe(1, d, g);
      assert Divides(d * g, g);
      DividesItself(d, g);
    }
  }

  lemma DividesItself(d: int, g: int)
    requires d >= 1 && g >= 1 && Divides(d * g, g)
    ensures d == 1
  {
    var k :| g == k * (d * g);
    MulMul(k, d, g);
    UnitFactor(k * d, g);
    UnitProduct(k, d);
  }

  lemma UnitFactor(x: int, g: int)
    requires g >= 1 && g == x * g
    ensures x == 1
  {
    Distribute(x, 1, g);
    assert (x - 1) * g == 0;
    if x - 1 >= 1 { MulLe(1, x - 1, g); }
    if x - 1 <= -1 { MulLe(x - 1, -1, g); }
  }

  lemma UnitProduct(k: int, d: int)
    requires k * d == 1 && d >= 1
    ensures d == 1
  {
    if d >= 2 {
      if k >= 1 { MulLe(1, k, d); }
      if k <= 0 { MulLe(k, 0, d); }
    }
  }

  // ---- the continued fraction ----

  /** Two fractions p1/q1 and p2/q2 next to each other: cross products a unit apart. */
  predicate Neighbours(p1: int, q1: int, p2: int, q2: int) {
    p1 * q2 - p2 * q1 == 1 || p1 * q2 - p2 * q1 == -1
  }

  /** Parts of neighbouring fractions are in lowest terms. */
  lemma NeighbourCoprime(p1: int, q1: int, p2: int, q2: int)
    requires Neighbours(p1, q1, p2, q2)
    ensures Coprime(p1, q1)
  {
    forall d | d >= 1 && Divides(d, p1) && Divides(d, q1) ensures d == 1 {
      DividesTimes(d, p1, q2);
      DividesCombination(d, p1 * q2, q1, -p2);
      DividesUnit(d, p1 * q2 - p2 * q1);
    }
  }

  lemma DividesTimes(d: int, a: int, c: int)
    requires Divides(d, a)
    ensures Divides(d, a * c)
  {
    var i :| a == i * d;
    MulRotate(i, d, c);
    assert a * c == (c * i) * d;
  }

  lemma DividesUnit(d: int, e: int)
    requires d >= 1 && Divides(d, e) && (e == 1 || e == -1)
    ensures d == 1
  {
    var k :| e == k * d;
    UnitProduct(if e == 1 then k else -k, d);
  }

  /** How far n/d lies from num/den, times d * den. */
  function Off(num: int, den: int, n: int, d: int): nat { Abs(num * d - den * n) }

  /** r lies at least as near num/den as n/d does. */
  predicate NoFarther(num: int, den: int, rn: int, rd: int, n: int, d: int) {
    Off(num, den, rn, rd) * d <= Off(num, den, n, d) * rd
  }

  /** r is a best approximation of num/den among fractions with parts at most max. */
  ghost predicate Best(num: int, den: int, max: int, rn: int, rd: int) {
    forall n, d :: 0 <= n <= max && 1 <= d <= max ==> NoFarther(num, den, rn, rd, n, d)
  }

  /** The loop's state: num0/den0 expanded on the last two convergents a1 and a0 with remainders num and den. */
  predicate Expanded(num0: int, den0: int, num: int, den: int, a0n: int, a0d: int, a1n: int, a1d: int) {
    && num0 == num * a1n + den * a0n
    && den0 == num * a1d + den * a0d
    && Neighbours(a1n, a1d, a0n, a0d)
  }

  lemma ExpandStep(num0: int, den0: int, num: int, den: int, a0n: int, a0d: int, a1n: int, a1d: int, x: int)
    requires Expanded(num0, den0, num, den, a0n, a0d, a1n, a1d)
    ensures Expanded(num0, den0, den, num - den * x, a1n, a1d, x * a1n + a0n, x * a1d + a0d)
  {
    assert den * (x * a1n + a0n) + (num - den * x) * a1n == num * a1n + den * a0n;
    assert den * (x * a1d + a0d) + (num - den * x) * a1d == num * a1d + den * a0d;
    assert (x * a1n + a0n) * a1d - a1n * (x * a1d + a0d) == -(a1n * a0d - a0n * a1d);
  }

  // ---- the best of two neighbours ----

  /** Any n/d in the basis of two neighbours: n = u*p1 + v*ps, d = u*q1 + v*qs. */
  lemma InBasis(p1: int, q1: int, ps: int, qs: int, e: int, n: int, d: int)
    requires e == p1 * qs - ps * q1 && (e == 1 || e == -1)
    ensures var u, v := e * (n * qs - ps * d), e * (p1 * d - n * q1); n == u * p1 + v * ps && d == u * q1 + v * qs
  {
    var u, v := e * (n * qs - ps * d), e * (p1 * d - n * q1);
    assert u * p1 + v * ps == e * (n * (p1 * qs - ps * q1));
    assert u * q1 + v * qs == e * (d * (p1 * qs - ps * q1));
    assert e * (n * e) == n && e * (d * e) == d;
  }

  /** On the far side of s: at least as far as s. */
  lemma FartherThanS(u: int, v: int, alpha: int, beta: int, q1: int, qs: int)
    requires u <= 0 && alpha >= 0 && beta >= 0 && q1 >= 0 && qs >= 0
    ensures beta * (u * q1 + v * qs) <= (v * beta - u * alpha) * qs
  {
    assert (v * beta - u * alpha) * qs - beta * (u * q1 + v * qs) == (-u) * (alpha * qs + beta * q1);
    MulPos(alpha, qs); MulPos(beta, q1); MulPos(-u, alpha * qs + beta * q1);
  }

  /** On the far side of a1: at least as far as a1. */
  lemma FartherThanA(u: int, v: int, alpha: int, beta: int, q1: int, qs: int)
    requires v <= 0 && alpha >= 0 && beta >= 0 && q1 >= 0 && qs >= 0
    ensures alpha * (u * q1 + v * qs) <= (u * alpha - v * beta) * q1
  {
    assert (u * alpha - v * beta) * q1 - alpha * (u * q1 + v * qs) == (-v) * (beta * q1 + alpha * qs);
    MulPos(alpha, qs); MulPos(beta, q1); MulPos(-v, beta * q1 + alpha * qs);
  }

  /** The one nearer of the two is nearer than whatever is no nearer than the other. */
  lemma NearerStill(f: int, d: int, offFar: int, far: int, offNear: int, near: int)
    requires far >= 1 && near >= 0 && d >= 0 && f >= 0
    requires offFar * d <= f * far
    requires offNear * far <= offFar * near
    ensures offNear * d <= f * near
  {
    MulLe(offNear * far, offFar * near, d);
    MulLe(offFar * d, f * far, near);
    assert (offNear * d) * far <= (f * near) * far by {
      assert (offNear * d) * far == (offNear * far) * d;
      assert (offFar * near) * d == (offFar * d) * near;
      assert (f * far) * near == (f * near) * far;
    }
    if offNear * d > f * near { MulLt(f * near, offNear * d, far); }
  }

  /** num0/den0 lies between the convergent a1 and the last semiconvergent s that fits: no fraction within the bound
      lies strictly between them, so the nearer of the two is best. */
  lemma NearerOfTwo(num0: int, den0: int, num: int, den: int, a0n: int, a0d: int, a1n: int, a1d: int, x: int, max: int, n: int, d: int)
    requires Expanded(num0, den0, num, den, a0n, a0d, a1n, a1d)
    requires 0 < den && x >= 0 && a0n >= 0 && a0d >= 0 && a1n >= 0 && a1d >= 0 && num - den * x >= 0
    requires (x * a1n + a0n) + a1n > max || (x * a1d + a0d) + a1d > max
    requires 0 <= n <= max && 1 <= d <= max
    ensures den * (x * a1d + a0d) > (num - den * x) * a1d ==> NoFarther(num0, den0, x * a1n + a0n, x * a1d + a0d, n, d)
    ensures den * (x * a1d + a0d) <= (num - den * x) * a1d ==> NoFarther(num0, den0, a1n, a1d, n, d)
  {
    var ps, qs, alpha, beta := x * a1n + a0n, x * a1d + a0d, den, num - den * x;
    var e := a1n * a0d - a0n * a1d;
    MulPos(x, a1n); MulPos(x, a1d);
    CrossProducts(num0, den0, num, den, a0n, a0d, a1n, a1d, x);
    var u, v := e * (n * qs - ps * d), e * (a1n * d - n * a1d);
    InBasis(a1n, a1d, ps, qs, e, n, d);
    OffInBasis(num0, den0, a1n, a1d, ps, qs, e, alpha, beta, u, v);
    UnitAbs(e, v * beta - u * alpha); UnitAbs(e, alpha); UnitAbs(e, beta);
    Nearer(u, v, alpha, beta, a1n, a1d, ps, qs, max, Off(num0, den0, n, d), d);
  }

  /** How far the two ends lie from num0/den0, and that they are neighbours too. */
  lemma CrossProducts(num0: int, den0: int, num: int, den: int, a0n: int, a0d: int, a1n: int, a1d: int, x: int)
    requires Expanded(num0, den0, num, den, a0n, a0d, a1n, a1d)
    ensures var e, ps, qs := a1n * a0d - a0n * a1d, x * a1n + a0n, x * a1d + a0d;
      && a1n * qs - ps * a1d == e
      && num0 * a1d - den0 * a1n == -(e * den)
      && num0 * qs - den0 * ps == e * (num - den * x)
  {
    var ps, qs := x * a1n + a0n, x * a1d + a0d;
    assert a1n * (x * a1d) == (x * a1n) * a1d;
    assert a1n * qs == a1n * (x * a1d) + a1n * a0d && ps * a1d == (x * a1n) * a1d + a0n * a1d;
    OnConvergents(num, den, a0n, a0d, a1n, a1d);
    Distribute(a1n, a0n, x);
    assert num0 * qs - den0 * ps == x * (num0 * a1d - den0 * a1n) + (num0 * a0d - den0 * a0n);
    var e := a1n * a0d - a0n * a1d;
    assert x * (-(e * den)) + e * num == e * (num - den * x);
  }

  lemma OnConvergents(num: int, den: int, a0n: int, a0d: int, a1n: int, a1d: int)
    ensures (num * a1n + den * a0n) * a1d - (num * a1d + den * a0d) * a1n == -((a1n * a0d - a0n * a1d) * den)
    ensures (num * a1n + den * a0n) * a0d - (num * a1d + den * a0d) * a0n == (a1n * a0d - a0n * a1d) * num
  {
  }

  lemma UnitAbs(e: int, t: int)
    requires e == 1 || e == -1
    ensures Abs(e * t) == Abs(t) == Abs(-(e * t))
  {
  }

  lemma Nearer(u: int, v: int, alpha: int, beta: int, p1: int, q1: int, ps: int, qs: int, max: int, f: int, d: int)
    requires alpha >= 0 && beta >= 0 && p1 >= 0 && q1 >= 0 && ps >= 0 && qs >= 0
    requires ps + p1 > max || qs + q1 > max
    requires 0 <= u * p1 + v * ps <= max && 1 <= d <= max && d == u * q1 + v * qs
    requires f == Abs(v * beta - u * alpha)
    ensures alpha * qs > beta * q1 ==> beta * d <= f * qs
    ensures alpha * qs <= beta * q1 ==> alpha * d <= f * q1
  {
    NotBoth(u, v, p1, q1, ps, qs, max);
    if u <= 0 {
      Sides(u, v, q1, qs);
      MulPos(v, beta); MulPos(-u, alpha);
      FartherThanS(u, v, alpha, beta, q1, qs);
      Positive(u, v, q1, qs);
      if alpha * qs <= beta * q1 { NearerStill(f, d, beta, qs, alpha, q1); }
    } else {
      MulPos(u, alpha); MulPos(-v, beta);
      FartherThanA(u, v, alpha, beta, q1, qs);
      Positive(v, u, qs, q1);
      if alpha * qs > beta * q1 { NearerStill(f, d, alpha, q1, beta, qs); }
    }
  }

  lemma OffInBasis(num0: int, den0: int, p1: int, q1: int, ps: int, qs: int, e: int, alpha: int, beta: int, u: int, v: int)
    requires num0 * q1 - den0 * p1 == -(e * alpha) && num0 * qs - den0 * ps == e * beta
    ensures num0 * (u * q1 + v * qs) - den0 * (u * p1 + v * ps) == e * (v * beta - u * alpha)
  {
    assert num0 * (u * q1 + v * qs) - den0 * (u * p1 + v * ps)
        == u * (num0 * q1 - den0 * p1) + v * (num0 * qs - den0 * ps);
    assert u * (-(e * alpha)) + v * (e * beta) == e * (v * beta - u * alpha);
  }

  /** A fraction strictly between the two has a part past the bound. */
  lemma NotBoth(u: int, v: int, p1: int, q1: int, ps: int, qs: int, max: int)
    requires p1 >= 0 && q1 >= 0 && ps >= 0 && qs >= 0
    requires ps + p1 > max || qs + q1 > max
    requires u * p1 + v * ps <= max && u * q1 + v * qs <= max
    ensures u <= 0 || v <= 0
  {
    if u >= 1 && v >= 1 {
      MulLe(1, u, p1); MulLe(1, v, ps); MulLe(1, u, q1); MulLe(1, v, qs);
    }
  }

  lemma Sides(u: int, v: int, q1: int, qs: int)
    requires u <= 0 && q1 >= 0 && qs >= 0 && u * q1 + v * qs >= 1
    ensures v >= 0
  {
    MulPos(-u, q1);
    if v <= -1 { MulPos(-v, qs); }
  }

  lemma Positive(u: int, v: int, q1: int, qs: int)
    requires u <= 0 && q1 >= 0 && qs >= 0 && u * q1 + v * qs >= 1
    ensures qs >= 1
  {
    MulPos(-u, q1);
    assert qs == 0 ==> v * qs == 0;
  }

  lemma BestScales(num: int, den: int, g: int, max: int, rn: int, rd: int)
    requires g >= 1 && Best(num, den, max, rn, rd)
    ensures Best(num * g, den * g, max, rn, rd)
  {
    forall n, d | 0 <= n <= max && 1 <= d <= max ensures NoFarther(num * g, den * g, rn, rd, n, d) {
      assert NoFarther(num, den, rn, rd, n, d);
      NoFartherScales(num, den, g, rn, rd, n, d);
    }
  }

  lemma NoFartherScales(num: int, den: int, g: int, rn: int, rd: int, n: int, d: int)
    requires g >= 1 && NoFarther(num, den, rn, rd, n, d)
    ensures NoFarther(num * g, den * g, rn, rd, n, d)
  {
    OffScales(num, den, g, rn, rd);
    OffScales(num, den, g, n, d);
    var r, f := Off(num, den, rn, rd), Off(num, den, n, d);
    MulLe(r * d, f * rd, g);
    MulMul(r, d, g); MulMul(f, rd, g);
  }

  lemma OffScales(num: int, den: int, g: int, n: int, d: int)
    requires g >= 1
    ensures Off(num * g, den * g, n, d) == Off(num, den, n, d) * g
  {
    var t := num * d - den * n;
    assert num * g * d - den * g * n == t * g;
    if t >= 0 { MulPos(t, g); } else { MulPos(-t, g); }
  }

  // ---- the reduction itself ----

  /** A step of x <= num/den keeps the parts within num0 and den0: what keeps every product inside uint64. */
  lemma StepWithin(num0: int, den0: int, num: int, den: int, a0n: int, a0d: int, a1n: int, a1d: int, x: int)
    requires Expanded(num0, den0, num, den, a0n, a0d, a1n, a1d)
    requires den > 0 && 0 <= x && den * x <= num && a0n >= 0 && a0d >= 0 && a1n >= 0 && a1d >= 0
    ensures 0 <= x * a1n && x * a1n + a0n <= num0
    ensures 0 <= x * a1d && x * a1d + a0d <= den0
    ensures 0 <= num * a1d <= den0
    ensures 0 <= den * (2 * x * a1d + a0d) <= 2 * den0
  {
    MulPos(x, a1n); MulPos(x, a1d); MulPos(num, a1d); MulPos(den, a0d);
    PartWithin(num, den, a0n, a1n, x);
    PartWithin(num, den, a0d, a1d, x);
    ComparedWithin(num, den, a0d, a1d, x);
  }

  lemma ComparedWithin(num: int, den: int, a0d: int, a1d: int, x: int)
    requires den > 0 && x >= 0 && den * x <= num && a0d >= 0 && a1d >= 0
    ensures 0 <= den * (2 * x * a1d + a0d) <= 2 * (num * a1d + den * a0d)
  {
    Doubled(x, a1d);
    MulMul(den, x, a1d);
    Distribute(2 * (x * a1d), a0d, den);
    MulLe(den * x, num, a1d);
    MulPos(x, a1d); MulPos(den, x * a1d); MulPos(den, a0d);
  }

  lemma PartWithin(num: int, den: int, a0: int, a1: int, x: int)
    requires den > 0 && x >= 0 && den * x <= num && a0 >= 0 && a1 >= 0
    ensures x * a1 + a0 <= num * a1 + den * a0
  {
    MulLe(1, den, x); MulLe(x, num, a1); MulLe(1, den, a0);
  }

  /** q is the largest step that keeps a part within max. */
  predicate LargestStep(a0: int, a1: int, max: int, q: int) {
    q * a1 + a0 <= max < (q + 1) * a1 + a0
  }

  method RoomFor(a0: uint64, a1: uint64, max: uint64) returns (q: uint64)
    requires a0 <= max && a1 != 0
    ensures LargestStep(a0 as int, a1 as int, max as int, q as int)
  {
    q := (max - a0) / a1;
    DivBounds(max as int - a0 as int, a1 as int);
    Distribute(q as int, 1, a1 as int);
  }

  lemma LargestBelow(a0: int, a1: int, max: int, q: int, full: int)
    requires a1 > 0 && LargestStep(a0, a1, max, q) && full * a1 + a0 > max
    ensures q < full
  {
    if full <= q { MulLe(full, q, a1); }
  }

  lemma SmallerFits(a0: int, a1: int, max: int, t: int, q: int)
    requires a1 >= 0 && 0 <= t <= q && q * a1 + a0 <= max
    ensures t * a1 + a0 <= max
  {
    MulLe(t, q, a1);
  }

  /** The largest step that keeps both parts within max, found as avReduce finds it: strictly below the step that did
      not fit. */
  method LastStep(a0n: uint64, a0d: uint64, a1n: uint64, a1d: uint64, full: uint64, max: uint64) returns (x: uint64)
    requires a0n <= max && a0d <= max && (a1n != 0 || a1d != 0)
    requires full as int * a1n as int + a0n as int > max as int || full as int * a1d as int + a0d as int > max as int
    ensures x < full
    ensures x as int * a1n as int + a0n as int <= max as int && x as int * a1d as int + a0d as int <= max as int
    ensures (x as int + 1) * a1n as int + a0n as int > max as int || (x as int + 1) * a1d as int + a0d as int > max as int
  {
    x := full;
    if a1n != 0 {
      x := RoomFor(a0n, a1n, max);
    }
    if a1d != 0 {
      var t := RoomFor(a0d, a1d, max);
      if t < x {
        x := t;
      }
    }
    LastStepOk(a0n as int, a0d as int, a1n as int, a1d as int, full as int, max as int, x as int);
  }

  /** The smaller of the two parts' largest steps, a part of 0 setting no limit. */
  lemma LastStepOk(a0n: int, a0d: int, a1n: int, a1d: int, full: int, max: int, x: int)
    requires 0 <= a0n <= max && 0 <= a0d <= max && a1n >= 0 && a1d >= 0 && full >= 0 && x >= 0
    requires full * a1n + a0n > max || full * a1d + a0d > max
    requires a1n == 0 || exists q :: LargestStep(a0n, a1n, max, q) && x <= q && (x < q ==> a1d > 0 && LargestStep(a0d, a1d, max, x))
    requires a1d == 0 || exists q :: LargestStep(a0d, a1d, max, q) && x <= q && (x < q ==> (a1n > 0 && LargestStep(a0n, a1n, max, x)) || (a1n == 0 && x == full))
    ensures x < full && x * a1n + a0n <= max && x * a1d + a0d <= max
    ensures (x + 1) * a1n + a0n > max || (x + 1) * a1d + a0d > max
  {
    assert a1n == 0 ==> full * a1n == 0 && x * a1n == 0;
    assert a1d == 0 ==> full * a1d == 0 && x * a1d == 0;
    if a1n > 0 {
      var q :| LargestStep(a0n, a1n, max, q) && x <= q && (x < q ==> a1d > 0 && LargestStep(a0d, a1d, max, x));
      SmallerFits(a0n, a1n, max, x, q);
      if full * a1n + a0n > max { LargestBelow(a0n, a1n, max, q, full); }
    }
    if a1d > 0 {
      var q :| LargestStep(a0d, a1d, max, q) && x <= q && (x < q ==> (a1n > 0 && LargestStep(a0n, a1n, max, x)) || (a1n == 0 && x == full));
      SmallerFits(a0d, a1d, max, x, q);
      if full * a1d + a0d > max { LargestBelow(a0d, a1d, max, q, full); }
    }
  }

  /** What a reduction owes its caller. */
  ghost predicate Reduced(num: int, den: int, max: int, rn: int, rd: int) {
    && 0 <= rn <= max && 1 <= rd <= max && Coprime(rn, rd)
    && Best(num, den, max, rn, rd)
  }

  lemma ExactIsBest(num: int, den: int, max: int)
    requires den >= 0
    ensures Best(num, den, max, num, den)
  {
    assert Off(num, den, num, den) == 0;
    forall n, d | 0 <= n <= max && 1 <= d <= max ensures NoFarther(num, den, num, den, n, d) {
      MulPos(Off(num, den, n, d), den);
    }
  }

  /** The reduced form itself is returned when it fits. */
  ghost predicate ExactWhenFits(num: int, den: int, max: int, rn: int, rd: int) {
    forall g :: IsGcd(g, num, den) && num / g <= max && den / g <= max ==> rn == num / g && rd == den / g
  }

  /** The loop on the reduced ratio: the last convergent, or the last semiconvergent when that is nearer. */
  method Approximate(num0: uint64, den0: uint64, max: uint64) returns (rn: uint64, rd: uint64)
    requires 0 < den0 < 0x8000_0000_0000_0000 && 1 <= max < 0x8000_0000_0000_0000
    ensures Reduced(num0 as int, den0 as int, max as int, rn as int, rd as int)
  {
    var num, den := num0, den0;
    var a0n: uint64, a0d: uint64, a1n: uint64, a1d: uint64 := 0, 1, 1, 0;
    while den != 0
      invariant Expanded(num0 as int, den0 as int, num as int, den as int, a0n as int, a0d as int, a1n as int, a1d as int)
      invariant a0n <= max && a0d <= max && a1n <= max && a1d <= max
      decreases den
    {
      var x := num / den;
      DivBounds(num as int, den as int);
      StepWithin(num0 as int, den0 as int, num as int, den as int, a0n as int, a0d as int, a1n as int, a1d as int, x as int);
      var nextDen := num - den * x;
      var a2n := x * a1n + a0n;
      var a2d := x * a1d + a0d;
      if a2n > max || a2d > max {
        rn, rd := NearerPart(num0, den0, num, den, a0n, a0d, a1n, a1d, x, max);
        return;
      }
      ExpandStep(num0 as int, den0 as int, num as int, den as int, a0n as int, a0d as int, a1n as int, a1d as int, x as int);
      a0n, a0d := a1n, a1d;
      a1n, a1d := a2n, a2d;
      num, den := den, nextDen;
    }
    LastIsExact(num0 as int, den0 as int, num as int, a0n as int, a0d as int, a1n as int, a1d as int, max as int);
    rn, rd := a1n, a1d;
  }

  lemma LastIsExact(num0: int, den0: int, num: int, a0n: int, a0d: int, a1n: int, a1d: int, max: int)
    requires Expanded(num0, den0, num, 0, a0n, a0d, a1n, a1d) && den0 > 0 && num >= 0
    requires 0 <= a1n <= max && 0 <= a1d <= max
    ensures a1d >= 1 && Reduced(num0, den0, max, a1n, a1d)
  {
    assert a1d == 0 ==> num * a1d == 0;
    NeighbourCoprime(a1n, a1d, a0n, a0d);
    MulMul(num, a1n, a1d); MulMul(num, a1d, a1n);
    assert Off(num0, den0, a1n, a1d) == 0;
  }

  /** Where the next convergent is out of bounds: the semiconvergent that still fits, or the last convergent. */
  method NearerPart(num0: uint64, den0: uint64, num: uint64, den: uint64, a0n: uint64, a0d: uint64,
                    a1n: uint64, a1d: uint64, full: uint64, max: uint64) returns (rn: uint64, rd: uint64)
    requires 0 < den0 < 0x8000_0000_0000_0000 && 1 <= max < 0x8000_0000_0000_0000
    requires Expanded(num0 as int, den0 as int, num as int, den as int, a0n as int, a0d as int, a1n as int, a1d as int)
    requires a0n <= max && a0d <= max && a1n <= max && a1d <= max && den > 0 && full as int == num as int / den as int
    requires full as int * a1n as int + a0n as int > max as int || full as int * a1d as int + a0d as int > max as int
    ensures Reduced(num0 as int, den0 as int, max as int, rn as int, rd as int)
  {
    assert a1n != 0 || a1d != 0;
    var x := LastStep(a0n, a0d, a1n, a1d, full, max);
    DivBounds(num as int, den as int);
    MulLe(x as int, full as int, den as int);
    ComparisonInRange(num0 as int, den0 as int, num as int, den as int, a0n as int, a0d as int, a1n as int, a1d as int, x as int, max as int);
    PartsReduced(num0 as int, den0 as int, num as int, den as int, a0n as int, a0d as int, a1n as int, a1d as int, x as int, max as int);
    var twice := 2 * x * a1d + a0d;
    if den * twice > num * a1d {
      rn, rd := x * a1n + a0n, x * a1d + a0d;
    } else {
      rn, rd := a1n, a1d;
    }
  }

  /** The loop's state where the next convergent is out of bounds, x being the last step that fits. */
  predicate AtBound(num0: int, den0: int, num: int, den: int, a0n: int, a0d: int, a1n: int, a1d: int, x: int, max: int) {
    && Expanded(num0, den0, num, den, a0n, a0d, a1n, a1d) && 0 < den0
    && a0n >= 0 && a0d >= 0 && 0 <= a1n <= max && 0 <= a1d <= max && num >= 0 && den > 0
    && 0 <= x && den * x <= num
    && x * a1n + a0n <= max && x * a1d + a0d <= max
    && ((x + 1) * a1n + a0n > max || (x + 1) * a1d + a0d > max)
  }

  /** No product of the comparison leaves uint64. */
  lemma ComparisonInRange(num0: int, den0: int, num: int, den: int, a0n: int, a0d: int, a1n: int, a1d: int, x: int, max: int)
    requires AtBound(num0, den0, num, den, a0n, a0d, a1n, a1d, x, max)
    ensures x <= max && 0 <= x * a1n && 0 <= x * a1d
    ensures 0 <= 2 * x * a1d && 2 * x * a1d + a0d <= 2 * den0
    ensures 0 <= num * a1d <= den0 && 0 <= den * (2 * x * a1d + a0d) <= 2 * den0
  {
    StepWithin(num0, den0, num, den, a0n, a0d, a1n, a1d, x);
    Doubled(x, a1d);
    StepSmall(x, a0n, a1n, max); StepSmall(x, a0d, a1d, max);
    MulLe(1, den, 2 * x * a1d + a0d);
    assert a1n == 0 && a1d == 0 ==> (x + 1) * a1n == 0 && (x + 1) * a1d == 0;
  }

  /** Whichever way the comparison goes, the part chosen is the reduction. */
  lemma PartsReduced(num0: int, den0: int, num: int, den: int, a0n: int, a0d: int, a1n: int, a1d: int, x: int, max: int)
    requires AtBound(num0, den0, num, den, a0n, a0d, a1n, a1d, x, max)
    ensures if den * (2 * x * a1d + a0d) > num * a1d then Reduced(num0, den0, max, x * a1n + a0n, x * a1d + a0d)
            else Reduced(num0, den0, max, a1n, a1d)
  {
    MulPos(x, a1n);
    CompareParts(num, den, a0d, a1d, x);
    NearerIsFraction(num0, den0, num, den, a0n, a0d, a1n, a1d, x);
    NearerIsBest(num0, den0, num, den, a0n, a0d, a1n, a1d, x, max);
    PartsCoprime(num0, den0, num, den, a0n, a0d, a1n, a1d, x);
  }

  lemma StepSmall(x: int, a0: int, a1: int, max: int)
    requires x >= 0 && a0 >= 0 && a1 >= 0 && x * a1 + a0 <= max
    ensures x * a1 >= 0 && (a1 >= 1 ==> x <= max)
  {
    MulPos(x, a1);
    if a1 >= 1 { MulLe(1, a1, x); }
  }

  lemma PartsCoprime(num0: int, den0: int, num: int, den: int, a0n: int, a0d: int, a1n: int, a1d: int, x: int)
    requires Expanded(num0, den0, num, den, a0n, a0d, a1n, a1d)
    ensures Coprime(x * a1n + a0n, x * a1d + a0d) && Coprime(a1n, a1d)
  {
    CrossProducts(num0, den0, num, den, a0n, a0d, a1n, a1d, x);
    NeighbourCoprime(x * a1n + a0n, x * a1d + a0d, a1n, a1d);
    NeighbourCoprime(a1n, a1d, a0n, a0d);
  }

  lemma NearerIsBest(num0: int, den0: int, num: int, den: int, a0n: int, a0d: int, a1n: int, a1d: int, x: int, max: int)
    requires Expanded(num0, den0, num, den, a0n, a0d, a1n, a1d)
    requires a0n >= 0 && a0d >= 0 && a1n >= 0 && a1d >= 0 && den > 0 && x >= 0 && num - den * x >= 0
    requires (x + 1) * a1n + a0n > max || (x + 1) * a1d + a0d > max
    ensures den * (x * a1d + a0d) > (num - den * x) * a1d ==> Best(num0, den0, max, x * a1n + a0n, x * a1d + a0d)
    ensures den * (x * a1d + a0d) <= (num - den * x) * a1d ==> Best(num0, den0, max, a1n, a1d)
  {
    Distribute(x, 1, a1n); Distribute(x, 1, a1d);
    var ps, qs := x * a1n + a0n, x * a1d + a0d;
    if den * qs > (num - den * x) * a1d {
      forall n, d | 0 <= n <= max && 1 <= d <= max ensures NoFarther(num0, den0, ps, qs, n, d) {
        NearerOfTwo(num0, den0, num, den, a0n, a0d, a1n, a1d, x, max, n, d);
      }
    } else {
      forall n, d | 0 <= n <= max && 1 <= d <= max ensures NoFarther(num0, den0, a1n, a1d, n, d) {
        NearerOfTwo(num0, den0, num, den, a0n, a0d, a1n, a1d, x, max, n, d);
      }
    }
  }

  /** The comparison avReduce makes is the one between the two distances. */
  lemma CompareParts(num: int, den: int, a0d: int, a1d: int, x: int)
    ensures den * (2 * x * a1d + a0d) > num * a1d <==> den * (x * a1d + a0d) > (num - den * x) * a1d
  {
    assert (num - den * x) * a1d == num * a1d - den * (x * a1d) by { MulMul(den, x, a1d); Distribute(num, den * x, a1d); }
    assert 2 * x * a1d == 2 * (x * a1d);
    assert den * (2 * x * a1d + a0d) == den * (x * a1d + a0d) + den * (x * a1d);
  }

  /** Whichever of the two is chosen has a denominator. */
  lemma NearerIsFraction(num0: int, den0: int, num: int, den: int, a0n: int, a0d: int, a1n: int, a1d: int, x: int)
    requires Expanded(num0, den0, num, den, a0n, a0d, a1n, a1d)
    requires den > 0 && x >= 0 && num - den * x >= 0 && a0d >= 0 && a1d >= 0
    ensures den * (x * a1d + a0d) > (num - den * x) * a1d ==> x * a1d + a0d >= 1
    ensures den * (x * a1d + a0d) <= (num - den * x) * a1d ==> a1d >= 1
  {
    MulPos(x, a1d); MulPos(num - den * x, a1d);
    assert x * a1d + a0d == 0 ==> den * (x * a1d + a0d) == 0;
    if a1d == 0 {
      assert x * a1d == 0 && (num - den * x) * a1d == 0 && a0n * a1d == 0;
      assert a0d >= 1 by { assert a0d == 0 ==> a1n * a0d == 0; }
      MulLe(1, a0d, den);
    }
  }

  lemma Doubled(x: int, a1d: int)
    ensures 2 * x * a1d == 2 * (x * a1d)
  {
  }

  /** Reduces num/den to lowest terms, then to the best approximation with both parts at most max. */
  method AvReduce(num: uint64, den: uint64, max: uint64) returns (rn: uint64, rd: uint64)
    requires den < 0x8000_0000_0000_0000 && 1 <= max < 0x8000_0000_0000_0000
    ensures den > 0 ==> Reduced(num as int, den as int, max as int, rn as int, rd as int)
    ensures den > 0 ==> ExactWhenFits(num as int, den as int, max as int, rn as int, rd as int)
    ensures den == 0 ==> rd == 1 && rn == if num == 0 then 0 else 1
  {
    var g := Gcd(num, den);
    var n, d := num / g, den / g;
    if den == 0 {
      ZeroDenominator(num as int, g as int);
      if n <= max && d <= max {
        return n, 1;
      }
      return 1, 1;
    }
    ReducedCoprime(num as int, den as int, g as int);
    GcdUnique(num as int, den as int, g as int);
    DivLe(den as int, den as int, g as int) by { MulLe(1, g as int, den as int); }
    if n <= max && d <= max {
      ExactIsBest(n as int, d as int, max as int);
      rn, rd := n, d;
    } else {
      rn, rd := Approximate(n, d, max);
    }
    BestScales(n as int, d as int, g as int, max as int, rn as int, rd as int);
  }

  lemma ZeroDenominator(num: int, g: int)
    requires num >= 0 && IsGcd(g, num, 0)
    ensures num / g == if num == 0 then 0 else 1
  {
    if num == 0 {
      DivExact(0, g);
    } else {
      assert Divides(num, num) by { assert num == 1 * num; }
      assert Divides(num, 0) by { assert 0 == 0 * num; }
      SameDivisor(num, g);
      DivExact(1, g);
    }
  }

  lemma SameDivisor(a: int, b: int)
    requires a >= 1 && b >= 1 && Divides(a, b) && Divides(b, a)
    ensures a == b
  {
    var i, j :| b == i * a && a == j * b;
    if i <= 0 { MulLe(i, 0, a); }
    if j <= 0 { MulLe(j, 0, b); }
    MulLe(1, i, a); MulLe(1, j, b);
  }

  lemma GcdUnique(num: int, den: int, g: int)
    requires den > 0 && IsGcd(g, num, den)
    ensures forall h :: IsGcd(h, num, den) ==> h == g
  {
    forall h | IsGcd(h, num, den) ensures h == g {
      SameDivisor(g, h);
    }
  }
}
