/** Bytes and big-endian integers. */
module Bytes {
  import opened Arith

  type byte = x: int | 0 <= x < 256

  datatype Option<+T> = None | Some(value: T)

  datatype Result<+T> = Ok(value: T) | Err(why: string)

  function Pow256(n: nat): (p: nat)
    ensures p >= 1
  {
    if n == 0 then 1 else 256 * Pow256(n - 1)
  }

  const P16: int := 0x1_0000
  const P32: int := 0x1_0000_0000
  const P48: int := 0x1_0000_0000_0000
  const P56: int := 0x100_0000_0000_0000
  const P64: int := 0x1_0000_0000_0000_0000

  lemma Powers()
    ensures Pow256(1) == 256 && Pow256(2) == P16 && Pow256(4) == P32 && Pow256(8) == P64
    ensures Pow256(16) == P64 * P64
  {
    assert Pow256(3) == 0x100_0000;
    assert Pow256(5) == 0x100_0000_0000;
    assert Pow256(6) == P48;
    assert Pow256(7) == P56;
    PowAdd(8, 8);
  }

  lemma {:induction false} PowAdd(m: nat, n: nat)
    ensures Pow256(m + n) == Pow256(m) * Pow256(n)
  {
    if m > 0 {
      PowAdd(m - 1, n);
      MulMul(256, Pow256(m - 1), Pow256(n));
    }
  }

  /** The unsigned big-endian integer held in b. */
  function BE(b: seq<byte>): nat {
    if b == [] then 0 else BE(b[..|b|-1]) * 256 + b[|b|-1]
  }

  /** v's low n bytes, big-endian. */
  function ToBE(v: nat, n: nat): (b: seq<byte>)
    ensures |b| == n
  {
    if n == 0 then [] else ToBE(v / 256, n - 1) + [v % 256]
  }

  lemma {:induction false} BEBound(b: seq<byte>)
    ensures BE(b) < Pow256(|b|)
  {
    if b != [] { BEBound(b[..|b|-1]); }
  }

  lemma {:induction false} BEAppend(a: seq<byte>, b: seq<byte>)
    ensures BE(a + b) == BE(a) * Pow256(|b|) + BE(b)
  {
    if b == [] {
      assert a + b == a;
    } else {
      var n := |b| - 1;
      assert (a + b)[..|a| + n] == a + b[..n];
      BEAppend(a, b[..n]);
      MulMul(BE(a), Pow256(n), 256);
    }
  }

  /** Encoding then reading gives the value back, reduced to the width. */
  lemma {:induction false} BEOfToBE(v: nat, n: nat)
    requires v < Pow256(n)
    ensures BE(ToBE(v, n)) == v
  {
    if n > 0 {
      DivLt(v, Pow256(n - 1), 256);
      BEOfToBE(v / 256, n - 1);
      var b := ToBE(v, n);
      assert b[..n-1] == ToBE(v / 256, n - 1);
    }
  }

  lemma {:induction false} ToBEOfBE(b: seq<byte>)
    ensures ToBE(BE(b), |b|) == b
  {
    if b != [] {
      var n := |b| - 1;
      ToBEOfBE(b[..n]);
      assert BE(b) / 256 == BE(b[..n]) && BE(b) % 256 == b[n];
      assert b == b[..n] + [b[n]];
    }
  }

  lemma {:induction false} SameValueSameBytes(a: seq<byte>, b: seq<byte>)
    requires |a| == |b| && BE(a) == BE(b)
    ensures a == b
  {
    ToBEOfBE(a);
    ToBEOfBE(b);
  }

  function U32(v: nat): (b: seq<byte>)
    requires v < P32
    ensures |b| == 4 && BE(b) == v
  {
    Powers(); BEOfToBE(v, 4);
    ToBE(v, 4)
  }

  /** Two's complement: what Go's conversions between a signed and an unsigned width do. */
  function Unsigned(v: int, width: nat): nat
    requires width > 0
  {
    v % width
  }

  function Signed(v: nat, width: nat): int {
    if 2 * v >= width then v - width else v
  }

  /** What is left of v in an int64. */
  function Int64(v: int): int { Signed(Unsigned(v, P64), P64) }

  lemma SignedOfUnsigned(v: int, width: nat)
    requires width > 0 && width % 2 == 0 && 0 <= 2 * v + width < 2 * width
    ensures Unsigned(v, width) < width && Signed(Unsigned(v, width), width) == v
  {
    if v < 0 { ModShift(v, width); } else { ModSmall(v, width); }
  }

  lemma ModSmall(v: int, m: int)
    requires 0 <= v < m
    ensures v % m == v
  {
  }

  lemma ModShift(v: int, m: int)
    requires 0 <= v + m < m
    ensures v % m == v + m
  {
    assert v == m * (v / m) + v % m;
    assert v == m * (-1) + (v + m);
    SameQuotient(v / m, v % m, -1, v + m, m);
  }

  lemma SameQuotient(q: int, r: int, q': int, r': int, m: int)
    requires 0 <= r < m && 0 <= r' < m && m * q + r == m * q' + r'
    ensures q == q' && r == r'
  {
    if q < q' { MulLe(q + 1, q', m); }
    if q' < q { MulLe(q' + 1, q, m); }
  }

  /** x = q*m + r reads off as quotient q and remainder r. */
  lemma DivModIs(x: int, q: int, r: int, m: int)
    requires 0 <= r < m && x == q * m + r
    ensures x / m == q && x % m == r
  {
    SameQuotient(x / m, x % m, q, r, m);
  }

  /** b with bytes put at a place. */
  function Put(b: seq<byte>, at: nat, x: seq<byte>): (r: seq<byte>)
    requires at + |x| <= |b|
    ensures |r| == |b|
  {
    b[..at] + x + b[at + |x|..]
  }

  /** b without the n bytes at a place. */
  function Cut(b: seq<byte>, at: nat, n: nat): (r: seq<byte>)
    requires at + n <= |b|
    ensures |r| == |b| - n
  {
    b[..at] + b[at + n..]
  }

  lemma PutFirst(a: seq<byte>, b: seq<byte>, x: seq<byte>)
    requires |x| == |a|
    ensures Put(a + b, 0, x) == x + b
  {
  }

  lemma PutIn(a: seq<byte>, b: seq<byte>, at: nat, x: seq<byte>)
    requires |a| <= at && at + |x| <= |a| + |b|
    ensures Put(a + b, at, x) == a + Put(b, at - |a|, x)
  {
    var i := at - |a|;
    assert (a + b)[..at] == a + b[..i] && (a + b)[at + |x|..] == b[i + |x|..];
  }

  lemma CutIn(a: seq<byte>, b: seq<byte>, at: nat, n: nat)
    requires |a| <= at && at + n <= |a| + |b|
    ensures Cut(a + b, at, n) == a + Cut(b, at - |a|, n)
  {
    var i := at - |a|;
    assert (a + b)[..at] == a + b[..i] && (a + b)[at + n..] == b[i + n..];
  }
}
