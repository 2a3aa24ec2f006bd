/** Reading an escaped NAL unit payload bit by bit (mp4/cenc_slice.go, nalReader): the bits delivered are those of the payload
    with its emulation-prevention bytes taken out (section 7.4.1 of ITU-T H.264), Exp-Golomb codes among them (section 9.1). */
module NalReading {
  import opened Arith
  import opened Bytes

  // ---- emulation prevention ----

  /** What has come of an escaped prefix: the payload bytes, and the zero bytes in a row at its end. */
  datatype Scan = Scan(clean: seq<byte>, zeros: nat)

  function ScanByte(s: Scan, b: byte): Scan {
    if s.zeros >= 2 && b == 3 then Scan(s.clean, 0)
    else Scan(s.clean + [b], if b == 0 then s.zeros + 1 else 0)
  }

  function ScanOf(data: seq<byte>): Scan {
    if data == [] then Scan([], 0) else ScanByte(ScanOf(data[..|data|-1]), data[|data|-1])
  }

  /** An escaped payload with its emulation-prevention bytes taken out. */
  function Clean(data: seq<byte>): seq<byte> { ScanOf(data).clean }

  /** The escaping an encoder applies: 3 before any byte up to 3 behind two zeros. */
  function Escape(payload: seq<byte>): seq<byte> {
    if payload == [] then []
    else
      var e, b := Escape(payload[..|payload|-1]), payload[|payload|-1];
      if ScanOf(e).zeros >= 2 && b <= 3 then e + [3] + [b] else e + [b]
  }

  lemma {:induction false} ScanAppend(data: seq<byte>, b: byte)
    ensures ScanOf(data + [b]) == ScanByte(ScanOf(data), b)
  {
    assert (data + [b])[..|data|] == data;
  }

  /** Unescaping undoes escaping, for every payload. */
  lemma {:induction false} CleanOfEscape(payload: seq<byte>)
    ensures Clean(Escape(payload)) == payload
  {
    if payload != [] {
      var init, b := payload[..|payload|-1], payload[|payload|-1];
      CleanOfEscape(init);
      EscapedByte(Escape(init), b);
    }
  }

  lemma {:induction false} EscapedByte(e: seq<byte>, b: byte)
    ensures ScanOf(e).zeros >= 2 && b <= 3 ==> Clean(e + [3] + [b]) == Clean(e) + [b]
    ensures !(ScanOf(e).zeros >= 2 && b <= 3) ==> Clean(e + [b]) == Clean(e) + [b]
  {
    ScanAppend(e, 3);
    ScanAppend(e + [3], b);
    ScanAppend(e, b);
  }

  /** A prefix unescapes to a prefix. */
  lemma {:induction false} CleanPrefix(data: seq<byte>, pos: nat)
    requires pos <= |data|
    ensures |Clean(data[..pos])| <= |Clean(data)| && Clean(data)[..|Clean(data[..pos])|] == Clean(data[..pos])
  {
    if pos == |data| {
      assert data[..pos] == data;
    } else {
      var init := data[..|data|-1];
      CleanPrefix(init, pos);
      assert init[..pos] == data[..pos];
    }
  }

  lemma ScanNext(data: seq<byte>, pos: nat)
    requires pos < |data|
    ensures ScanOf(data[..pos+1]) == ScanByte(ScanOf(data[..pos]), data[pos])
  {
    assert data[..pos+1] == data[..pos] + [data[pos]];
    ScanAppend(data[..pos], data[pos]);
  }

  // ---- bits ----

  /** Bit `right` of a byte, counted from its low end. */
  function ByteBit(b: byte, right: nat): nat { b / Pow2(right) % 2 }

  type bit = x: int | 0 <= x < 2

  /** A payload's bits, the high bit of each byte first. */
  function BitsOf(clean: seq<byte>): nat -> bit {
    (p: nat) => if p < 8 * |clean| then ByteBit(clean[p / 8], 7 - p % 8) else 0
  }

  /** The n bits from p on as an unsigned integer. */
  function Field(bits: nat -> bit, p: nat, n: nat): (v: nat)
    ensures v < Pow2(n)
  {
    if n == 0 then 0 else 2 * Field(bits, p, n - 1) + bits(p + n - 1)
  }

  lemma {:induction false} FieldJoin(bits: nat -> bit, p: nat, m: nat, n: nat)
    ensures Field(bits, p, m + n) == Field(bits, p, m) * Pow2(n) + Field(bits, p + m, n)
  {
    if n > 0 {
      FieldJoin(bits, p, m, n - 1);
      MulMul(Field(bits, p, m), 2, Pow2(n - 1));
    }
  }

  lemma {:induction false} Pow2Grows(m: nat, n: nat)
    requires m <= n
    ensures Pow2(m) <= Pow2(n)
    decreases n
  {
    if m < n { Pow2Grows(m, n - 1); }
  }

  lemma Pow2Of32()
    ensures Pow2(15) == 0x8000 && Pow2(31) == 0x8000_0000 && Pow2(32) == P32
  {
    assert Pow2(8) == 256;
    assert Pow2(15) == 0x8000;
    assert Pow2(22) == 0x40_0000;
    assert Pow2(29) == 0x2000_0000;
  }

  /** The Exp-Golomb codeword of v, of z leading zeros, stands at p among n bits. */
  predicate CodeAt(bits: nat -> bit, n: nat, p: nat, z: nat, v: nat) {
    && p + 2 * z + 1 <= n
    && Pow2(z) <= v + 1 < Pow2(z + 1)
    && Field(bits, p, 2 * z + 1) == v + 1
  }

  /** A codeword is z zeros, a one and z bits; the bits tell its value. */
  lemma CodeParts(bits: nat -> bit, n: nat, p: nat, z: nat, v: nat)
    requires p + 2 * z + 1 <= n
    ensures CodeAt(bits, n, p, z, v) <==>
      Field(bits, p, z) == 0 && bits(p + z) == 1 && v == Pow2(z) - 1 + Field(bits, p + z + 1, z)
  {
    CodeField(bits, p, z);
    CodeValue(Field(bits, p, z), bits(p + z), Field(bits, p + z + 1, z), Pow2(z), v);
  }

  lemma CodeField(bits: nat -> bit, p: nat, z: nat)
    ensures Field(bits, p, 2 * z + 1) == Field(bits, p, z) * (2 * Pow2(z)) + (bits(p + z) * Pow2(z) + Field(bits, p + z + 1, z))
  {
    FieldJoin(bits, p, z, z + 1);
    FieldJoin(bits, p + z, 1, z);
    assert Field(bits, p + z, 0) == 0;
  }

  lemma CodeValue(top: nat, bit: nat, low: nat, m: nat, v: nat)
    requires bit < 2 && low < m
    ensures m <= v + 1 < 2 * m && top * (2 * m) + (bit * m + low) == v + 1 <==> top == 0 && bit == 1 && v == m - 1 + low
  {
    if top >= 1 { MulLe(1, top, 2 * m); }
  }

  lemma {:induction false} ZeroField(bits: nat -> bit, p: nat, n: nat, k: nat)
    requires k <= n && Field(bits, p, n) == 0
    ensures Field(bits, p, k) == 0
    decreases n
  {
    if k < n { ZeroField(bits, p, n - 1, k); }
  }

  ghost predicate ZeroBits(bits: nat -> bit, p: nat, n: nat) {
    forall i: nat :: p <= i < p + n ==> bits(i) == 0
  }

  lemma {:induction false} ZeroBitsField(bits: nat -> bit, p: nat, n: nat)
    requires ZeroBits(bits, p, n)
    ensures Field(bits, p, n) == 0
  {
    if n > 0 { ZeroBitsField(bits, p, n - 1); }
  }

  /** Among k zero bits no codeword has its one. */
  lemma {:induction false} NoCodeWithin(bits: nat -> bit, n: nat, p: nat, k: nat)
    requires Field(bits, p, k) == 0
    ensures forall z: nat, x: nat :: CodeAt(bits, n, p, z, x) ==> z >= k
  {
    forall z: nat, x: nat | CodeAt(bits, n, p, z, x) ensures z >= k {
      CodeParts(bits, n, p, z, x);
      if z < k { ZeroField(bits, p, k, z + 1); }
    }
  }

  /** Behind z zeros and a one, the only codeword is that of z leading zeros, if its bits are all there. */
  lemma Decodes(bits: nat -> bit, n: nat, p: nat, z: nat)
    requires Field(bits, p, z) == 0 && bits(p + z) == 1
    ensures p + 2 * z + 1 <= n ==> CodeAt(bits, n, p, z, Pow2(z) - 1 + Field(bits, p + z + 1, z))
    ensures forall z': nat, x: nat :: CodeAt(bits, n, p, z', x) ==>
      z' == z && p + 2 * z + 1 <= n && x == Pow2(z) - 1 + Field(bits, p + z + 1, z)
  {
    if p + 2 * z + 1 <= n { CodeParts(bits, n, p, z, Pow2(z) - 1 + Field(bits, p + z + 1, z)); }
    NoCodeWithin(bits, n, p, z);
    forall z': nat, x: nat | CodeAt(bits, n, p, z', x)
      ensures z' == z && p + 2 * z + 1 <= n && x == Pow2(z) - 1 + Field(bits, p + z + 1, z)
    {
      CodeParts(bits, n, p, z', x);
      if z' > z { ZeroField(bits, p, z', z + 1); }
    }
  }

  /** No two codewords start at one place. */
  lemma CodeUnique(bits: nat -> bit, n: nat, p: nat, z: nat, v: nat, z': nat, v': nat)
    requires CodeAt(bits, n, p, z, v) && CodeAt(bits, n, p, z', v')
    ensures z == z' && v == v'
  {
    CodeParts(bits, n, p, z, v);
    Decodes(bits, n, p, z);
  }

  /** The value of the codeword at p, of up to 31 leading zeros and at most max, and where the bits go on behind it. */
  ghost function CodeFrom(bits: nat -> bit, n: nat, p: nat, max: nat): Option<(nat, nat)> {
    if exists z: nat, v: nat :: z <= 31 && v <= max && CodeAt(bits, n, p, z, v) then
      var z: nat, v: nat :| z <= 31 && v <= max && CodeAt(bits, n, p, z, v);
      Some((v, p + 2 * z + 1))
    else None
  }

  lemma CodeFromIs(bits: nat -> bit, n: nat, p: nat, max: nat, z: nat, v: nat)
    requires z <= 31 && CodeAt(bits, n, p, z, v)
    ensures CodeFrom(bits, n, p, max) == if v <= max then Some((v, p + 2 * z + 1)) else None
  {
    hide CodeAt;
    forall z': nat, v': nat | CodeAt(bits, n, p, z', v') ensures z' == z && v' == v { CodeUnique(bits, n, p, z', v', z, v); }
  }

  /** The signed value of an Exp-Golomb code number. */
  function SignedCode(v: nat): int { if v % 2 == 1 then v / 2 + 1 else -(v / 2) }

  function CodeOfSigned(k: int): nat { if k > 0 then 2 * k - 1 else -2 * k }

  lemma SignedCodes(k: int, v: nat)
    ensures SignedCode(CodeOfSigned(k)) == k && CodeOfSigned(SignedCode(v)) == v
    ensures v < P32 - 1 ==> -0x8000_0000 < SignedCode(v) < 0x8000_0000
  {
  }

  /** Reads an escaped NAL payload bit by bit; pos counts escaped bytes. */
  class NalReader {
    const data: seq<byte>
    var pos: nat
    var zeros: nat
    var cur: byte
    var left: nat
    var err: bool
    /** The payload and its bits; how many of its bytes have been taken, and how many of its bits delivered. */
    ghost const clean: seq<byte>
    ghost const bits: nat -> bit
    ghost var bytes: nat
    ghost var read: nat

    /** The reader's invariant, Placed, behind a trigger only its own members pull: callers reason from read and err. */
    ghost predicate Valid()
      reads this
    {
      read <= 8 * |clean| && forall x: bool {:trigger Within(x)} :: Within(x) ==> Placed()
    }

    static predicate Within(x: bool) { x }

    /** Where the reader stands in the escaped bytes, against what it has delivered. */
    ghost predicate Placed()
      reads this
    {
      && clean == Clean(data) && Carries(bits, clean)
      && pos <= |data| && left < 8 && bytes <= |clean| && read + left == 8 * bytes
      && ScanOf(data[..pos]) == Scan(clean[..bytes], zeros)
      && (left > 0 ==> cur == clean[bytes-1])
      && (!err ==> Shortest(data, pos, bytes))
    }

    constructor (data: seq<byte>)
      ensures Valid() && this.data == data && clean == Clean(data) && bits == BitsOf(clean) && read == 0 && !err
    {
      this.data := data;
      pos, zeros, cur, left, err := 0, 0, 0, 0, false;
      clean, bits, bytes, read := Clean(data), BitsOf(Clean(data)), 0, 0;
      BitsCarry(Clean(data));
    }

    /** The payload's next bit; past its end, a failure. */
    method Bit() returns (b: bit)
      requires Valid()
      modifies this
      ensures Valid()
      ensures if old(read) < 8 * |clean| then b == bits(old(read)) && read == old(read) + 1 && err == old(err)
        else b == 0 && err && read == old(read)
    {
      assert Within(true);
      if left == 0 {
        var ok := Load();
        if !ok {
          return 0;
        }
      }
      left := left - 1;
      b := ByteBit(cur, left);
      read := read + 1;
    }

    /** The next byte, past an emulation-prevention byte in front of it. */
    method Load() returns (ok: bool)
      requires Placed() && left == 0
      modifies this
      ensures read == old(read) && ok == (old(bytes) < |clean|)
      ensures !ok ==> Placed() && err
      ensures ok ==>
        && left == 8 && err == old(err) && pos <= |data| && bytes == old(bytes) + 1 && cur == clean[bytes-1]
        && ScanOf(data[..pos]) == Scan(clean[..bytes], zeros) && Shortest(data, pos, bytes)
    {
      if zeros >= 2 && pos < |data| && data[pos] == 3 {
        ScanNext(data, pos);
        pos := pos + 1;
        zeros := 0;
      }
      if pos >= |data| {
        AllScanned(data, pos, clean, bytes);
        err := true;
        return false;
      }
      LoadByte(data, pos, clean, bytes, zeros);
      cur := data[pos];
      pos := pos + 1;
      left := 8;
      bytes := bytes + 1;
      zeros := if cur == 0 then zeros + 1 else 0;
      return true;
    }

    /** The next n bits as an integer. */
    method U(n: nat) returns (v: nat)
      requires Valid() && n <= 32
      modifies this
      ensures Valid() && (old(err) ==> err)
      ensures if old(read) + n <= 8 * |clean|
        then v == Field(bits, old(read), n) && read == old(read) + n && err == old(err)
        else err
      ensures v < Pow2(n)
    {
      v := 0;
      for i := 0 to n
        invariant Valid() && (old(err) ==> err) && v < Pow2(i)
        invariant if old(read) + i <= 8 * |clean|
          then v == Field(bits, old(read), i) && read == old(read) + i && err == old(err)
          else err && read == 8 * |clean|
        modifies this
      {
        var b := Bit();
        v := 2 * v + b;
      }
    }

    method Skip(n: nat)
      requires Valid()
      modifies this
      ensures Valid() && (old(err) ==> err)
      ensures !old(err) ==> if old(read) + n <= 8 * |clean| then read == old(read) + n && !err else err
    {
      var i := n;
      while i > 0 && !err
        invariant Valid() && 0 <= i <= n && (old(err) ==> err)
        invariant !err ==> read == old(read) + (n - i)
        invariant !old(err) && err ==> old(read) + n > 8 * |clean|
        modifies this
      {
        var b := Bit();
        i := i - 1;
      }
    }

    /** An Exp-Golomb code of up to 31 leading zeros: the value whose codeword comes next, or a failure if none does. */
    method Ue() returns (v: nat)
      requires Valid()
      modifies this
      ensures Valid() && (old(err) ==> err) && v < P32 - 1
      ensures !err ==> exists z: nat :: z <= 31 && CodeAt(bits, 8 * |clean|, old(read), z, v) && read == old(read) + 2 * z + 1
      ensures forall z: nat, x: nat :: !old(err) && z <= 31 && CodeAt(bits, 8 * |clean|, old(read), z, x) ==>
        !err && v == x && read == old(read) + 2 * z + 1
      ensures !old(err) ==> match CodeFrom(bits, 8 * |clean|, old(read), P32)
        case Some(c) => !err && v == c.0 && read == c.1
        case None => err
    {
      ghost var n := 8 * |clean|;
      var zeros, ok := LeadingZeros();
      if !old(err) { ZeroBitsField(bits, old(read), zeros); }
      if !ok {
        if !old(err) { NoCodeWithin(bits, n, old(read), zeros); }
        return 0;
      }
      v := U(zeros);
      if !old(err) { Decodes(bits, n, old(read), zeros); }
      SmallCode(zeros, v);
      v := Pow2(zeros) - 1 + v;
    }

    /** The zero bits up to a one, which is read too; without one within 32 bits, a failure. */
    method LeadingZeros() returns (zeros: nat, ok: bool)
      requires Valid()
      modifies this
      ensures Valid() && (old(err) ==> err)
      ensures ok ==> zeros <= 31 && (!old(err) ==> !err && read == old(read) + zeros + 1 && bits(old(read) + zeros) == 1)
      ensures !ok ==> err && (!old(err) ==> zeros == 32 || old(read) + zeros == 8 * |clean|)
      ensures !old(err) ==> ZeroBits(bits, old(read), zeros)
    {
      zeros := 0;
      ghost var p, failed := read, err;
      while true
        invariant Valid() && zeros <= 31 && (failed ==> err)
        invariant !failed ==> !err && read == p + zeros && ZeroBits(bits, p, zeros)
        decreases 32 - zeros
        modifies this
      {
        var b := Bit();
        if b != 0 {
          return zeros, true;
        }
        if err {
          return zeros, false;
        }
        zeros := zeros + 1;
        if zeros > 31 {
          err := true;
          return zeros, false;
        }
      }
    }

    /** Ue within the syntax element's range; a larger value is a failure. */
    method UeMax(max: nat) returns (v: nat)
      requires Valid()
      modifies this
      ensures Valid() && (old(err) ==> err) && v <= max
      ensures !old(err) ==> match CodeFrom(bits, 8 * |clean|, old(read), max)
        case Some(c) => !err && v == c.0 && read == c.1
        case None => err
    {
      hide CodeAt;
      v := Ue();
      if !err {
        ghost var z: nat :| z <= 31 && CodeAt(bits, 8 * |clean|, old(read), z, v) && read == old(read) + 2 * z + 1;
        CodeFromIs(bits, 8 * |clean|, old(read), max, z, v);
      }
      if v > max {
        err := true;
        return 0;
      }
    }

    method Se() returns (k: int)
      requires Valid()
      modifies this
      ensures Valid() && (old(err) ==> err) && -0x8000_0000 < k < 0x8000_0000
      ensures !err ==> exists z: nat :: z <= 31 && CodeAt(bits, 8 * |clean|, old(read), z, CodeOfSigned(k)) && read == old(read) + 2 * z + 1
      ensures forall z: nat, x: int :: !old(err) && z <= 31 && CodeAt(bits, 8 * |clean|, old(read), z, CodeOfSigned(x)) ==> !err && k == x
    {
      var v: int := Ue();
      SignedCodes(0, v);
      if v % 2 == 1 {
        k := v / 2 + 1;
      } else {
        k := -(v / 2);
      }
      forall x: int ensures CodeOfSigned(x) == v ==> k == x { SignedCodes(x, v); }
    }

    /** The escaped bytes read so far, the partly read one included: the shortest escaped prefix that holds every payload
        byte the bits delivered come from. */
    method HeaderLen() returns (r: Result<nat>)
      requires Valid()
      ensures r.Err? <==> err
      ensures r.Ok? ==>
        && r.value <= |data| && clean == Clean(data) && Clean(data[..r.value]) == clean[..(read + 7) / 8]
        && forall h: nat :: h < r.value ==> |Clean(data[..h])| < (read + 7) / 8
    {
      assert Within(true);
      if err {
        return Err("the slice header cannot be read: it runs past its NAL unit or holds a value out of range");
      }
      forall h: nat | h < pos ensures |Clean(data[..h])| < bytes {
        CleanPrefix(data[..pos-1], h);
        assert data[..pos-1][..h] == data[..h];
      }
      return Ok(pos);
    }
  }

  /** bits are the clean payload's. */
  ghost predicate Carries(bits: nat -> bit, clean: seq<byte>) {
    forall i: nat, j: nat {:trigger ByteBit(clean[i], j)} :: i < |clean| && j < 8 ==> bits(8 * i + 7 - j) == ByteBit(clean[i], j)
  }

  lemma BitsCarry(clean: seq<byte>)
    ensures Carries(BitsOf(clean), clean)
  {
    forall i: nat, j: nat | i < |clean| && j < 8 ensures BitsOf(clean)(8 * i + 7 - j) == ByteBit(clean[i], j) {
      DivModIs(8 * i + 7 - j, i, 7 - j, 8);
    }
  }

  /** The last of the first pos escaped bytes is the payload's n-th. */
  ghost predicate Shortest(data: seq<byte>, pos: nat, n: nat)
    requires pos <= |data|
  {
    if n == 0 then pos == 0 else pos > 0 && |Clean(data[..pos-1])| < n
  }

  lemma AllScanned(data: seq<byte>, pos: nat, clean: seq<byte>, n: nat)
    requires pos == |data| && n <= |clean| && clean == Clean(data) && Clean(data[..pos]) == clean[..n]
    ensures n == |clean|
  {
    assert data[..pos] == data;
  }

  lemma LoadByte(data: seq<byte>, pos: nat, clean: seq<byte>, n: nat, zeros: nat)
    requires pos < |data| && n <= |clean| && clean == Clean(data) && ScanOf(data[..pos]) == Scan(clean[..n], zeros)
    requires !(zeros >= 2 && data[pos] == 3)
    ensures n < |clean| && data[pos] == clean[n] && Shortest(data, pos + 1, n + 1)
    ensures ScanOf(data[..pos+1]) == Scan(clean[..n+1], if data[pos] == 0 then zeros + 1 else 0)
  {
    ScanNext(data, pos);
    CleanPrefix(data, pos + 1);
  }

  /** What a code of 31 leading zeros can come to. */
  lemma {:induction false} SmallCode(z: nat, low: nat)
    requires z <= 31 && low < Pow2(z)
    ensures 0 <= Pow2(z) - 1 + low < P32 - 1
  {
    Pow2Of32();
    Pow2Grows(z, 31);
  }
}
