/** Per-sample initialization vectors of the 'cenc' scheme (mp4/cenc.go): why no two samples of a presentation share an
    AES-CTR counter block. */
module CencIv {
  import opened Arith
  import opened Bytes
  import Seqs

  // ---- big-endian addition in place ----

  /** Bytes i+1 and up hold the sum so far, short of the carry; those before are untouched. */
  ghost predicate AddSoFar(now: seq<byte>, before: seq<byte>, i: int, carry: nat, v: nat)
    requires -1 <= i < |before|
  {
    && |now| == |before| && now[..i+1] == before[..i+1]
    && BE(now[i+1..]) + carry * Pow256(|before| - 1 - i) == BE(before[i+1..]) + v
  }

  lemma AddSoFarStep(now: seq<byte>, before: seq<byte>, i: nat, carry: nat, v: nat)
    requires i < |before| && AddSoFar(now, before, i, carry, v)
    ensures var sum := before[i] + carry % 256;
      AddSoFar(now[i := sum % 256], before, i - 1, carry / 256 + sum / 256, v)
  {
    var sum := before[i] + carry % 256;
    var now', suffix, rest := now[i := sum % 256], now[i+1..], before[i+1..];
    AddStep(before[i], BE(suffix), BE(rest), carry, v, Pow256(|suffix|));
    BECons(sum % 256, suffix);
    BECons(before[i], rest);
    assert now'[i..] == [sum % 256] + suffix && before[i..] == [before[i]] + rest;
    assert now'[..i] == now[..i+1][..i] == before[..i+1][..i] == before[..i];
  }

  lemma {:induction false} BESplit(s: seq<byte>, k: nat)
    requires k <= |s|
    ensures BE(s) == BE(s[..k]) * Pow256(|s| - k) + BE(s[k..])
  {
    assert s == s[..k] + s[k..];
    BEAppend(s[..k], s[k..]);
  }

  lemma {:induction false} AddSoFarEnd(now: seq<byte>, before: seq<byte>, i: int, carry: nat, v: nat)
    requires -1 <= i < |before| && AddSoFar(now, before, i, carry, v) && (i < 0 || carry == 0)
    ensures BE(now) == (BE(before) + v) % Pow256(|before|)
  {
    BESplit(before, i + 1);
    BESplit(now, i + 1);
    BEBound(now);
    if i < 0 {
      DivModIs(BE(before) + v, carry, BE(now), Pow256(|before|));
    } else {
      ModSmall(BE(now), Pow256(|before|));
    }
  }

  /** Adds v to the big-endian integer in b's first n bytes, wrapping past their width; the other bytes stay. */
  method AddUint64BE(b: array<byte>, n: nat, v: nat)
    requires n <= b.Length && v < P64
    modifies b
    ensures BE(b[..n]) == (BE(old(b[..n])) + v) % Pow256(n)
    ensures b[n..] == old(b[n..])
  {
    var carry := v;
    var i := n - 1;
    ghost var before, rest := b[..n], b[n..];
    assert before[n..] == [];
    while i >= 0 && carry != 0
      invariant -1 <= i < n && 0 <= carry < P64
      invariant AddSoFar(b[..n], before, i, carry, v) && b[n..] == rest
    {
      ghost var now := b[..n];
      AddSoFarStep(now, before, i, carry, v);
      assert now[i] == now[..i+1][i] == before[..i+1][i] == before[i];
      var sum := b[i] + carry % 256;
      b[i] := sum % 256;
      assert b[..n] == now[i := sum % 256];
      carry := carry / 256 + sum / 256;
      i := i - 1;
    }
    AddSoFarEnd(b[..n], before, i, carry, v);
  }

  lemma {:induction false} BECons(x: byte, s: seq<byte>)
    ensures BE([x] + s) == x * Pow256(|s|) + BE(s)
  {
    BEAppend([x], s);
    BEOne(x);
  }

  lemma BEOne(x: byte)
    ensures BE([x]) == x
  {
    assert [x][..0] == [];
  }

  /** One byte's addition moves the carry up a byte. */
  lemma AddStep(x: int, done: int, before: int, carry: int, v: int, p: int)
    requires done + carry * p == before + v
    ensures var sum := x + carry % 256;
      (sum % 256) * p + done + (carry / 256 + sum / 256) * (256 * p) == x * p + before + v
  {
    var sum := x + carry % 256;
    var c := carry / 256 + sum / 256;
    assert sum % 256 + c * 256 == x + carry;
    MulMul(c, 256, p);
    Distribute(sum % 256, c * 256, p);
    Distribute(x, carry, p);
  }

  // ---- the IV of a sample ----

  const MAX_VARIANTS := 256

  /** iv with v added to its high-order 8 bytes, mod 2^64. */
  function AddHigh(iv: seq<byte>, v: nat): (r: seq<byte>)
    requires |iv| >= 8
    ensures |r| == |iv|
  {
    ToBE((BE(iv[..8]) + v) % P64, 8) + iv[8..]
  }

  /** Any bytes equal to those AddUint64BE leaves in the first 8 are AddHigh's. */
  lemma AddHighIs(iv: seq<byte>, v: nat, after: seq<byte>)
    requires |iv| >= 8 && |after| == |iv| && after[8..] == iv[8..]
    requires BE(after[..8]) == (BE(iv[..8]) + v % P64) % P64
    ensures after == AddHigh(iv, v)
  {
    AddMod(BE(iv[..8]), v, P64);
    ToBEOfBE(after[..8]);
    assert after == after[..8] + after[8..];
  }

  lemma AddMod(a: nat, v: nat, m: nat)
    requires m > 0
    ensures (a + v % m) % m == (a + v) % m
  {
    DivBounds(a + v % m, m);
    Distribute((a + v % m) / m, v / m, m);
    assert v == (v / m) * m + v % m;
    assert a + v % m == ((a + v % m) / m) * m + (a + v % m) % m;
    DivModIs(a + v, (a + v % m) / m + v / m, (a + v % m) % m, m);
  }

  /** A sample's IV: the base plus where its bytes sit in the source and its track's domain, Go's uint64 sum wrapping. */
  method CencSampleIV(base: seq<byte>, srcOff: nat, domain: nat) returns (iv: seq<byte>)
    requires |base| >= 8
    ensures iv == AddHigh(base, srcOff + domain)
  {
    iv := AddedHigh(base, srcOff + domain);
  }

  method AddedHigh(base: seq<byte>, v: nat) returns (iv: seq<byte>)
    requires |base| >= 8
    ensures iv == AddHigh(base, v)
  {
    var copy := new byte[|base|](i requires 0 <= i < |base| => base[i]);
    assert copy[..] == base;
    assert copy[..8] == base[..8] && copy[8..] == base[8..];
    Powers();
    AddUint64BE(copy, 8, v % P64);
    AddHighIs(base, v, copy[..]);
    iv := copy[..];
  }

  /** The base IV of ABR variant i. */
  method CencForVariant(base: seq<byte>, i: nat) returns (iv: seq<byte>)
    requires |base| >= 8
    ensures iv == VariantIV(base, i)
  {
    if i == 0 {
      return base;
    }
    iv := AddedHigh(base, i * P48);
  }

  function VariantIV(base: seq<byte>, i: nat): (iv: seq<byte>)
    requires |base| >= 8
    ensures |iv| == |base|
  {
    if i == 0 then base else AddHigh(base, i * P48)
  }

  datatype MediaTrack = MediaTrack(isVideo: bool, id: nat)

  function DomainByte(t: MediaTrack): (d: nat)
    ensures d < 256
  {
    if t.isVideo then 0 else t.id % 255 + 1
  }

  /** What a track adds to its samples' IVs. */
  function Domain(t: MediaTrack): nat {
    DomainByte(t) * P56
  }

  datatype Options = Options(cbcs: bool, iv: seq<byte>)

  /** The IV rules of CENCOptions.validate: 8 or 16 bytes under 'cenc', the low 8 of a 16-byte one leaving the block
      counter room, a whole block under 'cbcs'. */
  predicate ValidIV(o: Options) {
    if o.cbcs then |o.iv| == 16
    else (|o.iv| == 8 || |o.iv| == 16) && (|o.iv| == 16 ==> BE(o.iv[8..]) <= P64 - P32)
  }

  method ValidateIV(o: Options) returns (ok: bool)
    ensures ok == ValidIV(o)
  {
    if o.cbcs {
      return |o.iv| == 16;
    }
    if |o.iv| != 8 && |o.iv| != 16 {
      return false;
    }
    if |o.iv| == 16 && BE(o.iv[8..]) > P64 - 1 - P32 + 1 {
      return false;
    }
    return true;
  }

  ghost predicate DistinctDomains(media: seq<MediaTrack>) {
    forall i, j :: 0 <= i < j < |media| ==> Domain(media[i]) != Domain(media[j])
  }

  /** cencPreflight's walk over the tracks: refused exactly when two would share their IVs. */
  method PreflightDomains(media: seq<MediaTrack>) returns (ok: bool)
    ensures ok == DistinctDomains(media)
  {
    var owner: map<nat, nat> := map[];
    for i := 0 to |media|
      invariant forall d :: d in owner <==> exists j :: 0 <= j < i && Domain(media[j]) == d
      invariant forall j, k :: 0 <= j < k < i ==> Domain(media[j]) != Domain(media[k])
    {
      var d := Domain(media[i]);
      if d in owner {
        return false;
      }
      owner := owner[d := media[i].id];
    }
    return true;
  }

  function CencVariantsFit(o: Options, n: nat): (ok: bool)
    ensures !ok <==> !o.cbcs && n > MAX_VARIANTS
  {
    o.cbcs || n <= MAX_VARIANTS
  }

  /** The range of source offsets entry accepts for 'cenc'. */
  predicate OffsetAccepted(srcOff: int) { 0 < srcOff < P48 }

  // ---- counter blocks ----

  function CounterBlock(iv: seq<byte>): (b: seq<byte>)
    requires |iv| == 8 || |iv| == 16
    ensures |b| == 16
  {
    if |iv| == 16 then iv else iv + ToBE(0, 8)
  }

  /** The j-th block a CTR stream enciphers: the initial block counted up as one 128-bit integer. */
  function CounterAt(block: seq<byte>, j: nat): (b: seq<byte>)
    ensures |b| == 16
  {
    ToBE((BE(block) + j) % (P64 * P64), 16)
  }

  /** A presentation: for each ABR variant, its tracks. */
  type Ladder = seq<seq<MediaTrack>>

  /** What validate, cencPreflight and cencVariantsFit accept for a 'cenc' ladder. */
  ghost predicate Accepted(o: Options, ladder: Ladder) {
    && !o.cbcs && ValidIV(o) && CencVariantsFit(o, |ladder|)
    && forall v :: 0 <= v < |ladder| ==> DistinctDomains(ladder[v])
  }

  /** As much of Accepted as keeps samples apart: the room the counter has plays no part in it. */
  ghost predicate Separated(o: Options, ladder: Ladder) {
    && !o.cbcs && (|o.iv| == 8 || |o.iv| == 16) && |ladder| <= MAX_VARIANTS
    && forall v :: 0 <= v < |ladder| ==> DistinctDomains(ladder[v])
  }

  lemma AcceptedIsSeparated(o: Options, ladder: Ladder)
    requires Accepted(o, ladder)
    ensures Separated(o, ladder)
  {
  }

  /** Where a sample comes from. */
  datatype Place = Place(variant: nat, track: nat, srcOff: nat)

  predicate InLadder(ladder: Ladder, p: Place) {
    p.variant < |ladder| && p.track < |ladder[p.variant]| && OffsetAccepted(p.srcOff)
  }

  /** The j-th counter block used for the sample at p. */
  function SampleCounter(o: Options, ladder: Ladder, p: Place, j: nat): seq<byte>
    requires (|o.iv| == 8 || |o.iv| == 16) && InLadder(ladder, p)
  {
    CounterAt(CounterBlock(AddHigh(VariantIV(o.iv, p.variant), p.srcOff + Domain(ladder[p.variant][p.track]))), j)
  }

  /** What a place adds to the base IV: offset, variant and domain in disjoint digits. */
  function Added(ladder: Ladder, p: Place): nat
    requires InLadder(ladder, p)
  {
    p.variant * P48 + (p.srcOff + Domain(ladder[p.variant][p.track]))
  }

  lemma HighOfSum(iv: seq<byte>, v: nat)
    requires |iv| >= 8
    ensures BE(AddHigh(iv, v)[..8]) == (BE(iv[..8]) + v) % P64
    ensures AddHigh(iv, v)[8..] == iv[8..]
  {
    var high := ToBE((BE(iv[..8]) + v) % P64, 8);
    Powers();
    BEOfToBE((BE(iv[..8]) + v) % P64, 8);
    Seqs.Split(high, iv[8..]);
  }

  /** The variant's offset and the sample's add up before the wrap. */
  lemma HighOfSample(iv: seq<byte>, i: nat, v: nat)
    requires |iv| >= 8
    ensures var r := AddHigh(VariantIV(iv, i), v);
      BE(r[..8]) == (BE(iv[..8]) + (i * P48 + v)) % P64 && r[8..] == iv[8..]
  {
    HighOfSum(VariantIV(iv, i), v);
    if i != 0 {
      HighOfSum(iv, i * P48);
      AddMod(v, BE(iv[..8]) + i * P48, P64);
    }
  }

  function Low(iv: seq<byte>): nat
    requires |iv| == 8 || |iv| == 16
  {
    if |iv| == 16 then BE(iv[8..]) else 0
  }

  lemma BlockSplits(iv: seq<byte>)
    requires |iv| == 8 || |iv| == 16
    ensures BE(CounterBlock(iv)) == BE(iv[..8]) * P64 + Low(iv) && BE(iv[..8]) < P64 && Low(iv) < P64
  {
    Powers();
    BEOfToBE(0, 8);
    BEBound(iv[..8]);
    BEBound(iv[8..]);
    var low := if |iv| == 16 then iv[8..] else ToBE(0, 8);
    assert CounterBlock(iv) == iv[..8] + low;
    BEAppend(iv[..8], low);
  }

  /** The digits: two places that add the same to the base, mod 2^64, are the same. */
  lemma AddedInjective(ladder: Ladder, p: Place, q: Place)
    requires InLadder(ladder, p) && InLadder(ladder, q) && |ladder| <= MAX_VARIANTS
    requires forall v :: 0 <= v < |ladder| ==> DistinctDomains(ladder[v])
    requires Added(ladder, p) % P64 == Added(ladder, q) % P64
    ensures p == q
  {
    AddedBound(ladder, p);
    AddedBound(ladder, q);
    ModSmall(Added(ladder, p), P64);
    ModSmall(Added(ladder, q), P64);
    var tp, tq := ladder[p.variant][p.track], ladder[q.variant][q.track];
    Digits(DomainByte(tp), p.variant, p.srcOff, DomainByte(tq), q.variant, q.srcOff);
    SameTrack(ladder[p.variant], p.track, q.track);
  }

  lemma SameTrack(media: seq<MediaTrack>, i: nat, j: nat)
    requires i < |media| && j < |media| && DistinctDomains(media) && Domain(media[i]) == Domain(media[j])
    ensures i == j
  {
  }

  lemma Digits(d: nat, v: nat, s: nat, d': nat, v': nat, s': nat)
    requires s < P48 && s' < P48 && v < 256 && v' < 256
    requires v * P48 + s + d * P56 == v' * P48 + s' + d' * P56
    ensures d == d' && v == v' && s == s'
  {
  }

  lemma AddedBound(ladder: Ladder, p: Place)
    requires InLadder(ladder, p) && |ladder| <= MAX_VARIANTS
    ensures Added(ladder, p) < P64
  {
  }

  lemma SameModSame(base: nat, a: nat, b: nat, m: nat)
    requires a < m && b < m && (base + a) % m == (base + b) % m
    ensures a == b
  {
    var qa, qb := (base + a) / m, (base + b) / m;
    assert base + a == m * qa + (base + a) % m && base + b == m * qb + (base + b) % m;
    if qa < qb { MulLe(qa + 1, qb, m); }
    if qb < qa { MulLe(qb + 1, qa, m); }
  }

  /** The j-th counter of a sample as a number: the base's, moved by what the place adds and by j. */
  lemma CounterValue(o: Options, ladder: Ladder, p: Place, j: nat)
    requires Separated(o, ladder) && InLadder(ladder, p) && j < P64
    ensures BE(SampleCounter(o, ladder, p, j))
         == (BE(o.iv[..8]) * P64 + Low(o.iv) + (Added(ladder, p) * P64 + j)) % (P64 * P64)
  {
    SampleBlockValue(o.iv, p.variant, p.srcOff + Domain(ladder[p.variant][p.track]));
    CounterAtValue(CounterBlock(AddHigh(VariantIV(o.iv, p.variant), p.srcOff + Domain(ladder[p.variant][p.track]))), j);
    WrapCounter(BE(o.iv[..8]), Added(ladder, p), Low(o.iv), j);
  }

  lemma WrapCounter(h: nat, a: nat, l: nat, j: nat)
    ensures ((h + a) % P64 * P64 + l + j) % (P64 * P64) == (h * P64 + l + (a * P64 + j)) % (P64 * P64)
  {
    WrapHigh(h + a, l + j);
    Distribute(h, a, P64);
  }

  lemma SampleBlockValue(base: seq<byte>, variant: nat, v: nat)
    requires |base| == 8 || |base| == 16
    ensures BE(CounterBlock(AddHigh(VariantIV(base, variant), v))) == (BE(base[..8]) + (variant * P48 + v)) % P64 * P64 + Low(base)
  {
    HighOfSample(base, variant, v);
    BlockSplits(AddHigh(VariantIV(base, variant), v));
  }

  lemma {:induction false} CounterAtValue(block: seq<byte>, j: nat)
    ensures BE(CounterAt(block, j)) == (BE(block) + j) % (P64 * P64)
  {
    Powers();
    BEOfToBE((BE(block) + j) % (P64 * P64), 16);
  }

  lemma WrapHigh(h: nat, rest: nat)
    ensures ((h % P64) * P64 + rest) % (P64 * P64) == (h * P64 + rest) % (P64 * P64)
  {
    AddMod(rest, h * P64, P64 * P64);
    DivModIs(h * P64, h / P64, (h % P64) * P64, P64 * P64);
  }

  /** No shared keystream: across the samples of a presentation whose variants and track domains are separated as
      cencVariantsFit and cencPreflight demand, no AES-CTR counter block is ever used twice. */
  lemma NoSharedKeystream(o: Options, ladder: Ladder, p: Place, j: nat, q: Place, k: nat)
    requires Separated(o, ladder) && InLadder(ladder, p) && InLadder(ladder, q)
    requires j < P64 && k < P64
    requires p != q || j != k
    ensures SampleCounter(o, ladder, p, j) != SampleCounter(o, ladder, q, k)
  {
    CounterValue(o, ladder, p, j);
    CounterValue(o, ladder, q, k);
    AddedBound(ladder, p);
    AddedBound(ladder, q);
    var a, b := Added(ladder, p) * P64 + j, Added(ladder, q) * P64 + k;
    if SampleCounter(o, ladder, p, j) == SampleCounter(o, ladder, q, k) {
      SameModSame(BE(o.iv[..8]) * P64 + Low(o.iv), a, b, P64 * P64);
      SameHalves(Added(ladder, p), j, Added(ladder, q), k);
      AddedInjective(ladder, p, q);
    }
  }

  lemma SameHalves(h: nat, l: nat, h': nat, l': nat)
    requires l < P64 && l' < P64 && h * P64 + l == h' * P64 + l'
    ensures h == h' && l == l'
  {
  }

  /** What the counter-room rule of validate buys: a sample of up to 2^32 blocks keeps its high half, so a reader that
      counts in the low 8 bytes alone meets the same blocks, if and only if the low half leaves that room. */
  lemma CounterRoom(iv: seq<byte>)
    requires |iv| == 16
    ensures (forall j: nat :: j < P32 ==> KeepsHigh(iv, j)) <==> BE(iv[8..]) <= P64 - P32
  {
    forall j: nat | j < P32 ensures KeepsHigh(iv, j) <==> Low(iv) + j < P64 {
      CarriesWhen(iv, j);
    }
    if BE(iv[8..]) > P64 - P32 {
      assert !KeepsHigh(iv, P32 - 1);
    }
  }

  predicate KeepsHigh(iv: seq<byte>, j: nat)
    requires |iv| == 16
  {
    BE(CounterAt(iv, j)) / P64 == BE(iv[..8])
  }

  lemma CarriesWhen(iv: seq<byte>, j: nat)
    requires |iv| == 16 && j < P32
    ensures KeepsHigh(iv, j) <==> Low(iv) + j < P64
  {
    BlockSplits(iv);
    Powers();
    BEOfToBE((BE(iv) + j) % (P64 * P64), 16);
    HighHalf(BE(iv[..8]), Low(iv) + j);
  }

  lemma HighHalf(h: nat, l: nat)
    requires h < P64 && l < 2 * P64 - 1
    ensures ((h * P64 + l) % (P64 * P64)) / P64 == h <==> l < P64
  {
    if l < P64 {
      ModSmall(h * P64 + l, P64 * P64);
      DivModIs(h * P64 + l, h, l, P64);
    } else if h + 1 < P64 {
      ModSmall(h * P64 + l, P64 * P64);
      DivModIs(h * P64 + l, h + 1, l - P64, P64);
    } else {
      DivModIs(h * P64 + l, 1, l - P64, P64 * P64);
      DivModIs(l - P64, 0, l - P64, P64);
    }
  }

  /** The variant limit is exact: a 257th variant's video meets the first variant's audio. */
  lemma OneVariantTooMany(iv: seq<byte>, srcOff: nat)
    requires |iv| >= 8
    ensures AddHigh(VariantIV(iv, MAX_VARIANTS), srcOff + Domain(MediaTrack(true, 1)))
         == AddHigh(VariantIV(iv, 0), srcOff + Domain(MediaTrack(false, 255)))
  {
    var a, b := AddHigh(VariantIV(iv, MAX_VARIANTS), srcOff), AddHigh(iv, srcOff + P56);
    HighOfSample(iv, MAX_VARIANTS, srcOff);
    HighOfSum(iv, srcOff + P56);
    SameValueSameBytes(a[..8], b[..8]);
    assert a == a[..8] + a[8..] && b == b[..8] + b[8..];
  }
}
