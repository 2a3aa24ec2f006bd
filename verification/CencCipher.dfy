/** Sample encryption under Common Encryption (mp4/cenc.go): AES-CTR over a sample's protected bytes ('cenc'), AES-CBC in
    a crypt:skip pattern ('cbcs'), both in place and both undone by a decryptor. */
module CencCipher {
  import opened Arith
  import opened Bytes
  import opened Subsamples
  import CencIv
  import Seqs

  // ---- exclusive or, bit by bit ----

  function XorBits(a: nat, b: nat, n: nat): (r: nat)
    ensures r < Pow2(n)
  {
    if n == 0 then 0 else (a + b) % 2 + 2 * XorBits(a / 2, b / 2, n - 1)
  }

  lemma {:induction false} XorBitsTwice(a: nat, b: nat, n: nat)
    requires a < Pow2(n)
    ensures XorBits(XorBits(a, b, n), b, n) == a
  {
    if n > 0 {
      XorBitsTwice(a / 2, b / 2, n - 1);
      BitTwice(a, b, XorBits(a / 2, b / 2, n - 1));
    }
  }

  lemma BitTwice(a: nat, b: nat, h: nat)
    ensures var r := (a + b) % 2 + 2 * h; r / 2 == h && (r + b) % 2 == a % 2
  {
  }

  lemma Pow2Of8()
    ensures Pow2(8) == 256
  {
    assert Pow2(4) == 16;
  }

  function Xor(a: byte, b: byte): byte {
    Pow2Of8();
    XorBits(a, b, 8)
  }

  lemma XorTwice(a: byte, b: byte)
    ensures Xor(Xor(a, b), b) == a
  {
    Pow2Of8();
    XorBitsTwice(a, b, 8);
  }

  // ---- AES-CTR ----

  /** A block cipher in one direction: blocks (of 16 bytes, as AES's) to blocks. */
  ghost predicate Blockwise(e: seq<byte> -> seq<byte>) {
    forall b: seq<byte> :: |b| == 16 ==> |e(b)| == 16
  }

  /** Byte p of the keystream from an initial counter block. */
  function StreamByte(e: seq<byte> -> seq<byte>, counter: seq<byte>, p: nat): byte {
    var block := e(CencIv.CounterAt(counter, p / 16));
    if p % 16 < |block| then block[p % 16] else 0
  }

  /** The keystream from an initial counter block, byte by byte. */
  function StreamOf(e: seq<byte> -> seq<byte>, counter: seq<byte>): nat -> byte { (p: nat) => StreamByte(e, counter, p) }

  /** Byte i is protected. */
  predicate Protects(mask: seq<bool>, i: nat) { i < |mask| && mask[i] }

  /** What 'cenc' makes of byte i: a protected byte meets the keystream byte of its rank among the protected ones, whatever
      clear bytes lie between; every other byte stays. */
  function CtrByte(stream: nat -> byte, data: seq<byte>, mask: seq<bool>, i: nat): byte
    requires i < |data|
  {
    if Protects(mask, i) then Xor(data[i], stream(Rank(mask, i))) else data[i]
  }

  function Ctr(stream: nat -> byte, data: seq<byte>, mask: seq<bool>): (r: seq<byte>)
    ensures |r| == |data|
  {
    seq(|data|, i requires 0 <= i < |data| => CtrByte(stream, data, mask, i))
  }

  /** XORs the next keystream bytes over sample[from..to], `used` of them consumed before. */
  method XorKeyStream(stream: nat -> byte, used: nat, sample: array<byte>, from: nat, to: nat)
    requires from <= to <= sample.Length
    modifies sample
    ensures forall x {:trigger sample[x]} :: 0 <= x < sample.Length ==>
      sample[x] == if from <= x < to then Xor(old(sample[x]), stream(used + (x - from))) else old(sample[x])
  {
    for i := from to to
      invariant forall x {:trigger sample[x]} :: 0 <= x < sample.Length ==>
        sample[x] == if from <= x < i then Xor(old(sample[x]), stream(used + (x - from))) else old(sample[x])
    {
      sample[i] := Xor(sample[i], stream(used + (i - from)));
    }
  }

  /** Encrypts the sample in place, one continuous keystream across its subsamples; no subsample list means the whole
      sample is protected. */
  method CencCTREncrypt(e: seq<byte> -> seq<byte>, counter: seq<byte>, sample: array<byte>, subs: Option<seq<Subsample>>)
    requires subs.Some? ==> Total(subs.value) <= sample.Length
    modifies sample
    ensures sample[..] == Ctr(StreamOf(e, counter), old(sample[..]), MaskOf(subs, sample.Length))
  {
    var stream := StreamOf(e, counter);
    match subs
    case None =>
      XorKeyStream(stream, 0, sample, 0, sample.Length);
      forall i: nat | i < sample.Length ensures Rank(Run(true, sample.Length), i) == i {
        RankRun(true, sample.Length, i);
      }
    case Some(list) =>
      EncryptRuns(stream, sample, list);
  }

  /** The first pos bytes are as 'cenc' leaves them, the others untouched. */
  ghost predicate CtrUpTo(stream: nat -> byte, data: seq<byte>, mask: seq<bool>, now: seq<byte>, pos: nat) {
    && |now| == |data|
    && forall x: nat {:trigger now[x]} :: x < |now| ==> now[x] == if x < pos then CtrByte(stream, data, mask, x) else data[x]
  }

  /** Bytes pos..to are one subsample of the mask, protected from `from` on, with `used` protected bytes before it. */
  ghost predicate Stretch(mask: seq<bool>, pos: nat, from: nat, to: nat, used: nat) {
    && pos <= from <= to <= |mask| && Rank(mask, pos) == used && Rank(mask, to) == used + (to - from)
    && (forall x: nat {:trigger mask[x]} :: pos <= x < to ==> mask[x] == (x >= from))
    && (forall x: nat {:trigger Rank(mask, x)} :: from <= x < to ==> Rank(mask, x) == used + (x - from))
  }

  lemma {:induction false} SubsampleStretch(list: seq<Subsample>, k: nat, used: nat)
    requires k < |list|
    requires Total(list[..k]) <= |Mask(list)| && used == Rank(Mask(list), Total(list[..k]))
    ensures var pos := Total(list[..k]); var from := pos + list[k].clear; var to := from + list[k].protected;
      Stretch(Mask(list), pos, from, to, used) && to == Total(list[..k+1]) && |Mask(list)| == Total(list)
  {
    SubsampleCovers(list, k);
  }

  lemma CtrLands(stream: nat -> byte, data: seq<byte>, mask: seq<bool>, pos: nat, from: nat, to: nat,
                 before: seq<byte>, after: seq<byte>, used: nat)
    requires Stretch(mask, pos, from, to, used) && |mask| <= |data|
    requires CtrUpTo(stream, data, mask, before, pos) && |after| == |before|
    requires forall x: nat {:trigger after[x]} :: x < |after| ==>
        after[x] == if from <= x < to then Xor(before[x], stream(used + (x - from))) else before[x]
    ensures CtrUpTo(stream, data, mask, after, to)
  {
  }

  method EncryptRuns(stream: nat -> byte, sample: array<byte>, list: seq<Subsample>)
    requires Total(list) <= sample.Length
    modifies sample
    ensures sample[..] == Ctr(stream, old(sample[..]), Mask(list))
  {
    var pos: nat, used: nat := 0, 0;
    ghost var mask, data := Mask(list), sample[..];
    MaskLength(list);
    for k := 0 to |list|
      invariant pos == Total(list[..k]) <= |mask| && used == Rank(mask, pos)
      invariant CtrUpTo(stream, data, mask, sample[..], pos)
    {
      SubsampleStretch(list, k, used);
      pos, used := EncryptRun(stream, sample, mask, data, list[k], pos, used);
    }
    assert list[..|list|] == list;
  }

  /** One subsample: its clear bytes are passed over, its protected ones meet the keystream where it was left. */
  method EncryptRun(stream: nat -> byte, sample: array<byte>, ghost mask: seq<bool>, ghost data: seq<byte>, s: Subsample, pos: nat, used: nat)
    returns (pos': nat, used': nat)
    requires Stretch(mask, pos, pos + s.clear, pos + s.clear + s.protected, used) && |mask| <= |data|
    requires CtrUpTo(stream, data, mask, sample[..], pos)
    modifies sample
    ensures pos' == pos + s.clear + s.protected && used' == used + s.protected
    ensures CtrUpTo(stream, data, mask, sample[..], pos')
  {
    ghost var before := sample[..];
    pos', used' := pos + s.clear, used;
    if s.protected > 0 {
      XorKeyStream(stream, used, sample, pos', pos' + s.protected);
      pos', used' := pos' + s.protected, used + s.protected;
    }
    CtrLands(stream, data, mask, pos, pos + s.clear, pos', before, sample[..], used);
  }

  function MaskOf(subs: Option<seq<Subsample>>, n: nat): seq<bool> {
    match subs
    case None => Run(true, n)
    case Some(list) => Mask(list)
  }

  /** CTR decrypts by encrypting again, under any layout. */
  lemma CtrTwice(stream: nat -> byte, data: seq<byte>, mask: seq<bool>)
    ensures Ctr(stream, Ctr(stream, data, mask), mask) == data
  {
    var once := Ctr(stream, data, mask);
    forall i: nat | i < |data| ensures CtrByte(stream, once, mask, i) == data[i] {
      assert once[i] == CtrByte(stream, data, mask, i);
      if Protects(mask, i) { XorTwice(data[i], stream(Rank(mask, i))); }
    }
  }

  // ---- AES-CBC in a pattern ----

  function XorBlock(a: seq<byte>, b: seq<byte>): (r: seq<byte>)
    requires |a| == |b|
    ensures |r| == |a|
  {
    seq(|a|, i requires 0 <= i < |a| => Xor(a[i], b[i]))
  }

  lemma XorBlockTwice(a: seq<byte>, b: seq<byte>)
    requires |a| == |b|
    ensures XorBlock(XorBlock(a, b), b) == a
  {
    forall i | 0 <= i < |a| ensures XorBlock(XorBlock(a, b), b)[i] == a[i] {
      XorTwice(a[i], b[i]);
    }
  }

  /** Whether block b of a region falls in a crypt run of the crypt:skip pattern. */
  predicate InCryptRun(b: nat, crypt: nat, skip: nat) {
    crypt > 0 && (skip == 0 || b % (crypt + skip) < crypt)
  }

  /** The pattern as the set of blocks it encrypts. */
  function PatternOf(crypt: nat, skip: nat): nat -> bool { (b: nat) => InCryptRun(b, crypt, skip) }

  /** A region from its block b on: crypt blocks chained one to the next across skip runs, the others untouched, and so
      a trailing partial block. */
  function Cbc(e: seq<byte> -> seq<byte>, chain: seq<byte>, region: seq<byte>, b: nat, p: nat -> bool): seq<byte>
    requires Blockwise(e) && |chain| == 16
    decreases |region|
  {
    if |region| < 16 then region
    else if p(b) then
      var out := e(XorBlock(region[..16], chain));
      out + Cbc(e, out, region[16..], b + 1, p)
    else region[..16] + Cbc(e, chain, region[16..], b + 1, p)
  }

  /** The decryptor: the same walk, each crypt block deciphered and XORed with the ciphertext before it. */
  function CbcDecrypt(d: seq<byte> -> seq<byte>, chain: seq<byte>, region: seq<byte>, b: nat, p: nat -> bool): seq<byte>
    requires Blockwise(d) && |chain| == 16
    decreases |region|
  {
    if |region| < 16 then region
    else if p(b) then
      XorBlock(d(region[..16]), chain) + CbcDecrypt(d, region[..16], region[16..], b + 1, p)
    else region[..16] + CbcDecrypt(d, chain, region[16..], b + 1, p)
  }

  /** d undoes e on blocks. */
  ghost predicate Inverse(e: seq<byte> -> seq<byte>, d: seq<byte> -> seq<byte>) {
    forall b: seq<byte> :: |b| == 16 ==> d(e(b)) == b
  }

  lemma {:induction false} CbcLength(e: seq<byte> -> seq<byte>, chain: seq<byte>, region: seq<byte>, b: nat, p: nat -> bool)
    requires Blockwise(e) && |chain| == 16
    ensures |Cbc(e, chain, region, b, p)| == |region|
    decreases |region|
  {
    if |region| >= 16 {
      if p(b) {
        CbcLength(e, e(XorBlock(region[..16], chain)), region[16..], b + 1, p);
      } else {
        CbcLength(e, chain, region[16..], b + 1, p);
      }
    }
  }

  /** Pattern encryption is undone by the decryptor, whatever the block bijection and the pattern. */
  lemma {:induction false} CbcRoundTrip(e: seq<byte> -> seq<byte>, d: seq<byte> -> seq<byte>, chain: seq<byte>, region: seq<byte>, b: nat, p: nat -> bool)
    requires Blockwise(e) && Blockwise(d) && Inverse(e, d) && |chain| == 16
    ensures CbcDecrypt(d, chain, Cbc(e, chain, region, b, p), b, p) == region
    decreases |region|
  {
    if |region| >= 16 {
      var blk, rest := region[..16], region[16..];
      if p(b) {
        var out := e(XorBlock(blk, chain));
        CbcRoundTrip(e, d, out, rest, b + 1, p);
        Seqs.Split(out, Cbc(e, out, rest, b + 1, p));
        XorBlockTwice(blk, chain);
      } else {
        CbcRoundTrip(e, d, chain, rest, b + 1, p);
        Seqs.Split(blk, Cbc(e, chain, rest, b + 1, p));
      }
      assert region == blk + rest;
    }
  }

  /** Skipped blocks and a trailing partial block never change. */
  lemma {:induction false} CbcSkips(e: seq<byte> -> seq<byte>, chain: seq<byte>, region: seq<byte>, b: nat, p: nat -> bool, i: nat)
    requires Blockwise(e) && |chain| == 16 && i < |region|
    requires !p(b + i / 16) || i >= |region| / 16 * 16
    ensures |Cbc(e, chain, region, b, p)| == |region|
    ensures Cbc(e, chain, region, b, p)[i] == region[i]
    decreases |region|
  {
    CbcLength(e, chain, region, b, p);
    if |region| >= 16 {
      var chain' := if p(b) then e(XorBlock(region[..16], chain)) else chain;
      if i >= 16 {
        assert (i - 16) / 16 == i / 16 - 1 && (|region| - 16) / 16 == |region| / 16 - 1;
        CbcSkips(e, chain', region[16..], b + 1, p, i - 16);
      }
    }
  }

  // ---- the pattern in place ----

  /** The first pos bytes of a[lo..hi] are encrypted and chained; the rest, from block b on, is still to go. */
  ghost predicate CbcSoFar(e: seq<byte> -> seq<byte>, iv: seq<byte>, region: seq<byte>, p: nat -> bool,
                           now: seq<byte>, chain: seq<byte>, pos: nat, b: nat)
    requires Blockwise(e) && |iv| == 16
  {
    && |chain| == 16 && pos <= |region| == |now| && pos == b * 16
    && now[pos..] == region[pos..]
    && now[..pos] + Cbc(e, chain, region[pos..], b, p) == Cbc(e, iv, region, 0, p)
  }

  lemma CbcCryptStep(e: seq<byte> -> seq<byte>, iv: seq<byte>, region: seq<byte>, p: nat -> bool,
                     now: seq<byte>, chain: seq<byte>, pos: nat, b: nat)
    requires Blockwise(e) && |iv| == 16 && CbcSoFar(e, iv, region, p, now, chain, pos, b)
    requires pos + 16 <= |region| && p(b)
    ensures var out := e(XorBlock(now[pos..pos + 16], chain));
      |out| == 16 && CbcSoFar(e, iv, region, p, now[..pos] + out + now[pos + 16..], out, pos + 16, b + 1)
  {
    var out := e(XorBlock(now[pos..pos + 16], chain));
    Seqs.DropDrop(now, pos, 16);
    Seqs.DropDrop(region, pos, 16);
    var tail := Cbc(e, out, region[pos + 16..], b + 1, p);
    Seqs.Assoc(now[..pos], out, tail);
    Seqs.Split(now[..pos] + out, now[pos + 16..]);
  }

  lemma CbcSkipStep(e: seq<byte> -> seq<byte>, iv: seq<byte>, region: seq<byte>, p: nat -> bool,
                    now: seq<byte>, chain: seq<byte>, pos: nat, b: nat)
    requires Blockwise(e) && |iv| == 16 && CbcSoFar(e, iv, region, p, now, chain, pos, b)
    requires pos + 16 <= |region| && !p(b)
    ensures CbcSoFar(e, iv, region, p, now, chain, pos + 16, b + 1)
  {
    Seqs.DropDrop(now, pos, 16);
    Seqs.DropDrop(region, pos, 16);
    var tail := Cbc(e, chain, region[pos + 16..], b + 1, p);
    Seqs.Assoc(now[..pos], region[pos..pos + 16], tail);
    assert now[..pos + 16] == now[..pos] + now[pos..pos + 16];
  }

  ghost predicate AllInCrypt(p: nat -> bool, from: nat, to: nat) {
    forall x: nat :: from <= x < to ==> p(x)
  }

  ghost predicate NoneInCrypt(p: nat -> bool, from: nat, to: nat) {
    forall x: nat :: from <= x < to ==> !p(x)
  }

  /** A region part-way through: its bytes, and the ciphertext the next crypt block is chained to. */
  datatype Progress = Progress(now: seq<byte>, chain: seq<byte>)

  /** The region after its first b blocks, of which p tells the crypt ones. */
  ghost function After(e: seq<byte> -> seq<byte>, iv: seq<byte>, region: seq<byte>, p: nat -> bool, b: nat): (r: Progress)
    requires Blockwise(e) && |iv| == 16 && b * 16 <= |region|
    ensures |r.now| == |region| && |r.chain| == 16
  {
    if b == 0 then Progress(region, iv)
    else
      var r := After(e, iv, region, p, b - 1);
      if p(b - 1) then CryptAt(e, r, (b - 1) * 16) else r
  }

  /** One block of CBC at byte `at`: XOR with the chain, encipher, and the result is the next chain. */
  ghost function CryptAt(e: seq<byte> -> seq<byte>, r: Progress, at: nat): (r': Progress)
    requires Blockwise(e) && |r.chain| == 16 && at + 16 <= |r.now|
    ensures |r'.now| == |r.now| && |r'.chain| == 16
  {
    var out := e(XorBlock(r.now[at..at + 16], r.chain));
    Progress(r.now[..at] + out + r.now[at + 16..], out)
  }

  /** after(b) is the region after b blocks. */
  ghost predicate Proceeds(e: seq<byte> -> seq<byte>, p: nat -> bool, after: nat -> Progress, full: nat) {
    forall b: nat {:trigger p(b)} :: b < full ==>
      && |after(b).chain| == 16 && (b + 1) * 16 <= |after(b).now|
      && after(b + 1) == if p(b) && Blockwise(e) then CryptAt(e, after(b), b * 16) else after(b)
  }

  /** The progress of a region, as a function of the blocks done. */
  ghost function ProgressOf(e: seq<byte> -> seq<byte>, iv: seq<byte>, region: seq<byte>, p: nat -> bool): nat -> Progress
    requires Blockwise(e) && |iv| == 16
  {
    (b: nat) => if b * 16 <= |region| then After(e, iv, region, p, b) else Progress([], [])
  }

  lemma ProgressProceeds(e: seq<byte> -> seq<byte>, iv: seq<byte>, region: seq<byte>, p: nat -> bool)
    requires Blockwise(e) && |iv| == 16
    ensures Proceeds(e, p, ProgressOf(e, iv, region, p), |region| / 16)
  {
  }

  /** Blocks outside every crypt run pass through. */
  lemma {:induction false} SkipRun(e: seq<byte> -> seq<byte>, p: nat -> bool, after: nat -> Progress, full: nat, b: nat, b': nat)
    requires Proceeds(e, p, after, full) && b <= b' <= full && NoneInCrypt(p, b, b')
    ensures after(b') == after(b)
    decreases b'
  {
    if b < b' {
      SkipRun(e, p, after, full, b, b' - 1);
      assert !p(b' - 1);
    }
  }

  /** What is done after b blocks, with the rest of the region enciphered from there, is the whole region enciphered. */
  lemma {:induction false} AfterIsSoFar(e: seq<byte> -> seq<byte>, iv: seq<byte>, region: seq<byte>, p: nat -> bool,
                                        after: nat -> Progress, full: nat, b: nat)
    requires Blockwise(e) && |iv| == 16 && Proceeds(e, p, after, full) && b <= full == |region| / 16 && after(0) == Progress(region, iv)
    ensures CbcSoFar(e, iv, region, p, after(b).now, after(b).chain, b * 16, b)
  {
    if b == 0 {
      CbcStart(e, iv, region, p);
    } else {
      AfterIsSoFar(e, iv, region, p, after, full, b - 1);
      SoFarStep(e, iv, region, p, after(b - 1), b - 1);
      assert after(b) == if p(b - 1) then CryptAt(e, after(b - 1), (b - 1) * 16) else after(b - 1);
    }
  }

  lemma SoFarStep(e: seq<byte> -> seq<byte>, iv: seq<byte>, region: seq<byte>, p: nat -> bool, r: Progress, b: nat)
    requires Blockwise(e) && |iv| == 16 && b * 16 + 16 <= |region| && |r.chain| == 16 && |r.now| == |region|
    requires CbcSoFar(e, iv, region, p, r.now, r.chain, b * 16, b)
    ensures var r' := if p(b) then CryptAt(e, r, b * 16) else r;
      CbcSoFar(e, iv, region, p, r'.now, r'.chain, (b + 1) * 16, b + 1)
  {
    if p(b) {
      CbcCryptStep(e, iv, region, p, r.now, r.chain, b * 16, b);
    } else {
      CbcSkipStep(e, iv, region, p, r.now, r.chain, b * 16, b);
    }
  }

  lemma {:induction false} AfterAll(e: seq<byte> -> seq<byte>, iv: seq<byte>, region: seq<byte>, p: nat -> bool, full: nat)
    requires Blockwise(e) && |iv| == 16 && full == |region| / 16
    ensures After(e, iv, region, p, full).now == Cbc(e, iv, region, 0, p)
  {
    var r := After(e, iv, region, p, full);
    ProgressProceeds(e, iv, region, p);
    AfterIsSoFar(e, iv, region, p, ProgressOf(e, iv, region, p), full, full);
    CbcDone(e, iv, region, p, r.now, r.chain, full * 16, full);
  }

  lemma {:induction false} CbcDone(e: seq<byte> -> seq<byte>, iv: seq<byte>, region: seq<byte>, p: nat -> bool,
                now: seq<byte>, chain: seq<byte>, pos: nat, b: nat)
    requires Blockwise(e) && |iv| == 16 && CbcSoFar(e, iv, region, p, now, chain, pos, b)
    requires |region| - pos < 16
    ensures now == Cbc(e, iv, region, 0, p)
  {
    assert now == now[..pos] + now[pos..];
  }

  /** A period of the pattern from block b on: its crypt run, its skip run, and the next period. */
  lemma Period(b: nat, crypt: nat, skip: nat)
    requires skip > 0 && b % (crypt + skip) == 0
    ensures AllInCrypt(PatternOf(crypt, skip), b, b + crypt)
    ensures NoneInCrypt(PatternOf(crypt, skip), b + crypt, b + crypt + skip)
    ensures (b + crypt + skip) % (crypt + skip) == 0
  {
    var m := crypt + skip;
    forall x: nat | b <= x < b + m ensures x % m == x - b {
      DivModIs(x, b / m, x - b, m);
    }
    Distribute(b / m, 1, m);
    DivModIs(b + m, b / m + 1, 0, m);
  }

  /** Enciphers blocks b0..b1 of the region that opens at lo. */
  method CryptRun(e: seq<byte> -> seq<byte>, ghost p: nat -> bool, ghost after: nat -> Progress, full: nat,
                  a: array<byte>, ghost pre: seq<byte>, ghost post: seq<byte>, lo: nat, chain0: seq<byte>, b0: nat, b1: nat)
    returns (chain: seq<byte>)
    requires Blockwise(e) && Proceeds(e, p, after, full) && b0 <= b1 <= full && AllInCrypt(p, b0, b1)
    requires |pre| == lo && a[..] == pre + after(b0).now + post && chain0 == after(b0).chain
    modifies a
    ensures a[..] == pre + after(b1).now + post && chain == after(b1).chain
  {
    chain := chain0;
    for b := b0 to b1
      invariant a[..] == pre + after(b).now + post && chain == after(b).chain
    {
      assert p(b);
      chain := EncryptBlock(e, a, pre, after(b), post, chain, lo + b * 16, b * 16);
    }
  }

  lemma BlockOf(all: seq<byte>, pre: seq<byte>, now: seq<byte>, post: seq<byte>, at: nat)
    requires all == pre + now + post && at + 16 <= |now|
    ensures |pre| + at + 16 <= |all| && all[|pre| + at..|pre| + at + 16] == now[at..at + 16]
  {
  }

  lemma BlockLands(before: seq<byte>, after: seq<byte>, pre: seq<byte>, now: seq<byte>, post: seq<byte>, at: nat, out: seq<byte>)
    requires before == pre + now + post && at + 16 <= |now| && |out| == 16
    requires after == before[..|pre| + at] + out + before[|pre| + at + 16..]
    ensures after == pre + (now[..at] + out + now[at + 16..]) + post
  {
    assert before[..|pre| + at] == pre + now[..at];
    assert before[|pre| + at + 16..] == now[at + 16..] + post;
  }

  /** The block at byte `at` of the region, in place. */
  method EncryptBlock(e: seq<byte> -> seq<byte>, a: array<byte>, ghost pre: seq<byte>, ghost r: Progress, ghost post: seq<byte>,
                      chain: seq<byte>, i: nat, ghost at: nat) returns (next: seq<byte>)
    requires Blockwise(e) && |chain| == 16 && chain == r.chain && a[..] == pre + r.now + post
    requires at + 16 <= |r.now| && i == |pre| + at
    modifies a
    ensures a[..] == pre + CryptAt(e, r, at).now + post && next == CryptAt(e, r, at).chain
  {
    ghost var before := a[..];
    BlockOf(before, pre, r.now, post, at);
    assert a[i..i + 16] == before[i..i + 16];
    next := e(XorBlock(a[i..i + 16], chain));
    WriteBlock(a, i, next);
    BlockLands(before, a[..], pre, r.now, post, at, next);
  }

  method WriteBlock(a: array<byte>, at: nat, block: seq<byte>)
    requires |block| == 16 && at + 16 <= a.Length
    modifies a
    ensures a[..] == old(a[..at]) + block + old(a[at + 16..])
  {
    for i := 0 to 16
      invariant forall x {:trigger a[x]} :: 0 <= x < a.Length ==> a[x] == if at <= x < at + i then block[x - at] else old(a[x])
    {
      a[at + i] := block[i];
    }
  }

  /** Encrypts the region a[lo..hi] in place under the crypt:skip pattern, CBC restarting from iv. */
  method CbcsPatternEncrypt(e: seq<byte> -> seq<byte>, iv: seq<byte>, a: array<byte>, lo: nat, hi: nat, crypt: nat, skip: nat)
    requires Blockwise(e) && |iv| == 16 && lo <= hi <= a.Length
    modifies a
    ensures a[..] == old(a[..lo]) + Cbc(e, iv, old(a[lo..hi]), 0, PatternOf(crypt, skip)) + old(a[hi..])
  {
    ghost var pre, region, post := a[..lo], a[lo..hi], a[hi..];
    assert a[..] == pre + region + post;
    ghost var p, full := PatternOf(crypt, skip), (hi - lo) / 16;
    ProgressProceeds(e, iv, region, p);
    PatternLoop(e, iv, ProgressOf(e, iv, region, p), (hi - lo) / 16, a, lo, pre, post, crypt, skip);
    AfterAll(e, iv, region, p, full);
  }

  /** The walk over a region's full blocks: crypt runs enciphered, skip runs passed over. */
  method PatternLoop(e: seq<byte> -> seq<byte>, iv: seq<byte>, ghost after: nat -> Progress, full: nat,
                     a: array<byte>, lo: nat, ghost pre: seq<byte>, ghost post: seq<byte>, crypt: nat, skip: nat)
    requires Blockwise(e) && Proceeds(e, PatternOf(crypt, skip), after, full)
    requires |pre| == lo && a[..] == pre + after(0).now + post && iv == after(0).chain
    modifies a
    ensures a[..] == pre + after(full).now + post
  {
    var chain := iv;
    var b := 0;
    while b < full
      invariant b <= full
      invariant skip > 0 && b < full ==> b % (crypt + skip) == 0
      invariant a[..] == pre + after(b).now + post && chain == after(b).chain
      decreases full - b
    {
      PatternRuns(b, full, crypt, skip);
      var n := crypt;
      if b + n > full {
        n := full - b;
      }
      if n > 0 {
        chain := CryptRun(e, PatternOf(crypt, skip), after, full, a, pre, post, lo, chain, b, b + n);
        b := b + n;
      }
      if skip == 0 {
        if n == 0 {
          SkipRun(e, PatternOf(crypt, skip), after, full, b, full);
          break;
        }
        continue;
      }
      var gap := skip;
      if b + gap > full {
        gap := full - b;
      }
      SkipRun(e, PatternOf(crypt, skip), after, full, b, b + gap);
      b := b + gap;
    }
  }

  /** A round of the walk from block b, each run cut short where the full blocks end. */
  lemma PatternRuns(b: nat, full: nat, crypt: nat, skip: nat)
    requires skip > 0 ==> b % (crypt + skip) == 0
    requires b < full
    ensures var p, c := PatternOf(crypt, skip), Min(b + crypt, full);
      && AllInCrypt(p, b, c)
      && (skip == 0 && crypt == 0 ==> NoneInCrypt(p, b, full))
      && (skip > 0 ==> NoneInCrypt(p, c, Min(c + skip, full)) && (c + skip < full ==> (c + skip) % (crypt + skip) == 0))
  {
    if skip > 0 { Period(b, crypt, skip); }
  }

  lemma CbcStart(e: seq<byte> -> seq<byte>, iv: seq<byte>, region: seq<byte>, p: nat -> bool)
    requires Blockwise(e) && |iv| == 16
    ensures CbcSoFar(e, iv, region, p, region, iv, 0, 0)
  {
    assert region[0..] == region && region[..0] + Cbc(e, iv, region, 0, p) == Cbc(e, iv, region, 0, p);
  }

  // ---- a video sample: the 1:9 pattern on each protected region ----

  const VIDEO_CRYPT := 1
  const VIDEO_SKIP := 9

  /** What the pattern makes of one protected region. */
  ghost function Region(e: seq<byte> -> seq<byte>, iv: seq<byte>): seq<byte> -> seq<byte>
    requires Blockwise(e) && |iv| == 16
  {
    (r: seq<byte>) => Cbc(e, iv, r, 0, PatternOf(VIDEO_CRYPT, VIDEO_SKIP))
  }

  ghost function RegionDecrypt(d: seq<byte> -> seq<byte>, iv: seq<byte>): seq<byte> -> seq<byte>
    requires Blockwise(d) && |iv| == 16
  {
    (r: seq<byte>) => CbcDecrypt(d, iv, r, 0, PatternOf(VIDEO_CRYPT, VIDEO_SKIP))
  }

  ghost predicate KeepsLength(f: seq<byte> -> seq<byte>) {
    forall r :: |f(r)| == |r|
  }

  /** One subsample of a video sample: its clear bytes, then its protected region under f. */
  ghost function VideoRun(f: seq<byte> -> seq<byte>, data: seq<byte>, pos: nat, s: Subsample): seq<byte>
    requires pos + s.clear + s.protected <= |data|
  {
    data[pos..pos + s.clear] + f(data[pos + s.clear..pos + s.clear + s.protected])
  }

  /** A video sample from byte pos on, f applied to each protected region on its own. */
  ghost function Video(f: seq<byte> -> seq<byte>, data: seq<byte>, pos: nat, subs: seq<Subsample>): seq<byte>
    requires pos + Total(subs) <= |data|
    decreases |subs|
  {
    if subs == [] then data[pos..]
    else VideoRun(f, data, pos, subs[0]) + Video(f, data, pos + subs[0].clear + subs[0].protected, subs[1..])
  }

  /** The sample's first bytes, `done`, are encrypted; rest is what is left of its layout, from byte pos. */
  ghost predicate VideoSoFar(f: seq<byte> -> seq<byte>, data: seq<byte>, whole: seq<byte>,
                             done: seq<byte>, pos: nat, rest: seq<Subsample>)
  {
    pos + Total(rest) <= |data| && |done| == pos && done + Video(f, data, pos, rest) == whole
  }

  lemma VideoStep(f: seq<byte> -> seq<byte>, data: seq<byte>, whole: seq<byte>, done: seq<byte>, pos: nat, rest: seq<Subsample>)
    requires KeepsLength(f) && rest != [] && VideoSoFar(f, data, whole, done, pos, rest)
    ensures var to := pos + rest[0].clear + rest[0].protected;
      to <= |data| && VideoSoFar(f, data, whole, done + VideoRun(f, data, pos, rest[0]), to, rest[1..])
  {
    var to := pos + rest[0].clear + rest[0].protected;
    var run, tail := VideoRun(f, data, pos, rest[0]), Video(f, data, to, rest[1..]);
    assert Video(f, data, pos, rest) == run + tail;
    Seqs.Assoc(done, run, tail);
  }

  lemma VideoRest(f: seq<byte> -> seq<byte>, data: seq<byte>, whole: seq<byte>, done: seq<byte>, pos: nat, subs: seq<Subsample>, i: nat)
    requires KeepsLength(f) && i < |subs| && VideoSoFar(f, data, whole, done, pos, subs[i..])
    ensures var to := pos + subs[i].clear + subs[i].protected;
      to <= |data| && VideoSoFar(f, data, whole, done + VideoRun(f, data, pos, subs[i]), to, subs[i+1..])
  {
    assert subs[i..][1..] == subs[i+1..] && subs[i..][0] == subs[i];
    VideoStep(f, data, whole, done, pos, subs[i..]);
  }

  lemma RegionKeepsLength(e: seq<byte> -> seq<byte>, iv: seq<byte>)
    requires Blockwise(e) && |iv| == 16
    ensures KeepsLength(Region(e, iv))
  {
    forall r: seq<byte> ensures |Region(e, iv)(r)| == |r| {
      CbcLength(e, iv, r, 0, PatternOf(VIDEO_CRYPT, VIDEO_SKIP));
    }
  }

  /** Applies the 1:9 pattern to each protected region of the sample, in place, the chain restarting from iv. */
  method CbcsEncryptVideoSubsamples(e: seq<byte> -> seq<byte>, iv: seq<byte>, sample: array<byte>, subs: seq<Subsample>)
    requires Blockwise(e) && |iv| == 16 && Total(subs) <= sample.Length
    modifies sample
    ensures sample[..] == Video(Region(e, iv), old(sample[..]), 0, subs)
  {
    ghost var data, done := sample[..], [];
    ghost var whole := Video(Region(e, iv), data, 0, subs);
    var pos: nat := 0;
    assert subs[0..] == subs && [] + whole == whole;
    for i := 0 to |subs|
      invariant VideoSoFar(Region(e, iv), data, whole, done, pos, subs[i..]) && sample[..] == done + data[pos..]
    {
      pos, done := EncryptSubsample(e, iv, sample, data, whole, done, pos, subs, i);
    }
    assert subs[|subs|..] == [];
  }

  method EncryptSubsample(e: seq<byte> -> seq<byte>, iv: seq<byte>, sample: array<byte>, ghost data: seq<byte>, ghost whole: seq<byte>,
                          ghost done: seq<byte>, pos: nat, subs: seq<Subsample>, i: nat) returns (pos': nat, ghost done': seq<byte>)
    requires Blockwise(e) && |iv| == 16 && i < |subs|
    requires VideoSoFar(Region(e, iv), data, whole, done, pos, subs[i..]) && sample[..] == done + data[pos..]
    modifies sample
    ensures VideoSoFar(Region(e, iv), data, whole, done', pos', subs[i+1..]) && sample[..] == done' + data[pos'..]
  {
    RegionKeepsLength(e, iv);
    VideoRest(Region(e, iv), data, whole, done, pos, subs, i);
    EncryptRegion(e, iv, sample, data, done, pos, subs[i]);
    done' := done + VideoRun(Region(e, iv), data, pos, subs[i]);
    pos' := pos + subs[i].clear + subs[i].protected;
  }

  method EncryptRegion(e: seq<byte> -> seq<byte>, iv: seq<byte>, sample: array<byte>, ghost data: seq<byte>, ghost done: seq<byte>,
                       pos: nat, s: Subsample)
    requires Blockwise(e) && |iv| == 16 && pos + s.clear + s.protected <= |data| && |done| == pos
    requires sample[..] == done + data[pos..]
    modifies sample
    ensures sample[..] == done + VideoRun(Region(e, iv), data, pos, s) + data[pos + s.clear + s.protected..]
  {
    var from, to := pos + s.clear, pos + s.clear + s.protected;
    ghost var before := sample[..];
    RegionKeepsLength(e, iv);
    assert before[from..to] == data[from..to] && |before| == |data|;
    if s.protected > 0 {
      assert sample[from..to] == before[from..to] && sample[..from] == before[..from] && sample[to..] == before[to..];
      CbcsPatternEncrypt(e, iv, sample, from, to, VIDEO_CRYPT, VIDEO_SKIP);
    }
    RegionLands(before, sample[..], data, done, pos, from, to, Region(e, iv)(data[from..to]), s.protected > 0);
  }

  lemma RegionLands(before: seq<byte>, after: seq<byte>, data: seq<byte>, done: seq<byte>, pos: nat, from: nat, to: nat, region: seq<byte>, ran: bool)
    requires |done| == pos <= from <= to <= |data| && before == done + data[pos..] && |region| == to - from
    requires if ran then after == before[..from] + region + before[to..] && before[from..to] == data[from..to]
             else after == before && from == to
    ensures after == done + (data[pos..from] + region) + data[to..]
  {
    assert before[..from] == done + data[pos..from];
    assert before[to..] == data[to..];
  }

  /** Undoing each region undoes the sample. */
  lemma {:induction false} VideoUndone(f: seq<byte> -> seq<byte>, g: seq<byte> -> seq<byte>, data: seq<byte>, cipher: seq<byte>, pos: nat, subs: seq<Subsample>)
    requires KeepsLength(f) && forall r :: g(f(r)) == r
    requires pos + Total(subs) <= |data| == |cipher| && cipher[pos..] == Video(f, data, pos, subs)
    ensures Video(g, cipher, pos, subs) == data[pos..]
    decreases |subs|
  {
    if subs != [] {
      var to := pos + subs[0].clear + subs[0].protected;
      RunUndone(f, g, data, cipher, pos, subs[0], Video(f, data, to, subs[1..]));
      VideoUndone(f, g, data, cipher, to, subs[1..]);
    }
  }

  lemma RunUndone(f: seq<byte> -> seq<byte>, g: seq<byte> -> seq<byte>, data: seq<byte>, cipher: seq<byte>, pos: nat, s: Subsample, tail: seq<byte>)
    requires KeepsLength(f) && forall r :: g(f(r)) == r
    requires pos + s.clear + s.protected <= |data| == |cipher| && cipher[pos..] == VideoRun(f, data, pos, s) + tail
    ensures var to := pos + s.clear + s.protected;
      cipher[to..] == tail && VideoRun(g, cipher, pos, s) + data[to..] == data[pos..]
  {
    var from := pos + s.clear;
    var to := from + s.protected;
    PiecesOf(cipher, pos, data[pos..from], f(data[from..to]), tail);
    assert data[pos..] == data[pos..from] + data[from..to] + data[to..];
  }

  /** What the video pattern does is undone by the decryptor reading the same subsample list. */
  lemma {:induction false} CbcsVideoRoundTrip(e: seq<byte> -> seq<byte>, d: seq<byte> -> seq<byte>, iv: seq<byte>, data: seq<byte>, subs: seq<Subsample>)
    requires Blockwise(e) && Blockwise(d) && Inverse(e, d) && |iv| == 16 && Total(subs) <= |data|
    ensures var cipher := Video(Region(e, iv), data, 0, subs);
      |cipher| == |data| && Video(RegionDecrypt(d, iv), cipher, 0, subs) == data
  {
    var f, g, cipher := Region(e, iv), RegionDecrypt(d, iv), Video(Region(e, iv), data, 0, subs);
    RegionKeepsLength(e, iv);
    VideoLength(f, data, 0, subs);
    forall r: seq<byte> ensures g(f(r)) == r {
      CbcRoundTrip(e, d, iv, r, 0, PatternOf(VIDEO_CRYPT, VIDEO_SKIP));
    }
    assert cipher[0..] == cipher && data[0..] == data;
    VideoUndone(f, g, data, cipher, 0, subs);
  }

  lemma {:induction false} VideoLength(f: seq<byte> -> seq<byte>, data: seq<byte>, pos: nat, subs: seq<Subsample>)
    requires KeepsLength(f) && pos + Total(subs) <= |data|
    ensures |Video(f, data, pos, subs)| == |data| - pos
    decreases |subs|
  {
    if subs != [] { VideoLength(f, data, pos + subs[0].clear + subs[0].protected, subs[1..]); }
  }

  lemma PiecesOf(all: seq<byte>, pos: nat, a: seq<byte>, b: seq<byte>, c: seq<byte>)
    requires pos <= |all| && all[pos..] == a + b + c
    ensures pos + |a| + |b| <= |all|
    ensures all[pos..pos + |a|] == a && all[pos + |a|..pos + |a| + |b|] == b && all[pos + |a| + |b|..] == c
  {
    var t := all[pos..];
    assert t[..|a|] == a && t[|a|..|a| + |b|] == b && t[|a| + |b|..] == c;
  }

  /** A whole audio sample: every full block, one chain, the trailing bytes clear. */
  method CbcsEncryptWholeSample(e: seq<byte> -> seq<byte>, iv: seq<byte>, sample: array<byte>)
    requires Blockwise(e) && |iv| == 16
    modifies sample
    ensures sample[..] == Cbc(e, iv, old(sample[..]), 0, PatternOf(sample.Length / 16, 0))
  {
    assert sample[0..sample.Length] == sample[..];
    CbcsPatternEncrypt(e, iv, sample, 0, sample.Length, sample.Length / 16, 0);
  }
}
