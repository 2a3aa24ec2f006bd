/** The subsample layout of an AV1 sample (mp4/cenc_av1.go): within a frame or tile-group OBU the tile data is protected in
    whole blocks, everything else stays clear. */
module CencAv1 {
  import opened Arith
  import opened Bytes
  import opened Subsamples
  import opened CencSlices

  // ---- leb128 ----

  /** The value of a varint of at most `room` groups of 7 bits, lowest first, and its length. */
  function Leb(b: seq<byte>, room: nat): (r: Result<(nat, nat)>)
    ensures r.Ok? ==> 0 < r.value.1 <= |b| && r.value.1 <= room
    decreases room
  {
    if room == 0 then Err("leb128 exceeds the 8-byte maximum")
    else if b == [] then Err("truncated leb128 in OBU size field")
    else if b[0] < 0x80 then Ok((b[0], 1))
    else
      match Leb(b[1..], room - 1)
      case Err(why) => Err(why)
      case Ok(r) => Ok((b[0] - 0x80 + 0x80 * r.0, r.1 + 1))
  }

  /** v in n groups, all but the last flagged as continued. */
  function ToLeb(v: nat, n: nat): seq<byte>
    requires n > 0
  {
    if n == 1 then [v % 0x80] else [0x80 + v % 0x80] + ToLeb(v / 0x80, n - 1)
  }

  function Pow128(n: nat): nat { if n == 0 then 1 else 0x80 * Pow128(n - 1) }

  /** Every value reads back, from its shortest form or a longer one, whatever follows. */
  lemma {:induction false} LebRoundTrip(v: nat, n: nat, room: nat, rest: seq<byte>)
    requires 0 < n <= room && v < Pow128(n)
    ensures Leb(ToLeb(v, n) + rest, room) == Ok((v, n))
    decreases n
  {
    var b := ToLeb(v, n) + rest;
    if n > 1 {
      DivLt(v, Pow128(n - 1), 0x80);
      LebRoundTrip(v / 0x80, n - 1, room - 1, rest);
      assert b[1..] == ToLeb(v / 0x80, n - 1) + rest;
    } else {
      assert Pow128(0) == 1;
    }
  }

  /** The rest of a varint behind the i groups that came to `value`. */
  function Behind(value: nat, scale: nat, i: nat, r: Result<(nat, nat)>): Result<(nat, nat)> {
    match r
    case Err(why) => Err(why)
    case Ok(v) => Ok((value + scale * v.0, i + v.1))
  }

  /** Reads a varint; the groups' bits are disjoint, so or-ing one in adds it. */
  method ReadLEB128(b: seq<byte>) returns (r: Result<(nat, nat)>)
    ensures r == Leb(b, 8)
  {
    hide Leb, Behind;
    var value: nat, scale: nat := 0, 1;
    assert b[0..] == b;
    BehindNone(b);
    for i := 0 to 8
      invariant i <= |b|
      invariant Leb(b, 8) == Behind(value, scale, i, Leb(b[i..], 8 - i))
    {
      GroupRead(value, scale, i, b[i..], 8 - i);
      if i >= |b| {
        return Err("truncated leb128 in OBU size field");
      }
      var v: nat := b[i];
      assert b[i..][1..] == b[i+1..];
      value := value + scale * (v % 0x80);
      if v < 0x80 {
        return Ok((value, i + 1));
      }
      scale := scale * 0x80;
    }
    TooManyGroups(value, scale, b[8..]);
    return Err("leb128 exceeds the 8-byte maximum");
  }

  lemma BehindNone(b: seq<byte>)
    ensures Leb(b, 8) == Behind(0, 1, 0, Leb(b, 8))
  {
  }

  lemma TooManyGroups(value: nat, scale: nat, b: seq<byte>)
    ensures Behind(value, scale, 8, Leb(b, 0)) == Err("leb128 exceeds the 8-byte maximum")
  {
  }

  /** One group read: the last when its top bit is clear. */
  lemma GroupRead(value: nat, scale: nat, i: nat, rest: seq<byte>, room: nat)
    requires room > 0
    ensures rest == [] ==> Behind(value, scale, i, Leb(rest, room)) == Err("truncated leb128 in OBU size field")
    ensures rest != [] && rest[0] < 0x80 ==> Behind(value, scale, i, Leb(rest, room)) == Ok((value + scale * (rest[0] % 0x80), i + 1))
    ensures rest != [] && rest[0] >= 0x80 ==>
      Behind(value, scale, i, Leb(rest, room)) == Behind(value + scale * (rest[0] % 0x80), scale * 0x80, i + 1, Leb(rest[1..], room - 1))
  {
    if rest != [] && rest[0] >= 0x80 {
      BehindStep(value, scale, i, rest[0], Leb(rest[1..], room - 1));
    }
  }

  lemma BehindStep(value: nat, scale: nat, i: nat, v: nat, r: Result<(nat, nat)>)
    requires v < 0x100
    ensures v >= 0x80 && r.Ok? ==>
      Behind(value, scale, i, Ok((v - 0x80 + 0x80 * r.value.0, r.value.1 + 1)))
      == Behind(value + scale * (v % 0x80), scale * 0x80, i + 1, r)
  {
    if v >= 0x80 && r.Ok? {
      ScaledUp(scale, v % 0x80, r.value.0);
    }
  }

  lemma ScaledUp(scale: nat, low: nat, high: nat)
    ensures scale * (low + 0x80 * high) == scale * low + scale * 0x80 * high
  {
    Distribute(low, 0x80 * high, scale);
    MulMul(scale, 0x80, high);
  }

  // ---- OBUs ----

  /** An OBU: its type, its layer, and how long its header and its payload are. */
  datatype Obu = Obu(kind: nat, temporal: nat, spatial: nat, head: nat, payload: nat)

  const SEQ_HEADER := 1
  const TILE_GROUP := 4
  const FRAME := 6

  /** The OBU that opens rest; only one that runs to the sample's end may leave out its size. */
  function NextObu(rest: seq<byte>): (r: Result<Obu>)
    requires rest != []
    ensures r.Ok? ==> r.value.head > 0 && r.value.head + r.value.payload <= |rest|
  {
    var h := rest[0];
    var ext := h / 4 % 2;
    var i := 1 + ext;
    if i > |rest| then Err("truncated OBU extension header")
    else
      var temporal := if ext == 1 then rest[1] / 32 else 0;
      var spatial := if ext == 1 then rest[1] / 8 % 4 else 0;
      if h / 2 % 2 == 1 then
        match Leb(rest[i..], 8)
        case Err(why) => Err(why)
        case Ok(v) =>
          if v.0 > |rest| - i - v.1 then Err("OBU payload size exceeds sample bounds")
          else Ok(Obu(h / 8 % 16, temporal, spatial, i + v.1, v.0))
      else Ok(Obu(h / 8 % 16, temporal, spatial, i, |rest| - i))
  }

  /** The OBU header parsers as arbitrary functions: the sequence header's, to the state it sets, and the frame header's
      (an error without a sequence header or with several tiles), to the state it leaves and the bits it read. */
  datatype Parsers<!S> = Parsers(sequence: (S, seq<byte>) -> Result<S>, frame: (S, seq<byte>, nat, nat) -> Result<(S, nat)>)

  /** One OBU's bytes: clear ones, whole blocks of protected ones, and the clear remainder. */
  datatype Stretch = Stretch(clear: nat, blocks: nat, tail: nat)

  /** Tile data of n bytes behind c clear ones. */
  function Tiles(c: nat, n: nat): Stretch { Stretch(c, n / 16 * 16, n % 16) }

  function StretchMask(x: Stretch): seq<bool> { Run(false, x.clear) + Run(true, x.blocks) + Run(false, x.tail) }

  /** What the OBU that opens rest makes of the parsers' state, and its bytes. */
  function ObuLayout<S>(p: Parsers<S>, s: S, obu: Obu, rest: seq<byte>): (r: Result<(S, Stretch)>)
    requires obu.head + obu.payload <= |rest|
    ensures r.Ok? ==> r.value.1.clear + r.value.1.blocks + r.value.1.tail == obu.head + obu.payload
    ensures r.Ok? ==> r.value.1.blocks % 16 == 0
  {
    var payload := rest[obu.head..obu.head + obu.payload];
    if obu.kind == SEQ_HEADER then
      match p.sequence(s, payload)
      case Err(why) => Err(why)
      case Ok(s') => Ok((s', Stretch(obu.head + obu.payload, 0, 0)))
    else if obu.kind == TILE_GROUP then Ok((s, Tiles(obu.head, obu.payload)))
    else if obu.kind == FRAME then
      match p.frame(s, payload, obu.temporal, obu.spatial)
      case Err(why) => Err(why)
      case Ok(f) =>
        var clear := (f.1 + 7) / 8;
        if clear > obu.payload then Err("frame_header_obu parsed past the OBU_FRAME payload")
        else Ok((f.0, Tiles(obu.head + clear, obu.payload - clear)))
    else Ok((s, Stretch(obu.head + obu.payload, 0, 0)))
  }

  /** A sample's layout, OBU by OBU until one cannot be read. */
  ghost function SampleMask<S>(p: Parsers<S>, s: S, sample: seq<byte>): Result<(S, seq<bool>)>
    decreases |sample|
  {
    if sample == [] then Ok((s, []))
    else
      match NextObu(sample)
      case Err(why) => Err(why)
      case Ok(obu) =>
        match ObuLayout(p, s, obu, sample)
        case Err(why) => Err(why)
        case Ok(l) => Before(StretchMask(l.1), SampleMask(p, l.0, sample[obu.head + obu.payload..]))
  }

  lemma {:induction false} MaskCovers<S>(p: Parsers<S>, s: S, sample: seq<byte>)
    requires SampleMask(p, s, sample).Ok?
    ensures |SampleMask(p, s, sample).value.1| == |sample|
    decreases |sample|
  {
    if sample != [] {
      var obu := NextObu(sample).value;
      MaskCovers(p, ObuLayout(p, s, obu, sample).value.0, sample[obu.head + obu.payload..]);
    }
  }

  /** mask as SampleMask, one OBU at a time. */
  ghost predicate MasksStep<S>(mask: (S, seq<byte>) -> Result<(S, seq<bool>)>, p: Parsers<S>, s: S, sample: seq<byte>) {
    if sample == [] then mask(s, sample) == Ok((s, []))
    else
      match NextObu(sample)
      case Err(_) => mask(s, sample).Err?
      case Ok(obu) =>
        match ObuLayout(p, s, obu, sample)
        case Err(_) => mask(s, sample).Err?
        case Ok(l) => mask(s, sample) == Before(StretchMask(l.1), mask(l.0, sample[obu.head + obu.payload..]))
  }

  ghost predicate Masks<S(!new)>(mask: (S, seq<byte>) -> Result<(S, seq<bool>)>, p: Parsers<S>) {
    forall s: S, sample: seq<byte> {:trigger MasksStep(mask, p, s, sample)} :: MasksStep(mask, p, s, sample)
  }

  ghost function MaskOf<S(!new)>(p: Parsers<S>): (mask: (S, seq<byte>) -> Result<(S, seq<bool>)>)
    ensures Masks(mask, p)
  {
    (s: S, sample: seq<byte>) => SampleMask(p, s, sample)
  }

  /** No run of clear bytes between two OBUs with tile data, `run` of them met already, is longer than a 16-bit field holds. */
  ghost function RunsFit<S>(p: Parsers<S>, s: S, run: nat, sample: seq<byte>): bool
    decreases |sample|
  {
    if sample == [] then run <= 0xFFFF
    else
      match NextObu(sample)
      case Err(_) => true
      case Ok(obu) =>
        match ObuLayout(p, s, obu, sample)
        case Err(_) => true
        case Ok(l) =>
          var rest := sample[obu.head + obu.payload..];
          if HasTiles(obu) then run + l.1.clear <= 0xFFFF && RunsFit(p, l.0, l.1.tail, rest)
          else RunsFit(p, l.0, run + l.1.clear, rest)
  }

  type Fit<!S> = (S, nat, seq<byte>) -> bool

  /** fit as RunsFit, one OBU at a time. */
  ghost predicate FitsStep<S>(fit: Fit<S>, p: Parsers<S>, s: S, run: nat, sample: seq<byte>) {
    if sample == [] then fit(s, run, sample) == (run <= 0xFFFF)
    else
      match NextObu(sample)
      case Err(_) => true
      case Ok(obu) =>
        match ObuLayout(p, s, obu, sample)
        case Err(_) => true
        case Ok(l) =>
          var rest := sample[obu.head + obu.payload..];
          fit(s, run, sample) ==
            if HasTiles(obu) then run + l.1.clear <= 0xFFFF && fit(l.0, l.1.tail, rest) else fit(l.0, run + l.1.clear, rest)
  }

  ghost predicate FitsAll<S(!new)>(fit: Fit<S>, p: Parsers<S>) {
    forall s: S, run: nat, sample: seq<byte> {:trigger FitsStep(fit, p, s, run, sample)} :: FitsStep(fit, p, s, run, sample)
  }

  ghost function FitOf<S(!new)>(p: Parsers<S>): (fit: Fit<S>)
    ensures FitsAll(fit, p)
  {
    (s: S, run: nat, sample: seq<byte>) => RunsFit(p, s, run, sample)
  }

  /** More clear bytes in a row than a 16-bit field holds. */
  ghost predicate LongClear(mask: seq<bool>) {
    exists a: nat :: a + 0x10000 <= |mask| && ClearFrom(mask, a, 0x10000)
  }

  ghost predicate ClearFrom(mask: seq<bool>, a: nat, n: nat) {
    a + n <= |mask| && forall i :: a <= i < a + n ==> !mask[i]
  }

  /** The entries so far, and the clear bytes since the last. */
  datatype Progress = Progress(subs: seq<Subsample>, clearRun: nat)

  ghost function Seen(g: Progress): seq<bool> { Mask(g.subs) + Run(false, g.clearRun) }

  ghost predicate Fits(g: Progress) { AllFit(g.subs) && WholeBlocks(g.subs) }

  lemma LongRunShows(g: Progress, clear: nat, rest: seq<bool>)
    requires g.clearRun + clear > 0xFFFF
    ensures LongClear(Seen(g) + (Run(false, clear) + rest))
  {
    var m := Seen(g) + (Run(false, clear) + rest);
    var a := |Mask(g.subs)|;
    assert ClearFrom(m, a, 0x10000);
  }

  /** An OBU with tile data closes an entry; the bytes short of a block open the next clear run. */
  lemma Closes(g: Progress, x: Stretch)
    ensures Seen(Progress(g.subs + [Subsample(g.clearRun + x.clear, x.blocks)], x.tail)) == Seen(g) + StretchMask(x)
  {
    hide Run;
    var last := Subsample(g.clearRun + x.clear, x.blocks);
    MaskAppend(g.subs, [last]);
    MaskOne(last);
    RunAdd(false, g.clearRun, x.clear);
  }

  lemma Extends(g: Progress, x: Stretch)
    requires x.blocks == 0 && x.tail == 0
    ensures Seen(Progress(g.subs, g.clearRun + x.clear)) == Seen(g) + StretchMask(x)
  {
    RunAdd(false, g.clearRun, x.clear);
  }

  predicate HasTiles(obu: Obu) { obu.kind == TILE_GROUP || obu.kind == FRAME }

  /** Computes AV1 samples' subsamples, the sequence header and reference state in hand. */
  class Av1Splitter<S(!new)> {
    const parsers: Parsers<S>
    var state: S

    constructor (parsers: Parsers<S>, state: S)
      ensures this.parsers == parsers && this.state == state
    {
      this.parsers := parsers;
      this.state := state;
    }

    /** Refused exactly when an OBU cannot be read or a clear run between tile data is too long for its field; otherwise
        the entries say of each byte what the layout does, in whole blocks and within their fields. */
    method Split(sample: seq<byte>) returns (r: Result<seq<Subsample>>)
      requires |sample| < P32
      modifies this
      ensures r.Ok? <==> SampleMask(parsers, old(state), sample).Ok? && RunsFit(parsers, old(state), 0, sample)
      ensures r.Ok? ==>
        && SampleMask(parsers, old(state), sample) == Ok((state, Mask(r.value)))
        && r.value != [] && Total(r.value) == |sample| && AllFit(r.value) && WholeBlocks(r.value)
      ensures r.Err? ==>
        var m := SampleMask(parsers, old(state), sample); m.Err? || LongClear(m.value.1)
    {
      var g := Walk(sample, MaskOf(parsers), FitOf(parsers));
      if g.Err? {
        return Err(g.why);
      }
      MaskCovers(parsers, old(state), sample);
      var subs := g.value.subs;
      if g.value.clearRun > 0 || |subs| == 0 {
        if g.value.clearRun > 0xFFFF {
          LongRunShows(g.value, 0, []);
          assert Seen(g.value) + (Run(false, 0) + []) == Seen(g.value);
          return Err("clear region exceeds the 16-bit subsample limit");
        }
        LastEntry(g.value);
        subs := subs + [Subsample(g.value.clearRun, 0)];
      } else {
        assert Seen(g.value) == Mask(subs);
      }
      MaskLength(subs);
      return Ok(subs);
    }

    /** The loop over the sample's OBUs. */
    method Walk(sample: seq<byte>, ghost mask: (S, seq<byte>) -> Result<(S, seq<bool>)>, ghost fit: Fit<S>) returns (r: Result<Progress>)
      requires Masks(mask, parsers) && FitsAll(fit, parsers) && |sample| < P32
      modifies this
      ensures r.Ok? ==> fit(old(state), 0, sample) == (r.value.clearRun <= 0xFFFF)
      ensures r.Err? ==> mask(old(state), sample).Err? || !fit(old(state), 0, sample)
      ensures r.Ok? ==> Fits(r.value) && mask(old(state), sample) == Ok((state, Seen(r.value)))
      ensures r.Err? ==> mask(old(state), sample).Err? || LongClear(mask(old(state), sample).value.1)
    {
      var g := Progress([], 0);
      var i := 0;
      assert sample[0..] == sample && Seen(g) == [];
      BeforeNothing(mask(state, sample));
      while i < |sample|
        invariant i <= |sample| && Fits(g)
        invariant mask(old(state), sample) == Before(Seen(g), mask(state, sample[i..]))
        invariant fit(old(state), 0, sample) == fit(state, g.clearRun, sample[i..])
        modifies this
      {
        var n := Next(g, sample[i..], mask, fit);
        if n.Err? {
          return Err(n.why);
        }
        assert sample[i..][n.value.1..] == sample[i + n.value.1..];
        i := i + n.value.1;
        g := n.value.0;
      }
      assert MasksStep(mask, parsers, state, []) && FitsStep(fit, parsers, state, g.clearRun, []);
      assert sample[|sample|..] == [] && Seen(g) + [] == Seen(g);
      return Ok(g);
    }

    /** One OBU: the entries with its bytes, and its length. */
    method Next(g: Progress, rest: seq<byte>, ghost mask: (S, seq<byte>) -> Result<(S, seq<bool>)>, ghost fit: Fit<S>)
      returns (r: Result<(Progress, nat)>)
      requires Masks(mask, parsers) && FitsAll(fit, parsers) && Fits(g) && 0 < |rest| < P32
      modifies this
      ensures r.Err? ==> mask(old(state), rest).Err? || !fit(old(state), g.clearRun, rest)
      ensures r.Err? ==> var m := Before(Seen(g), mask(old(state), rest)); m.Err? || LongClear(m.value.1)
      ensures r.Ok? ==>
        && 0 < r.value.1 <= |rest| && Fits(r.value.0)
        && fit(old(state), g.clearRun, rest) == fit(state, r.value.0.clearRun, rest[r.value.1..])
        && Before(Seen(r.value.0), mask(state, rest[r.value.1..])) == Before(Seen(g), mask(old(state), rest))
    {
      assert MasksStep(mask, parsers, state, rest) && FitsStep(fit, parsers, state, g.clearRun, rest);
      var next := NextObu(rest);
      if next.Err? {
        return Err(next.why);
      }
      var obu := next.value;
      var laid := ObuLayout(parsers, state, obu, rest);
      if laid.Err? {
        return Err(laid.why);
      }
      var x := laid.value.1;
      var len := obu.head + obu.payload;
      ghost var tail := mask(laid.value.0, rest[len..]);
      BeforeBefore(Seen(g), StretchMask(x), tail);
      if HasTiles(obu) {
        if g.clearRun + x.clear > 0xFFFF {
          if tail.Ok? { TooLong(g, x, tail.value.1); }
          return Err("clear region exceeds the 16-bit subsample limit");
        }
        Closes(g, x);
        state := laid.value.0;
        return Ok((Progress(g.subs + [Subsample(g.clearRun + x.clear, x.blocks)], x.tail), len));
      }
      Extends(g, x);
      state := laid.value.0;
      return Ok((Progress(g.subs, g.clearRun + x.clear), len));
    }
  }

  lemma TooLong(g: Progress, x: Stretch, tail: seq<bool>)
    requires g.clearRun + x.clear > 0xFFFF
    ensures LongClear(Seen(g) + (StretchMask(x) + tail))
  {
    var rest := Run(true, x.blocks) + Run(false, x.tail) + tail;
    assert StretchMask(x) + tail == Run(false, x.clear) + rest;
    LongRunShows(g, x.clear, rest);
  }

  lemma LastEntry(g: Progress)
    ensures Mask(g.subs + [Subsample(g.clearRun, 0)]) == Seen(g)
  {
    MaskAppend(g.subs, [Subsample(g.clearRun, 0)]);
    MaskOne(Subsample(g.clearRun, 0));
  }
}
