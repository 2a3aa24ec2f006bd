/** The subsample layout of an H.264/HEVC sample (mp4/cenc_slice.go): each NAL unit's length prefix and header stay clear,
    a coded slice's data is protected, and the runs are merged into entries that fit senc's fields. */
module CencSlices {
  import opened Arith
  import opened Bytes
  import opened Subsamples
  import Seqs

  /** senc's 16 bits for clear bytes and 32 for protected ones. */
  predicate FieldsFit(s: Subsample) { s.clear <= 0xFFFF && s.protected < P32 }

  predicate AllFit(subs: seq<Subsample>) {
    forall i :: 0 <= i < |subs| ==> FieldsFit(subs[i])
  }

  /** Under 'cenc', every protected run is whole AES blocks. */
  predicate WholeBlocks(subs: seq<Subsample>) {
    forall i :: 0 <= i < |subs| ==> subs[i].protected % 16 == 0
  }

  /** One NAL unit's bytes: `clear` in front, then protected; with align, the odd bytes short of a block join the clear. */
  function Piece(align: bool, clear: nat, protected: nat): (mask: seq<bool>)
    ensures |mask| == clear + protected
  {
    var odd := if align then protected % 16 else 0;
    Run(false, clear + odd) + Run(true, protected - odd)
  }

  /** Merges clear-only runs into the next run's clear bytes, splitting clear runs past 16 bits. */
  class SubsampleBuilder {
    const align: bool
    var acc: nat
    var subs: seq<Subsample>

    /** The layout so far, byte by byte. */
    ghost function Seen(): seq<bool>
      reads this
    {
      Mask(subs) + Run(false, acc)
    }

    ghost predicate Valid()
      reads this
    {
      AllFit(subs) && (align ==> WholeBlocks(subs))
    }

    constructor (align: bool)
      ensures Valid() && this.align == align && Seen() == [] && subs == [] && acc == 0
    {
      this.align := align;
      acc := 0;
      subs := [];
    }

    method Add(clear: nat, protected: nat)
      requires Valid() && protected < P32
      modifies this
      ensures Valid()
      ensures Seen() == old(Seen()) + Piece(align, clear, protected)
    {
      ghost var before, was := subs, acc;
      var c, p := clear, protected;
      if align {
        c := c + p % 16;
        p := p - p % 16;
      }
      acc := acc + c;
      GrowClear(before, was, c, p);
      if p > 0 {
        Push(p);
      }
    }

    method Push(protected: nat)
      requires Valid() && protected < P32 && (align ==> protected % 16 == 0)
      modifies this
      ensures Valid() && acc == 0 && |subs| > |old(subs)|
      ensures Mask(subs) == old(Seen()) + Run(true, protected)
    {
      ghost var seen := Seen();
      while acc > 0xFFFF
        invariant Valid() && Seen() == seen && |subs| >= |old(subs)|
        modifies this
      {
        PushedClear(subs, 0xFFFF, acc - 0xFFFF);
        subs := subs + [Subsample(0xFFFF, 0)];
        acc := acc - 0xFFFF;
      }
      PushedLast(subs, acc, protected);
      subs := subs + [Subsample(acc, protected)];
      acc := 0;
    }

    method Done() returns (r: seq<Subsample>)
      requires Valid()
      modifies this
      ensures AllFit(r) && (align ==> WholeBlocks(r)) && r != []
      ensures Mask(r) == old(Seen())
    {
      if acc > 0 || |subs| == 0 {
        ghost var seen := Seen();
        Push(0);
        assert seen + Run(true, 0) == seen;
      } else {
        assert Mask(subs) + Run(false, 0) == Mask(subs);
      }
      r := subs;
    }
  }

  lemma {:induction false} GrowClear(subs: seq<Subsample>, acc: nat, c: nat, p: nat)
    ensures Mask(subs) + Run(false, acc + c) + Run(true, p) == Mask(subs) + Run(false, acc) + (Run(false, c) + Run(true, p))
    ensures p == 0 ==> Mask(subs) + Run(false, acc + c) == Mask(subs) + Run(false, acc) + (Run(false, c) + Run(true, p))
  {
    RunAdd(false, acc, c);
  }

  lemma {:induction false} PushedClear(subs: seq<Subsample>, c: nat, rest: nat)
    ensures Mask(subs + [Subsample(c, 0)]) + Run(false, rest) == Mask(subs) + Run(false, c + rest)
  {
    MaskAppend(subs, [Subsample(c, 0)]);
    MaskOne(Subsample(c, 0));
    RunAdd(false, c, rest);
  }

  lemma {:induction false} PushedLast(subs: seq<Subsample>, c: nat, p: nat)
    ensures Mask(subs + [Subsample(c, p)]) == Mask(subs) + Run(false, c) + Run(true, p)
  {
    MaskAppend(subs, [Subsample(c, p)]);
    MaskOne(Subsample(c, p));
  }

  // ---- the walk over a sample's NAL units ----

  /** How many leading bytes of a NAL unit stay clear, and the parameter sets known after it: any function of the sets
      known before and the NAL unit. An error is a slice that cannot be read. */
  type ClearLen<!S> = (S, seq<byte>) -> (S, Result<nat>)

  /** clearLen never reports more than the NAL unit. */
  ghost predicate WithinNal<S(!new)>(f: ClearLen<S>) {
    forall s: S, nal: seq<byte> {:trigger f(s, nal)} :: f(s, nal).1.Ok? ==> f(s, nal).1.value <= |nal|
  }

  /** The NAL unit a sample opens with, behind a big-endian length of lenSize bytes. */
  function NextNal(lenSize: nat, sample: seq<byte>): (r: Result<seq<byte>>)
    ensures r.Ok? ==> lenSize + |r.value| <= |sample|
  {
    if |sample| < lenSize then Err("truncated NAL length prefix in sample")
    else
      var n := BE(sample[..lenSize]);
      if n > |sample| - lenSize then Err("NAL length exceeds sample bounds") else Ok(sample[lenSize..lenSize + n])
  }

  /** NAL units framed as a sample. */
  function Framed(lenSize: nat, nals: seq<seq<byte>>): seq<byte> {
    if nals == [] then [] else ToBE(|nals[0]|, lenSize) + nals[0] + Framed(lenSize, nals[1..])
  }

  /** The layout of NAL units in decode order: the parameter sets known after them and each byte's protection. */
  ghost function Layout<S(!new)>(f: ClearLen<S>, align: bool, lenSize: nat, s: S, nals: seq<seq<byte>>): Result<(S, seq<bool>)>
    requires WithinNal(f)
  {
    if nals == [] then Ok((s, []))
    else
      var (s', c) := f(s, nals[0]);
      match c
      case Err(why) => Err(why)
      case Ok(clear) => Before(Piece(align, lenSize + clear, |nals[0]| - clear), Layout(f, align, lenSize, s', nals[1..]))
  }

  /** A layout behind more bytes. */
  ghost function Before<S>(mask: seq<bool>, r: Result<(S, seq<bool>)>): Result<(S, seq<bool>)> {
    match r
    case Err(why) => Err(why)
    case Ok(v) => Ok((v.0, mask + v.1))
  }

  /** A sample's layout, NAL unit by NAL unit until one cannot be framed or read. */
  ghost function SampleLayout<S(!new)>(f: ClearLen<S>, align: bool, lenSize: nat, s: S, sample: seq<byte>): Result<(S, seq<bool>)>
    requires WithinNal(f) && lenSize > 0
    decreases |sample|
  {
    if sample == [] then Ok((s, []))
    else
      match NextNal(lenSize, sample)
      case Err(why) => Err(why)
      case Ok(nal) =>
        var (s', c) := f(s, nal);
        match c
        case Err(why) => Err(why)
        case Ok(clear) =>
          Before(Piece(align, lenSize + clear, |nal| - clear), SampleLayout(f, align, lenSize, s', sample[lenSize + |nal|..]))
  }

  /** lay lays a sample out as SampleLayout does: its first NAL unit, then the rest. */
  ghost predicate LaysStep<S(!new)>(lay: (S, seq<byte>) -> Result<(S, seq<bool>)>, f: ClearLen<S>, align: bool, lenSize: nat,
                                    s: S, sample: seq<byte>)
    requires WithinNal(f) && lenSize > 0
  {
    if sample == [] then lay(s, sample) == Ok((s, []))
    else
      match NextNal(lenSize, sample)
      case Err(_) => lay(s, sample).Err?
      case Ok(nal) =>
        var (s', c) := f(s, nal);
        match c
        case Err(_) => lay(s, sample).Err?
        case Ok(clear) =>
          lay(s, sample) == Before(Piece(align, lenSize + clear, |nal| - clear), lay(s', sample[lenSize + |nal|..]))
  }

  ghost predicate Lays<S(!new)>(lay: (S, seq<byte>) -> Result<(S, seq<bool>)>, f: ClearLen<S>, align: bool, lenSize: nat)
    requires WithinNal(f) && lenSize > 0
  {
    forall s: S, sample: seq<byte> {:trigger LaysStep(lay, f, align, lenSize, s, sample)} ::
      LaysStep(lay, f, align, lenSize, s, sample)
  }

  ghost function LayoutOf<S(!new)>(f: ClearLen<S>, align: bool, lenSize: nat): (lay: (S, seq<byte>) -> Result<(S, seq<bool>)>)
    requires WithinNal(f) && lenSize > 0
    ensures Lays(lay, f, align, lenSize)
  {
    (s: S, sample: seq<byte>) => SampleLayout(f, align, lenSize, s, sample)
  }

  lemma {:induction false} NextOfFramed(lenSize: nat, nal: seq<byte>, rest: seq<byte>)
    requires |nal| < Pow256(lenSize)
    ensures NextNal(lenSize, ToBE(|nal|, lenSize) + nal + rest) == Ok(nal)
    ensures (ToBE(|nal|, lenSize) + nal + rest)[lenSize + |nal|..] == rest
  {
    var head := ToBE(|nal|, lenSize);
    BEOfToBE(|nal|, lenSize);
    assert (head + nal + rest)[..lenSize] == head;
    assert (head + nal + rest)[lenSize..lenSize + |nal|] == nal;
  }

  /** A framed sample is laid out as its NAL units are. */
  lemma {:induction false} LayoutOfFramed<S(!new)>(f: ClearLen<S>, align: bool, lenSize: nat, s: S, nals: seq<seq<byte>>)
    requires WithinNal(f) && lenSize > 0 && forall i :: 0 <= i < |nals| ==> |nals[i]| < Pow256(lenSize)
    ensures SampleLayout(f, align, lenSize, s, Framed(lenSize, nals)) == Layout(f, align, lenSize, s, nals)
  {
    if nals != [] {
      NextOfFramed(lenSize, nals[0], Framed(lenSize, nals[1..]));
      LayoutOfFramed(f, align, lenSize, f(s, nals[0]).0, nals[1..]);
    }
  }

  /** The NAL units of a sample that frames some. */
  function NalsOf(lenSize: nat, sample: seq<byte>): seq<seq<byte>>
    requires lenSize > 0
    decreases |sample|
  {
    if sample == [] || NextNal(lenSize, sample).Err? then []
    else var nal := NextNal(lenSize, sample).value; [nal] + NalsOf(lenSize, sample[lenSize + |nal|..])
  }

  lemma {:induction false} NextIsFramed(lenSize: nat, sample: seq<byte>)
    requires NextNal(lenSize, sample).Ok?
    ensures var nal := NextNal(lenSize, sample).value;
      sample == ToBE(|nal|, lenSize) + nal + sample[lenSize + |nal|..]
  {
    ToBEOfBE(sample[..lenSize]);
  }

  /** And a sample that has a layout is framed, every byte of it described. */
  lemma {:induction false} LaidOutIsFramed<S(!new)>(f: ClearLen<S>, align: bool, lenSize: nat, s: S, sample: seq<byte>)
    requires WithinNal(f) && lenSize > 0 && SampleLayout(f, align, lenSize, s, sample).Ok?
    ensures Framed(lenSize, NalsOf(lenSize, sample)) == sample
    ensures |SampleLayout(f, align, lenSize, s, sample).value.1| == |sample|
    decreases |sample|
  {
    if sample != [] {
      var nal := NextNal(lenSize, sample).value;
      var rest := sample[lenSize + |nal|..];
      NextIsFramed(lenSize, sample);
      LaidOutIsFramed(f, align, lenSize, f(s, nal).0, rest);
      FramedHead(lenSize, nal, NalsOf(lenSize, rest));
    }
  }

  lemma {:induction false} FramedHead(lenSize: nat, nal: seq<byte>, nals: seq<seq<byte>>)
    ensures Framed(lenSize, [nal] + nals) == ToBE(|nal|, lenSize) + nal + Framed(lenSize, nals)
  {
    assert ([nal] + nals)[1..] == nals;
  }

  /** Computes H.264/HEVC samples' subsamples, the parameter sets read so far in hand. */
  class H26xSplitter<S(!new)> {
    const lenSize: nat
    const align: bool
    const clearLen: ClearLen<S>
    var sets: S

    ghost predicate Valid()
      reads this
    {
      lenSize > 0 && WithinNal(clearLen)
    }

    constructor (lenSize: nat, align: bool, clearLen: ClearLen<S>, sets: S)
      requires lenSize > 0 && WithinNal(clearLen)
      ensures Valid() && this.lenSize == lenSize && this.align == align && this.clearLen == clearLen && this.sets == sets
    {
      this.lenSize := lenSize;
      this.align := align;
      this.clearLen := clearLen;
      this.sets := sets;
    }

    /** Refused exactly when the sample has no layout; otherwise the entries say of each byte what the layout does. */
    method Split(sample: seq<byte>) returns (r: Result<seq<Subsample>>)
      requires Valid() && |sample| < P32
      modifies this
      ensures Valid()
      ensures r.Ok? <==> SampleLayout(clearLen, align, lenSize, old(sets), sample).Ok?
      ensures r.Ok? ==>
        && SampleLayout(clearLen, align, lenSize, old(sets), sample) == Ok((sets, Mask(r.value)))
        && Total(r.value) == |sample| && AllFit(r.value) && (align ==> WholeBlocks(r.value))
    {
      var b := new SubsampleBuilder(align);
      var ok := Walk(b, sample, LayoutOf(clearLen, align, lenSize));
      if ok.Err? {
        return Err(ok.why);
      }
      LaidOutIsFramed(clearLen, align, lenSize, old(sets), sample);
      var subs := b.Done();
      MaskLength(subs);
      return Ok(subs);
    }

    /** Every NAL unit of the sample, each piece into the builder. */
    method Walk(b: SubsampleBuilder, sample: seq<byte>, ghost lay: (S, seq<byte>) -> Result<(S, seq<bool>)>) returns (r: Result<nat>)
      requires Valid() && b.Valid() && b.align == align && |sample| < P32 && b.Seen() == []
      requires Lays(lay, clearLen, align, lenSize)
      modifies this, b
      ensures b.Valid()
      ensures if r.Ok? then lay(old(sets), sample) == Ok((sets, b.Seen())) else lay(old(sets), sample).Err?
    {
      var i := 0;
      BeforeNothing(lay(sets, sample[0..]));
      assert sample[0..] == sample;
      while i < |sample|
        invariant i <= |sample| && Valid() && b.Valid()
        invariant lay(old(sets), sample) == Before(b.Seen(), lay(sets, sample[i..]))
        modifies this, b
      {
        var n := Next(b, sample[i..], lay);
        match n
        case Err(why) => return Err(why);
        case Ok(len) =>
          assert sample[i..][len..] == sample[i + len..];
          i := i + len;
      }
      assert LaysStep(lay, clearLen, align, lenSize, sets, []);
      assert sample[|sample|..] == [] && b.Seen() + [] == b.Seen();
      return Ok(i);
    }

    /** One NAL unit: its length, after its piece is in the builder. */
    method Next(b: SubsampleBuilder, rest: seq<byte>, ghost lay: (S, seq<byte>) -> Result<(S, seq<bool>)>) returns (r: Result<nat>)
      requires Valid() && b.Valid() && b.align == align && 0 < |rest| < P32
      requires Lays(lay, clearLen, align, lenSize)
      modifies this, b
      ensures b.Valid()
      ensures r.Err? ==> lay(old(sets), rest).Err?
      ensures r.Ok? ==>
        && 0 < r.value <= |rest|
        && Before(b.Seen(), lay(sets, rest[r.value..])) == Before(old(b.Seen()), lay(old(sets), rest))
    {
      assert LaysStep(lay, clearLen, align, lenSize, sets, rest);
      match NextNal(lenSize, rest)
      case Err(why) => return Err(why);
      case Ok(nal) =>
        var (after, c) := clearLen(sets, nal);
        sets := after;
        if c.Err? {
          return Err(c.why);
        }
        BeforeBefore(b.Seen(), Piece(align, lenSize + c.value, |nal| - c.value), lay(after, rest[lenSize + |nal|..]));
        b.Add(lenSize + c.value, |nal| - c.value);
        return Ok(lenSize + |nal|);
    }
  }

  lemma BeforeNothing<S>(r: Result<(S, seq<bool>)>)
    ensures Before([], r) == r
  {
    if r.Ok? { assert [] + r.value.1 == r.value.1; }
  }

  lemma BeforeBefore<S>(a: seq<bool>, b: seq<bool>, r: Result<(S, seq<bool>)>)
    ensures Before(a, Before(b, r)) == Before(a + b, r)
  {
    if r.Ok? { Seqs.Assoc(a, b, r.value.1); }
  }
}
