/** The fragmented-MP4 writer (mp4/fragment.go, buildMoof and buildTraf; mp4/cenc.go, buildSenc, buildSaiz, buildSaio):
    a movie fragment whose offsets depend on its own size (section 8.8 of ISO/IEC 14496-12). */
module Fragment {
  import opened Arith
  import opened Bytes
  import opened Boxes
  import opened Subsamples
  import opened CencSlices

  const MFHD: Fourcc := [0x6D, 0x66, 0x68, 0x64]
  const TRAF: Fourcc := [0x74, 0x72, 0x61, 0x66]
  const TFHD: Fourcc := [0x74, 0x66, 0x68, 0x64]
  const TFDT: Fourcc := [0x74, 0x66, 0x64, 0x74]
  const TRUN: Fourcc := [0x74, 0x72, 0x75, 0x6E]
  const SENC: Fourcc := [0x73, 0x65, 0x6E, 0x63]
  const SAIZ: Fourcc := [0x73, 0x61, 0x69, 0x7A]
  const SAIO: Fourcc := [0x73, 0x61, 0x69, 0x6F]
  const MOOF: Fourcc := [0x6D, 0x6F, 0x6F, 0x66]

  const SYNC := 0x0200_0000
  const NON_SYNC := 0x0101_0000
  const DEFAULT_BASE_IS_MOOF := 0x02_0000
  /** trun's data_offset, sample_duration, sample_size and sample_flags bits, and the composition offset's. */
  const TRUN_FIELDS := 0x701
  const TRUN_CTS := 0x800
  const MDAT_HEADER := 16

  /** What Go's conversions to uint32 and uint64 leave of v, big-endian. */
  function W32(v: int): (b: seq<byte>)
    ensures |b| == 4
  {
    ToBE(Unsigned(v, P32), 4)
  }

  function W64(v: int): (b: seq<byte>)
    ensures |b| == 8
  {
    ToBE(Unsigned(v, P64), 8)
  }

  datatype Sample = Sample(dur: int, size: nat, sync: bool, cts: int)

  /** One sample's auxiliary information: its IV and its subsamples. */
  datatype AuxEntry = AuxEntry(iv: seq<byte>, subs: seq<Subsample>)

  datatype Aux = Aux(hasSubsample: bool, entries: seq<AuxEntry>)

  /** One track's samples for one media segment. */
  datatype TrackSegment = TrackSegment(trackID: nat, base: int, samples: seq<Sample>, hasCTS: bool, dataLen: int, cenc: Option<Aux>)

  // ---- auxiliary information ----

  function SubsBytes(subs: seq<Subsample>): (b: seq<byte>)
    ensures |b| == 6 * |subs|
  {
    if subs == [] then [] else ToBE(subs[0].clear, 2) + ToBE(subs[0].protected, 4) + SubsBytes(subs[1..])
  }

  function AuxBytes(td: Aux, e: AuxEntry): seq<byte> {
    e.iv + if td.hasSubsample then ToBE(|e.subs|, 2) + SubsBytes(e.subs) else []
  }

  /** The auxiliary information of the first n samples, one after another. */
  function AuxRun(td: Aux, n: nat): seq<byte>
    requires n <= |td.entries|
  {
    if n == 0 then [] else AuxRun(td, n - 1) + AuxBytes(td, td.entries[n-1])
  }

  /** The one-byte sizes of the first n samples' information. */
  function AuxSizes(td: Aux, n: nat): (b: seq<byte>)
    requires n <= |td.entries|
    ensures |b| == n
  {
    if n == 0 then [] else AuxSizes(td, n - 1) + [|AuxBytes(td, td.entries[n-1])| % 256]
  }

  function Senc(td: Aux): MemBox {
    FullBox(SENC, 0, if td.hasSubsample then 2 else 0, W32(|td.entries|) + AuxRun(td, |td.entries|))
  }

  function Saiz(td: Aux): MemBox {
    FullBox(SAIZ, 0, 0, [0] + W32(|td.entries|) + AuxSizes(td, |td.entries|))
  }

  function Saio(offset: int): MemBox { FullBox(SAIO, 0, 0, W32(1) + W32(offset)) }

  // ---- the fragment's boxes ----

  function Mfhd(sequence: int): MemBox { FullBox(MFHD, 0, 0, W32(sequence)) }

  function TfhdBox(s: TrackSegment): MemBox { FullBox(TFHD, 0, DEFAULT_BASE_IS_MOOF, W32(s.trackID)) }

  function TfdtBox(s: TrackSegment): MemBox { FullBox(TFDT, 1, 0, W64(s.base)) }

  function SampleBytes(m: Sample, hasCTS: bool): (b: seq<byte>)
    ensures |b| == if hasCTS then 16 else 12
  {
    W32(m.dur) + W32(m.size) + W32(if m.sync then SYNC else NON_SYNC) + if hasCTS then W32(m.cts) else []
  }

  function SamplesBytes(samples: seq<Sample>, hasCTS: bool): (b: seq<byte>)
    ensures |b| == |samples| * if hasCTS then 16 else 12
  {
    if samples == [] then [] else SampleBytes(samples[0], hasCTS) + SamplesBytes(samples[1..], hasCTS)
  }

  function TrunBox(s: TrackSegment, dataOffset: int): MemBox {
    FullBox(TRUN, 1, TRUN_FIELDS + (if s.hasCTS then TRUN_CTS else 0),
            W32(|s.samples|) + W32(dataOffset) + SamplesBytes(s.samples, s.hasCTS))
  }

  /** Where the first sample's auxiliary information lies, from the moof's first byte. */
  function SencAuxOffset(trafStart: int, s: TrackSegment): int {
    trafStart + 8 + |BoxOf(TfhdBox(s))| + |BoxOf(TfdtBox(s))| + |BoxOf(TrunBox(s, 0))| + 16
  }

  /** What stands in a traf: its header, its decode time, its samples, and where the track is encrypted its auxiliary
      information. */
  function TrafBoxes(s: TrackSegment, dataOffset: int, trafStart: int): seq<MemBox> {
    [TfhdBox(s), TfdtBox(s), TrunBox(s, dataOffset)] +
    match s.cenc
    case None => []
    case Some(td) => [Senc(td), Saiz(td), Saio(SencAuxOffset(trafStart, s))]
  }

  function Traf(s: TrackSegment, dataOffset: int, trafStart: int): MemBox {
    MemBox(TRAF, Concat(TrafBoxes(s, dataOffset, trafStart)))
  }

  /** What a traf's data offset is in a fragment of moofSize bytes; in the sizing pass, moofSize 0, it is 0. */
  function DataOffset(moofSize: nat, dataRun: int): int { if moofSize > 0 then moofSize + MDAT_HEADER + dataRun else 0 }

  /** How a traf is built from a track's samples, its data offset and where it starts. */
  type Builder = (TrackSegment, int, int) -> MemBox

  function BuildTraf(): Builder { (s: TrackSegment, dataOffset: int, trafStart: int) => Traf(s, dataOffset, trafStart) }

  /** The sample data of the first i tracks. */
  function DataBefore(segs: seq<TrackSegment>, i: nat): int
    requires i <= |segs|
  {
    if i == 0 then 0 else DataBefore(segs, i - 1) + segs[i-1].dataLen
  }

  /** Traf i of a fragment of moofSize bytes: its data past that of the tracks before it, its box where theirs end. */
  function TrafAt(build: Builder, segs: seq<TrackSegment>, moofSize: nat, start: int, i: nat): MemBox
    requires i < |segs|
    decreases i, 1
  {
    build(segs[i], DataOffset(moofSize, DataBefore(segs, i)), TrafsEnd(build, segs, moofSize, start, i))
  }

  /** Where the first i trafs end. */
  function TrafsEnd(build: Builder, segs: seq<TrackSegment>, moofSize: nat, start: int, i: nat): int
    requires i <= |segs|
    decreases i, 0
  {
    if i == 0 then start
    else TrafsEnd(build, segs, moofSize, start, i - 1) + |BoxOf(TrafAt(build, segs, moofSize, start, i - 1))|
  }

  function Trafs(build: Builder, segs: seq<TrackSegment>, moofSize: nat, start: int): (r: seq<MemBox>)
    ensures |r| == |segs|
  {
    seq(|segs|, i requires 0 <= i < |segs| => TrafAt(build, segs, moofSize, start, i))
  }

  function MoofBoxes(build: Builder, sequence: int, segs: seq<TrackSegment>, moofSize: nat): seq<MemBox> {
    [Mfhd(sequence)] + Trafs(build, segs, moofSize, 8 + |BoxOf(Mfhd(sequence))|)
  }

  function MoofOf(build: Builder, sequence: int, segs: seq<TrackSegment>, moofSize: nat): (b: seq<byte>)
    ensures |b| > 0
  {
    Box(MOOF, Concat(MoofBoxes(build, sequence, segs, moofSize)))
  }

  /** One pass of the assembly, offsets running over the tracks. */
  method Assemble(build: Builder, sequence: int, segs: seq<TrackSegment>, moofSize: nat) returns (moof: seq<byte>)
    ensures moof == MoofOf(build, sequence, segs, moofSize)
  {
    var mfhd := Mfhd(sequence);
    var trafs := [];
    var dataRun: int := 0;
    var start: int := 8 + |BoxOf(mfhd)|;
    var trafStart := start;
    for i := 0 to |segs|
      invariant trafs == Trafs(build, segs, moofSize, start)[..i]
      invariant dataRun == DataBefore(segs, i) && trafStart == TrafsEnd(build, segs, moofSize, start, i)
    {
      var traf := build(segs[i], DataOffset(moofSize, dataRun), trafStart);
      trafs := trafs + [traf];
      trafStart := trafStart + |BoxOf(traf)|;
      dataRun := dataRun + segs[i].dataLen;
    }
    assert trafs == Trafs(build, segs, moofSize, start);
    moof := Box(MOOF, Concat([mfhd] + trafs));
  }

  /** A movie fragment, built twice: the first pass tells the size the second one's offsets count from. */
  method BuildMoof(sequence: int, segs: seq<TrackSegment>) returns (moof: seq<byte>)
    ensures moof == MoofOf(BuildTraf(), sequence, segs, |moof|)
  {
    var sized := Assemble(BuildTraf(), sequence, segs, 0);
    moof := Assemble(BuildTraf(), sequence, segs, |sized|);
    TrafsFixed();
    PassesAgree(BuildTraf(), sequence, segs, 0, |sized|);
  }

  // ---- the two passes ----

  /** Boxes of the same lengths lay out to the same length. */
  ghost predicate SameLengths(a: seq<MemBox>, b: seq<MemBox>) {
    |a| == |b| && forall i :: 0 <= i < |a| ==> |a[i].payload| == |b[i].payload|
  }

  lemma {:induction false} SameLayout(a: seq<MemBox>, b: seq<MemBox>)
    requires SameLengths(a, b)
    ensures |Concat(a)| == |Concat(b)|
  {
    if a != [] { SameLayout(a[1..], b[1..]); }
  }

  /** A traf's length depends on neither offset in it. */
  ghost predicate FixedLength(build: Builder) {
    forall s: TrackSegment, o: int, t: int {:trigger build(s, o, t)} :: |build(s, o, t).payload| == |build(s, 0, 0).payload|
  }

  lemma TrafsFixed()
    ensures FixedLength(BuildTraf())
  {
    forall s: TrackSegment, o: int, t: int ensures |BuildTraf()(s, o, t).payload| == |BuildTraf()(s, 0, 0).payload| {
      SameLayout(TrafBoxes(s, o, t), TrafBoxes(s, 0, 0));
    }
  }

  /** The fragment's length does not depend on the offsets in it, so both passes agree. */
  lemma PassesAgree(build: Builder, sequence: int, segs: seq<TrackSegment>, m1: nat, m2: nat)
    requires FixedLength(build)
    ensures |MoofOf(build, sequence, segs, m1)| == |MoofOf(build, sequence, segs, m2)|
  {
    SameLayout(MoofBoxes(build, sequence, segs, m1), MoofBoxes(build, sequence, segs, m2));
  }

  // ---- saio and saiz ----

  /** Every entry is a byte's worth, as fitSaiz leaves it. */
  ghost predicate EntriesFit(td: Aux) {
    forall i :: 0 <= i < |td.entries| ==> |AuxBytes(td, td.entries[i])| <= 255
  }

  function SumSizes(sizes: seq<byte>, n: nat): nat
    requires n <= |sizes|
  {
    if n == 0 then 0 else SumSizes(sizes, n - 1) + sizes[n-1]
  }

  /** saiz's sizes tile senc's body: sample n's information is the bytes its size counts, where those before it end. */
  lemma {:induction false} SizesTile(td: Aux, n: nat)
    requires EntriesFit(td) && n < |td.entries|
    ensures var sizes := AuxSizes(td, |td.entries|); var run := AuxRun(td, |td.entries|); var at := SumSizes(sizes, n);
      && SumSizes(sizes, |sizes|) == |run| && sizes[n] == |AuxBytes(td, td.entries[n])|
      && StandsAt(run, at, AuxBytes(td, td.entries[n]))
  {
    var m := |td.entries|;
    SizesSum(td, m, n);
    SizesSum(td, m, m);
    AuxStands(td, m, n);
  }

  lemma {:induction false} AuxStands(td: Aux, m: nat, n: nat)
    requires n < m <= |td.entries|
    ensures StandsAt(AuxRun(td, m), |AuxRun(td, n)|, AuxBytes(td, td.entries[n]))
  {
    AuxPrefix(td, n + 1, m);
    AuxStep(AuxRun(td, n), AuxBytes(td, td.entries[n]), AuxRun(td, m));
  }

  lemma {:induction false} SizesSum(td: Aux, m: nat, n: nat)
    requires EntriesFit(td) && n <= m <= |td.entries|
    ensures SumSizes(AuxSizes(td, m), n) == |AuxRun(td, n)|
    ensures n < m ==> AuxSizes(td, m)[n] == |AuxBytes(td, td.entries[n])|
  {
    if n < m { SizeAt(td, m, n); }
    if n > 0 {
      SizesSum(td, m, n - 1);
    }
  }

  lemma {:induction false} SizeAt(td: Aux, m: nat, n: nat)
    requires EntriesFit(td) && n < m <= |td.entries|
    ensures AuxSizes(td, m)[n] == |AuxBytes(td, td.entries[n])|
  {
    if n < m - 1 { SizeAt(td, m - 1, n); }
  }

  lemma AuxStep(a: seq<byte>, b: seq<byte>, run: seq<byte>)
    requires |a + b| <= |run| && run[..|a + b|] == a + b
    ensures run[|a|..|a| + |b|] == b
  {
    assert (a + b)[|a|..] == b;
  }

  lemma {:induction false} AuxPrefix(td: Aux, n: nat, m: nat)
    requires n <= m <= |td.entries|
    ensures |AuxRun(td, n)| <= |AuxRun(td, m)| && AuxRun(td, m)[..|AuxRun(td, n)|] == AuxRun(td, n)
    decreases m
  {
    if n < m { AuxPrefix(td, n, m - 1); }
  }

  // ---- where things lie in the fragment ----

  /** Traf i stands where those before it end. */
  lemma {:induction false} TrafsReach(build: Builder, segs: seq<TrackSegment>, m: nat, start: int, i: nat)
    requires i <= |segs|
    ensures start + |Concat(Trafs(build, segs, m, start)[..i])| == TrafsEnd(build, segs, m, start, i)
  {
    hide TrafAt;
    if i > 0 {
      TrafsReach(build, segs, m, start, i - 1);
      ConcatNext(Trafs(build, segs, m, start), i - 1);
    }
  }

  lemma ConcatNext(boxes: seq<MemBox>, i: nat)
    requires i < |boxes|
    ensures |Concat(boxes[..i + 1])| == |Concat(boxes[..i])| + |BoxOf(boxes[i])|
  {
    assert boxes[..i + 1] == boxes[..i] + [boxes[i]];
    ConcatAppend(boxes[..i], [boxes[i]]);
    ConcatOne(boxes[i]);
  }

  lemma {:induction false} ConcatCons(x: MemBox, rest: seq<MemBox>)
    ensures Concat([x] + rest) == BoxOf(x) + Concat(rest)
  {
    assert ([x] + rest)[1..] == rest;
  }

  /** A box of a list stands where the boxes before it end. */
  lemma {:induction false} BoxInConcat(boxes: seq<MemBox>, i: nat)
    requires i < |boxes|
    ensures StandsAt(Concat(boxes), |Concat(boxes[..i])|, BoxOf(boxes[i]))
  {
    assert boxes == boxes[..i] + ([boxes[i]] + boxes[i+1..]);
    ConcatAppend(boxes[..i], [boxes[i]] + boxes[i+1..]);
    ConcatCons(boxes[i], boxes[i+1..]);
    Middle(Concat(boxes[..i]), BoxOf(boxes[i]), Concat(boxes[i+1..]));
  }

  lemma Middle(a: seq<byte>, b: seq<byte>, c: seq<byte>)
    ensures StandsAt(a + (b + c), |a|, b)
  {
  }

  lemma SmallBody(b: MemBox)
    requires Small(BoxOf(b))
    ensures StandsAt(BoxOf(b), 8, b.payload)
  {
  }

  /** A fragment whose boxes all take the 8-byte header, as the saio offset assumes. */
  predicate Small(b: seq<byte>) { |b| < P32 }

  /** saio's offset is that of the first sample's auxiliary information, counted from the traf's start. */
  lemma SaioInTraf(s: TrackSegment, offset: int, trafStart: int)
    requires s.cenc.Some? && Small(BoxOf(Traf(s, offset, trafStart)))
    ensures var at := SencAuxOffset(trafStart, s) - trafStart; var run := AuxRun(s.cenc.value, |s.cenc.value.entries|);
      var traf := BoxOf(Traf(s, offset, trafStart));
      StandsAt(traf, at, run)
  {
    hide TfhdBox, TfdtBox, AuxRun, AuxBytes, Saiz, Saio, SampleBytes, SamplesBytes;
    var boxes, td := TrafBoxes(s, offset, trafStart), s.cenc.value;
    assert boxes[..3] == [TfhdBox(s), TfdtBox(s), TrunBox(s, offset)] && boxes[3] == Senc(td);
    ThreeBoxes(TfhdBox(s), TfdtBox(s), TrunBox(s, offset));
    InContainer(Traf(s, offset, trafStart), boxes, 3);
    BodyEnds(SENC, 0, if td.hasSubsample then 2 else 0, W32(|td.entries|), AuxRun(td, |td.entries|));
    StandsInside(BoxOf(Traf(s, offset, trafStart)), 8 + |Concat(boxes[..3])|, BoxOf(Senc(td)), 16, AuxRun(td, |td.entries|));
  }

  /** A small container's box i stands behind its header and the boxes before. */
  lemma {:induction false} InContainer(b: MemBox, boxes: seq<MemBox>, i: nat)
    requires b.payload == Concat(boxes) && Small(BoxOf(b)) && i < |boxes|
    ensures StandsAt(BoxOf(b), 8 + |Concat(boxes[..i])|, BoxOf(boxes[i])) && Small(BoxOf(boxes[i]))
  {
    SmallBody(b);
    BoxInConcat(boxes, i);
    StandsInside(BoxOf(b), 8, Concat(boxes), |Concat(boxes[..i])|, BoxOf(boxes[i]));
  }

  lemma ThreeBoxes(a: MemBox, b: MemBox, c: MemBox)
    ensures |Concat([a, b, c])| == |BoxOf(a)| + |BoxOf(b)| + |BoxOf(c)|
  {
    assert [a, b, c] == [a] + ([b] + [c]);
    ConcatCons(a, [b] + [c]);
    ConcatCons(b, [c]);
    ConcatOne(c);
  }

  /** In a small full box of a 4-byte count and a body, the body starts at byte 16. */
  lemma BodyEnds(typ: Fourcc, version: byte, flags: nat, count: seq<byte>, body: seq<byte>)
    requires |count| == 4 && |BoxOf(FullBox(typ, version, flags, count + body))| < P32
    ensures var b := BoxOf(FullBox(typ, version, flags, count + body));
      |b| == 16 + |body| && StandsAt(b, 16, body)
  {
    var f := [version] + ToBE(flags, 3);
    var size := U32(|f| + 4 + |body| + 8);
    assert BoxOf(FullBox(typ, version, flags, count + body)) == size + typ + f + count + body;
  }

  /** In the finished fragment, each encrypted track's saio offset, counted from the moof's first byte, is where its
      auxiliary information begins: the bytes saiz's sizes tile. */
  lemma {:induction false} SaioPointsAtAux(sequence: int, segs: seq<TrackSegment>, m: nat, k: nat)
    requires k < |segs| && segs[k].cenc.Some? && Small(MoofOf(BuildTraf(), sequence, segs, m))
    ensures var start := TrafsEnd(BuildTraf(), segs, m, 8 + |BoxOf(Mfhd(sequence))|, k);
      var run := AuxRun(segs[k].cenc.value, |segs[k].cenc.value.entries|);
      StandsAt(MoofOf(BuildTraf(), sequence, segs, m), SencAuxOffset(start, segs[k]), run)
  {
    TrafStands(BuildTraf(), sequence, segs, m, k);
    SaioStands(MoofOf(BuildTraf(), sequence, segs, m), segs[k], DataOffset(m, DataBefore(segs, k)),
               TrafsEnd(BuildTraf(), segs, m, 8 + |BoxOf(Mfhd(sequence))|, k));
  }

  lemma SaioStands(moof: seq<byte>, s: TrackSegment, offset: int, start: int)
    requires s.cenc.Some? && Small(BoxOf(Traf(s, offset, start))) && StandsAt(moof, start, BoxOf(Traf(s, offset, start)))
    ensures StandsAt(moof, SencAuxOffset(start, s), AuxRun(s.cenc.value, |s.cenc.value.entries|))
  {
    SaioInTraf(s, offset, start);
    StandsInside(moof, start, BoxOf(Traf(s, offset, start)), SencAuxOffset(start, s) - start,
                 AuxRun(s.cenc.value, |s.cenc.value.entries|));
  }

  /** b holds those bytes at that place. */
  predicate StandsAt(b: seq<byte>, at: int, bytes: seq<byte>) {
    0 <= at && at + |bytes| <= |b| && b[at..at + |bytes|] == bytes
  }

  lemma StandsInside(outer: seq<byte>, at: int, box: seq<byte>, g: int, body: seq<byte>)
    requires StandsAt(outer, at, box) && StandsAt(box, g, body)
    ensures StandsAt(outer, at + g, body)
  {
    SliceOfSlice(outer, at, at + |box|, g, g + |body|);
  }

  lemma SliceOfSlice(s: seq<byte>, i: nat, j: nat, k: nat, l: nat)
    requires i <= j <= |s| && k <= l <= j - i
    ensures s[i..j][k..l] == s[i + k..i + l]
  {
    var a, b := s[i..j][k..l], s[i + k..i + l];
    forall x | 0 <= x < |a| ensures a[x] == b[x] { assert a[x] == s[i..j][k + x] == s[i + k + x]; }
  }

  /** A fragment's traf k stands where its saio counts from. */
  lemma {:induction false} TrafStands(build: Builder, sequence: int, segs: seq<TrackSegment>, m: nat, k: nat)
    requires k < |segs| && Small(MoofOf(build, sequence, segs, m))
    ensures var start := 8 + |BoxOf(Mfhd(sequence))|;
      var traf := TrafAt(build, segs, m, start, k);
      StandsAt(MoofOf(build, sequence, segs, m), TrafsEnd(build, segs, m, start, k), BoxOf(traf)) && Small(BoxOf(traf))
  {
    var mfhd := Mfhd(sequence);
    TrafsReach(build, segs, m, 8 + |BoxOf(mfhd)|, k);
    InMoof(mfhd, Trafs(build, segs, m, 8 + |BoxOf(mfhd)|), k);
  }

  lemma {:induction false} InMoof(mfhd: MemBox, trafs: seq<MemBox>, k: nat)
    requires k < |trafs| && Small(Box(MOOF, Concat([mfhd] + trafs)))
    ensures var start := 8 + |BoxOf(mfhd)| + |Concat(trafs[..k])|;
      StandsAt(Box(MOOF, Concat([mfhd] + trafs)), start, BoxOf(trafs[k])) && Small(BoxOf(trafs[k]))
  {
    var boxes := [mfhd] + trafs;
    assert boxes[..k + 1] == [mfhd] + trafs[..k];
    ConcatCons(mfhd, trafs[..k]);
    InContainer(MemBox(MOOF, Concat(boxes)), boxes, k + 1);
  }
}
