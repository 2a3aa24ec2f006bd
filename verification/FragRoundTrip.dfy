/** What the fragment writer builds, the reader reads back: every track's samples, and offsets that slice the data. */
module FragRoundTrip {
  import opened Arith
  import opened Bytes
  import opened Boxes
  import opened Fragment
  import opened FragParse
  import Seqs

  const P31: int := 0x8000_0000

  // ---- fields ----

  lemma WordReads(v: int)
    requires 0 <= v < P32
    ensures BE(W32(v)) == v
  {
    ModSmall(v, P32);
    Powers();
    BEOfToBE(v, 4);
  }

  lemma SignedWordReads(v: int)
    requires -P31 <= v < P31
    ensures Signed(BE(W32(v)), P32) == v
  {
    SignedOfUnsigned(v, P32);
    Powers();
    BEOfToBE(Unsigned(v, P32), 4);
  }

  lemma LongReads(v: int)
    requires 0 <= v <= MAX_INT64
    ensures Signed(BE(W64(v)), P64) == v
  {
    SignedOfUnsigned(v, P64);
    Powers();
    BEOfToBE(Unsigned(v, P64), 8);
  }

  /** A full box's payload opens with its version and flags. */
  lemma FullBoxReads(typ: Fourcc, version: byte, flags: nat, body: seq<byte>)
    requires flags < 0x100_0000
    ensures var p := FullBox(typ, version, flags, body).payload;
      |p| == 4 + |body| && BE(p[..4]) % 0x100_0000 == flags && p[4..] == body && p[0] == version
  {
    var p, low := FullBox(typ, version, flags, body).payload, ToBE(flags, 3);
    assert p[..4] == [version] + low;
    BEAppend([version], low);
    assert Pow256(3) == 0x100_0000 && Pow256(2) == P16 && Pow256(1) == 256;
    BEOfToBE(flags, 3);
    assert [version][..0] == [];
    DivModIs(BE(p[..4]), version, flags, 0x100_0000);
  }

  // ---- a run of samples ----

  /** A sample's fields in the widths trun gives them; without composition offsets in the run there is none to lose. */
  ghost predicate SampleFits(m: Sample, hasCTS: bool) {
    0 <= m.dur < P32 && m.size < P32 && -P31 <= m.cts < P31 && (!hasCTS ==> m.cts == 0)
  }

  ghost predicate SamplesFit(samples: seq<Sample>, hasCTS: bool) {
    forall i :: 0 <= i < |samples| ==> SampleFits(samples[i], hasCTS)
  }

  function EntryOf(m: Sample): Entry { Entry(Abs(m.dur), m.size, if m.sync then SYNC else NON_SYNC, m.cts) }

  /** A run's flags, as the writer sets them. */
  function Written(hasCTS: bool): TrunFlags { TrunFlags(true, false, true, true, true, hasCTS) }

  lemma WrittenFlags(hasCTS: bool)
    ensures FlagsOf(TRUN_FIELDS + if hasCTS then TRUN_CTS else 0) == Written(hasCTS)
    ensures TRUN_FIELDS + (if hasCTS then TRUN_CTS else 0) < 0x100_0000
  {
  }

  lemma FourWords(a: seq<byte>, b: seq<byte>, c: seq<byte>, d: seq<byte>, rest: seq<byte>)
    requires |a| == |b| == |c| == 4
    ensures var s := a + b + c + d + rest;
      |s| == 12 + |d| + |rest| && s[..4] == a && s[4..][..4] == b && s[4..][4..][..4] == c && s[4..][4..][4..] == d + rest
  {
    var s := a + b + c + d + rest;
    assert s[4..] == b + c + d + rest;
    assert s[4..][4..] == c + d + rest;
  }

  lemma EntryReads(d: Defaults, m: Sample, hasCTS: bool, rest: seq<byte>)
    requires SampleFits(m, hasCTS)
    ensures ReadEntry(Written(hasCTS), d, SampleBytes(m, hasCTS) + rest) == Some((EntryOf(m), rest))
  {
    var flags := if m.sync then SYNC else NON_SYNC;
    WordReads(m.dur); WordReads(m.size); WordReads(flags);
    if hasCTS {
      SignedWordReads(m.cts);
      FourWords(W32(m.dur), W32(m.size), W32(flags), W32(m.cts), rest);
      assert (W32(m.cts) + rest)[..4] == W32(m.cts) && (W32(m.cts) + rest)[4..] == rest;
    } else {
      FourWords(W32(m.dur), W32(m.size), W32(flags), [], rest);
      assert [] + rest == rest;
    }
  }

  function SizeBefore(samples: seq<Sample>, n: nat): nat
    requires n <= |samples|
  {
    if n == 0 then 0 else SizeBefore(samples, n - 1) + samples[n-1].size
  }

  function DurBefore(samples: seq<Sample>, n: nat): int
    requires n <= |samples|
  {
    if n == 0 then 0 else DurBefore(samples, n - 1) + samples[n-1].dur
  }

  /** Sample j of a written run as a reader should hold it: placed past the data of those before it, decoded past their
      durations, presented at its own offset from that. */
  function Expected(t: InTrack, s: TrackSegment, at: int, j: nat): InSample
    requires j < |s.samples|
  {
    var m, dts := s.samples[j], s.base + DurBefore(s.samples, j);
    InSample(at + SizeBefore(s.samples, j), m.size, TicksToMs(dts, t.timescale),
             Max(0, TicksToMs(dts + m.cts, t.timescale) + t.editShiftMs), dts + m.cts, TicksToMs(m.dur, t.timescale), m.sync, j == 0)
  }

  function ExpectedFrom(t: InTrack, s: TrackSegment, at: int, n: nat): seq<InSample>
    requires n <= |s.samples|
  {
    seq(n, j requires 0 <= j < n => Expected(t, s, at, j))
  }

  /** A track once it has the first n samples of a segment whose data starts at at. */
  function WithRun(t: InTrack, s: TrackSegment, at: int, n: nat): InTrack
    requires n <= |s.samples|
  {
    t.(samples := t.samples + ExpectedFrom(t, s, at, n))
  }

  function CursorAt(s: TrackSegment, at: int, n: nat): Cursor
    requires n <= |s.samples|
  {
    Cursor(at + SizeBefore(s.samples, n), s.base + DurBefore(s.samples, n))
  }

  lemma RunStep(t: InTrack, s: TrackSegment, at: int, n: nat)
    requires n < |s.samples| && SampleFits(s.samples[n], s.hasCTS)
    ensures var c := CursorAt(s, at, n); var e := EntryOf(s.samples[n]);
      Append(WithRun(t, s, at, n), Placed(WithRun(t, s, at, n), e, c.off, c.dts, n == 0)) == WithRun(t, s, at, n + 1) &&
      Advance(c, e) == CursorAt(s, at, n + 1)
  {
    assert Bit(NON_SYNC, 0x1_0000) && !Bit(SYNC, 0x1_0000);
    assert ExpectedFrom(t, s, at, n + 1) == ExpectedFrom(t, s, at, n) + [Expected(t, s, at, n)];
    assert t.samples + ExpectedFrom(t, s, at, n) + [Expected(t, s, at, n)] == t.samples + (ExpectedFrom(t, s, at, n) + [Expected(t, s, at, n)]);
  }

  lemma SamplesNext(samples: seq<Sample>, hasCTS: bool, n: nat)
    requires n < |samples|
    ensures SamplesBytes(samples[n..], hasCTS) == SampleBytes(samples[n], hasCTS) + SamplesBytes(samples[n+1..], hasCTS)
  {
    assert samples[n..][1..] == samples[n+1..];
  }

  lemma {:induction false} RunReads(h: TrunHead, d: Defaults, t: InTrack, s: TrackSegment, at: int, n: nat)
    requires SamplesFit(s.samples, s.hasCTS) && h.f == Written(s.hasCTS) && h.first.None?
    requires h.count == |s.samples| && n <= |s.samples|
    ensures RunFrom(h, d, n, SamplesBytes(s.samples[n..], s.hasCTS), WithRun(t, s, at, n), CursorAt(s, at, n))
      == Some((WithRun(t, s, at, h.count), CursorAt(s, at, h.count)))
    decreases h.count - n
  {
    hide WithRun, CursorAt, SampleBytes, ReadEntry, Advance, EntryOf;
    if n < h.count {
      SamplesNext(s.samples, s.hasCTS, n);
      EntryReads(d, s.samples[n], s.hasCTS, SamplesBytes(s.samples[n+1..], s.hasCTS));
      RunStep(t, s, at, n);
      RunReads(h, d, t, s, at, n + 1);
    }
  }

  lemma TrunHeadReads(s: TrackSegment, dataOffset: int)
    requires -P31 <= dataOffset < P31 && |s.samples| < P32
    ensures ReadTrunHead(TrunBox(s, dataOffset).payload)
      == Ok(TrunHead(Written(s.hasCTS), |s.samples|, Some(dataOffset), None, SamplesBytes(s.samples, s.hasCTS)))
  {
    var flags := TRUN_FIELDS + (if s.hasCTS then TRUN_CTS else 0);
    var entries := SamplesBytes(s.samples, s.hasCTS);
    WrittenFlags(s.hasCTS);
    FullBoxReads(TRUN, 1, flags, W32(|s.samples|) + W32(dataOffset) + entries);
    TwoWords(TrunBox(s, dataOffset).payload, W32(|s.samples|), W32(dataOffset), entries);
    WordReads(|s.samples|);
    SignedWordReads(dataOffset);
  }

  lemma TwoWords(p: seq<byte>, a: seq<byte>, b: seq<byte>, rest: seq<byte>)
    requires |p| == 12 + |rest| && |a| == |b| == 4 && p[4..] == a + b + rest
    ensures p[4..8] == a && p[8..][..4] == b && p[8..][4..] == rest
  {
    assert p[4..8] == p[4..][..4];
    assert p[8..] == p[4..][4..] == b + rest;
  }

  lemma TrunSamplesIs(p: seq<byte>, t: InTrack, base: int, c: Cursor, d: Defaults, h: TrunHead, r: (InTrack, Cursor))
    requires ReadTrunHead(p) == Ok(h) && h.offset.Some?
    requires RunFrom(h, d, 0, h.entries, t, Cursor(base + h.offset.value, c.dts)) == Some(r)
    ensures TrunSamples(p, t, base, c, d) == Ok(r)
  {
  }

  lemma TrunReads(s: TrackSegment, dataOffset: int, t: InTrack, base: int, off: int, d: Defaults)
    requires -P31 <= dataOffset < P31 && |s.samples| < P32 && SamplesFit(s.samples, s.hasCTS)
    ensures TrunSamples(TrunBox(s, dataOffset).payload, t, base, Cursor(off, s.base), d)
      == Ok((WithRun(t, s, base + dataOffset, |s.samples|), CursorAt(s, base + dataOffset, |s.samples|)))
  {
    hide TrunBox, TrunSamples, ReadTrunHead, WithRun, CursorAt, SamplesBytes, RunFrom;
    TrunHeadReads(s, dataOffset);
    var h := TrunHead(Written(s.hasCTS), |s.samples|, Some(dataOffset), None, SamplesBytes(s.samples, s.hasCTS));
    RunReadsWhole(h, d, t, s, base + dataOffset);
    TrunSamplesIs(TrunBox(s, dataOffset).payload, t, base, Cursor(off, s.base), d, h,
                  (WithRun(t, s, base + dataOffset, |s.samples|), CursorAt(s, base + dataOffset, |s.samples|)));
  }

  lemma {:induction false} RunReadsWhole(h: TrunHead, d: Defaults, t: InTrack, s: TrackSegment, at: int)
    requires SamplesFit(s.samples, s.hasCTS) && h.f == Written(s.hasCTS) && h.first.None? && h.count == |s.samples|
    ensures RunFrom(h, d, 0, SamplesBytes(s.samples, s.hasCTS), t, Cursor(at, s.base))
      == Some((WithRun(t, s, at, h.count), CursorAt(s, at, h.count)))
  {
    assert s.samples[0..] == s.samples;
    assert t.samples + [] == t.samples;
    assert WithRun(t, s, at, 0) == t;
    RunReads(h, d, t, s, at, 0);
  }

  // ---- a track fragment ----

  lemma TfhdReads(s: TrackSegment)
    requires s.trackID < P32
    ensures ParseTfhd(TfhdBox(s).payload) == Ok(Tfhd(s.trackID, None, true, None, None, None))
    ensures |TfhdBox(s).payload| == 8
  {
    FullBoxReads(TFHD, 0, DEFAULT_BASE_IS_MOOF, W32(s.trackID));
    var p := TfhdBox(s).payload;
    assert p[4..8] == p[4..] == W32(s.trackID);
    WordReads(s.trackID);
  }

  lemma TfdtReads(s: TrackSegment)
    requires 0 <= s.base <= MAX_INT64
    ensures ParseTfdt(TfdtBox(s).payload) == s.base
  {
    FullBoxReads(TFDT, 1, 0, W64(s.base));
    var p := TfdtBox(s).payload;
    assert p[4..12] == p[4..] == W64(s.base);
    LongReads(s.base);
  }

  /** The widths a written segment's fields must fit for the boxes to hold them. */
  ghost predicate SegmentFits(s: TrackSegment) {
    s.trackID < P32 && 0 <= s.base <= MAX_INT64 && |s.samples| < P32 && SamplesFit(s.samples, s.hasCTS)
  }

  /** Boxes of a type none of the reader's loops looks for. */
  ghost predicate Foreign(b: MemBox) {
    b.typ != TFHD && b.typ != TFDT && b.typ != TRUN
  }

  /** A traf's children as the reader meets them: header, decode time, run, then boxes it passes over. */
  ghost predicate TrafShape(boxes: seq<MemBox>, s: TrackSegment, dataOffset: int) {
    |boxes| >= 3 && boxes[0] == TfhdBox(s) && boxes[1] == TfdtBox(s) && boxes[2] == TrunBox(s, dataOffset) &&
    forall i :: 3 <= i < |boxes| ==> Foreign(boxes[i])
  }

  lemma BuiltShape(s: TrackSegment, dataOffset: int, trafStart: int)
    ensures TrafShape(TrafBoxes(s, dataOffset, trafStart), s, dataOffset)
  {
    if s.cenc.Some? {
      Distinct();
      var td := s.cenc.value;
      var tail := [Senc(td), Saiz(td), Saio(SencAuxOffset(trafStart, s))];
      var boxes := TrafBoxes(s, dataOffset, trafStart);
      forall i | 3 <= i < |boxes| ensures Foreign(boxes[i]) { assert boxes[i] == tail[i - 3]; }
    }
  }

  lemma Distinct()
    ensures forall a, b :: a in [SENC, SAIZ, SAIO, MFHD] && b in [TFHD, TFDT, TRUN, TRAF] ==> a != b
    ensures TFHD != TFDT && TFHD != TRUN && TFDT != TRUN
  {
    assert SENC[0] == 0x73 && SAIZ[0] == 0x73 && SAIO[0] == 0x73 && MFHD[0] == 0x6D;
    assert TFHD[0] == 0x74 && TFDT[0] == 0x74 && TRUN[0] == 0x74 && TRAF[0] == 0x74;
    assert TFHD[1] == 0x66 && TFDT[1] == 0x66 && TRUN[1] == 0x72 && TFHD[2] == 0x68 && TFDT[2] == 0x64;
  }

  lemma {:induction false} HeaderKept(boxes: seq<MemBox>, i: nat, h: Option<Tfhd>)
    requires i <= |boxes| && forall k :: i <= k < |boxes| ==> boxes[k].typ != TFHD
    ensures LastTfhd(boxes, i, h) == Ok(h)
    decreases |boxes| - i
  {
    if i < |boxes| { HeaderKept(boxes, i + 1, h); }
  }

  lemma {:induction false} BaseKept(boxes: seq<MemBox>, i: nat, n: nat, otherwise: int)
    requires i <= n <= |boxes| && forall k :: i <= k < n ==> boxes[k].typ != TFDT
    ensures DecodeBase(boxes, n, otherwise) == DecodeBase(boxes, i, otherwise)
    decreases n
  {
    if i < n { BaseKept(boxes, i, n - 1, otherwise); }
  }

  lemma {:induction false} PlacedKept(boxes: seq<MemBox>, i: nat, t: InTrack, base: int, c: Cursor, d: Defaults)
    requires i <= |boxes| && forall k :: i <= k < |boxes| ==> boxes[k].typ != TRUN
    ensures PlaceFrom(boxes, i, t, base, c, d) == Ok((t, c))
    decreases |boxes| - i
  {
    if i < |boxes| { PlacedKept(boxes, i + 1, t, base, c, d); }
  }

  lemma {:induction false} DeclaredKept(boxes: seq<MemBox>, i: nat, n: nat)
    requires i <= n <= |boxes| && forall k :: i <= k < n ==> boxes[k].typ != TRUN
    ensures Declared(boxes, n) == Declared(boxes, i)
    decreases n
  {
    if i < n { DeclaredKept(boxes, i, n - 1); }
  }

  lemma ShapeHeader(boxes: seq<MemBox>, s: TrackSegment, dataOffset: int)
    requires TrafShape(boxes, s, dataOffset) && s.trackID < P32
    ensures LastTfhd(boxes, 0, None) == Ok(Some(Tfhd(s.trackID, None, true, None, None, None)))
  {
    Distinct();
    TfhdReads(s);
    HeaderKept(boxes, 1, Some(ParseTfhd(TfhdBox(s).payload).value));
  }

  lemma ShapeBase(boxes: seq<MemBox>, s: TrackSegment, dataOffset: int, otherwise: int)
    requires TrafShape(boxes, s, dataOffset) && 0 <= s.base <= MAX_INT64
    ensures DecodeBase(boxes, |boxes|, otherwise) == s.base
  {
    Distinct();
    TfdtReads(s);
    BaseKept(boxes, 2, |boxes|, otherwise);
  }

  /** The declared count is the run's, and the run lists its fields. */
  lemma ShapeFits(boxes: seq<MemBox>, s: TrackSegment, dataOffset: int, defSize: nat, span: int)
    requires TrafShape(boxes, s, dataOffset) && |s.samples| < P32
    ensures Declared(boxes, |boxes|) == |s.samples| && TrunsFit(boxes, defSize, span)
  {
    hide *;
    OneTrun(boxes, s, dataOffset);
    PerSample(s, dataOffset);
    OneRun(boxes, 2, defSize, span);
  }

  lemma OneTrun(boxes: seq<MemBox>, s: TrackSegment, dataOffset: int)
    requires TrafShape(boxes, s, dataOffset)
    ensures |boxes| >= 3 && boxes[2] == TrunBox(s, dataOffset) && boxes[2].typ == TRUN
    ensures forall i :: 0 <= i < |boxes| && i != 2 ==> boxes[i].typ != TRUN
  {
    Distinct();
  }

  lemma {:induction false} OneRun(boxes: seq<MemBox>, k: nat, defSize: nat, span: int)
    requires k < |boxes| && boxes[k].typ == TRUN && (forall i :: 0 <= i < |boxes| && i != k ==> boxes[i].typ != TRUN)
    requires |boxes[k].payload| >= 8 && FlagsOf(BE(boxes[k].payload[..4])).dur
    ensures TrunsFit(boxes, defSize, span) && Declared(boxes, |boxes|) == BE(boxes[k].payload[4..8])
  {
    DeclaredKept(boxes, k + 1, |boxes|);
    DeclaredKept(boxes, 0, k);
  }

  /** The run lists its fields sample by sample. */
  lemma PerSample(s: TrackSegment, dataOffset: int)
    requires |s.samples| < P32
    ensures var p := TrunBox(s, dataOffset).payload;
      |p| >= 8 && FlagsOf(BE(p[..4])).dur && BE(p[4..8]) == |s.samples|
  {
    hide SamplesBytes, W32;
    var flags := TRUN_FIELDS + (if s.hasCTS then TRUN_CTS else 0);
    var p, low := TrunBox(s, dataOffset).payload, ToBE(flags, 3);
    assert p[..4] == [1] + low;
    BEAppend([1], low);
    assert Pow256(3) == 0x100_0000 && Pow256(2) == P16 && Pow256(1) == 256;
    BEOfToBE(flags, 3);
    assert [1][..0] == [];
    assert BE(p[..4]) == 0x100_0000 + flags;
    assert p[4..8] == W32(|s.samples|);
    WordReads(|s.samples|);
  }

  lemma ShapePlaced(boxes: seq<MemBox>, s: TrackSegment, dataOffset: int, t: InTrack, base: int, d: Defaults)
    requires TrafShape(boxes, s, dataOffset) && SegmentFits(s) && -P31 <= dataOffset < P31
    ensures PlaceFrom(boxes, 0, t, base, Cursor(base, s.base), d)
      == Ok((WithRun(t, s, base + dataOffset, |s.samples|), CursorAt(s, base + dataOffset, |s.samples|)))
  {
    Distinct();
    TrunReads(s, dataOffset, t, base, base, d);
    var r := TrunSamples(TrunBox(s, dataOffset).payload, t, base, Cursor(base, s.base), d).value;
    PlacedKept(boxes, 3, r.0, base, r.1, d);
    assert PlaceFrom(boxes, 1, t, base, Cursor(base, s.base), d) == PlaceFrom(boxes, 2, t, base, Cursor(base, s.base), d);
  }

  /** What reading a segment's traf makes of the movie: its track's run appended, when the movie carries the track. */
  function WithSegment(m: MovieState, s: TrackSegment, at: int): MovieState {
    if s.trackID !in m.tracks || m.tracks[s.trackID].timescale == 0 then m
    else
      var t := WithRun(m.tracks[s.trackID], s, at, |s.samples|);
      MovieState(m.tracks[s.trackID := t.(fragDecodeEnd := s.base + DurBefore(s.samples, |s.samples|))], m.fragHeld + |s.samples|)
  }

  /** A traf whose anchor is the moof and whose parts read as given. */
  lemma TrackReadIs(boxes: seq<MemBox>, t: InTrack, h: Tfhd, room: int, moofStart: int, prevEnd: int, limit: int, d: Defaults, dts: int, r: (InTrack, Cursor))
    requires h.base.None? && h.defaultBaseIsMoof && Declared(boxes, |boxes|) <= room && TrunsFit(boxes, d.size, limit - moofStart)
    requires DecodeBase(boxes, |boxes|, t.fragDecodeEnd) == dts
    requires PlaceFrom(boxes, 0, t, moofStart, Cursor(moofStart, dts), d) == Ok(r)
    ensures TrackRead(boxes, t, h, room, moofStart, prevEnd, limit, d) == Ok(r)
  {
  }

  lemma {:induction false} TrackReads(boxes: seq<MemBox>, s: TrackSegment, dataOffset: int, t: InTrack, room: int, moofStart: int, prevEnd: int, limit: int, d: Defaults)
    requires TrafShape(boxes, s, dataOffset) && SegmentFits(s) && -P31 <= dataOffset < P31 && |s.samples| <= room
    ensures TrackRead(boxes, t, Tfhd(s.trackID, None, true, None, None, None), room, moofStart, prevEnd, limit, d)
      == Ok((WithRun(t, s, moofStart + dataOffset, |s.samples|), CursorAt(s, moofStart + dataOffset, |s.samples|)))
  {
    ShapeBase(boxes, s, dataOffset, t.fragDecodeEnd);
    ShapeFits(boxes, s, dataOffset, d.size, limit - moofStart);
    ShapePlaced(boxes, s, dataOffset, t, moofStart, d);
    TrackReadIs(boxes, t, Tfhd(s.trackID, None, true, None, None, None), room, moofStart, prevEnd, limit, d, s.base,
                (WithRun(t, s, moofStart + dataOffset, |s.samples|), CursorAt(s, moofStart + dataOffset, |s.samples|)));
  }

  lemma {:induction false} HeaderReads(s: TrackSegment, dataOffset: int, trafStart: int)
    requires s.trackID < P32 && |Traf(s, dataOffset, trafStart).payload| + 16 <= MAX_LEN
    ensures TrafHeader(Traf(s, dataOffset, trafStart).payload)
      == Ok(Some((TrafBoxes(s, dataOffset, trafStart), Tfhd(s.trackID, None, true, None, None, None))))
  {
    var boxes := TrafBoxes(s, dataOffset, trafStart);
    FramableWhen(boxes);
    IterOfConcat(boxes);
    BuiltShape(s, dataOffset, trafStart);
    ShapeHeader(boxes, s, dataOffset);
  }

  lemma {:induction false} TrafReads(m: MovieState, s: TrackSegment, dataOffset: int, trafStart: int, moofStart: int, prevEnd: int, limit: int, trex: map<nat, Defaults>)
    requires SegmentFits(s) && -P31 <= dataOffset < P31 && m.fragHeld + |s.samples| <= MAX_SAMPLES
    requires |Traf(s, dataOffset, trafStart).payload| + 16 <= MAX_LEN
    ensures var r := TrafRead(m, Traf(s, dataOffset, trafStart).payload, moofStart, prevEnd, limit, trex);
      r.Ok? && r.value.0 == WithSegment(m, s, moofStart + dataOffset)
  {
    hide TrackRead, Traf, TrafHeader;
    HeaderReads(s, dataOffset, trafStart);
    if s.trackID in m.tracks {
      var h := Tfhd(s.trackID, None, true, None, None, None);
      BuiltShape(s, dataOffset, trafStart);
      TrackReads(TrafBoxes(s, dataOffset, trafStart), s, dataOffset, m.tracks[s.trackID], MAX_SAMPLES - m.fragHeld,
                 moofStart, prevEnd, limit, DefaultsOf(h, trex));
    }
  }

  // ---- the fragment ----

  /** The movie once the first n segments are read, the data of the first starting at at and the others' following. */
  function ReadBack(m: MovieState, segs: seq<TrackSegment>, n: nat, at: int): MovieState
    requires n <= |segs|
  {
    if n == 0 then m else WithSegment(ReadBack(m, segs, n - 1, at), segs[n-1], at + DataBefore(segs, n - 1))
  }

  function SamplesIn(segs: seq<TrackSegment>, n: nat): nat
    requires n <= |segs|
  {
    if n == 0 then 0 else SamplesIn(segs, n - 1) + |segs[n-1].samples|
  }

  lemma {:induction false} SamplesGrow(segs: seq<TrackSegment>, n: nat)
    requires n <= |segs|
    ensures SamplesIn(segs, n) <= SamplesIn(segs, |segs|)
    decreases |segs| - n
  {
    if n < |segs| { SamplesGrow(segs, n + 1); }
  }

  lemma {:induction false} HeldBound(m: MovieState, segs: seq<TrackSegment>, n: nat, at: int)
    requires n <= |segs|
    ensures ReadBack(m, segs, n, at).fragHeld <= m.fragHeld + SamplesIn(segs, n)
  {
    if n > 0 { HeldBound(m, segs, n - 1, at); }
  }

  /** The segments of a fragment that can be written: fields in width, and offsets a trun's 32-bit field holds. */
  ghost predicate Writable(segs: seq<TrackSegment>, size: nat) {
    (forall i :: 0 <= i < |segs| ==> SegmentFits(segs[i])) &&
    (forall i :: 0 <= i <= |segs| ==> -P31 <= size + MDAT_HEADER + DataBefore(segs, i) < P31)
  }

  lemma {:induction false} TrafAtReads(m: MovieState, segs: seq<TrackSegment>, size: nat, start: int, n: nat, moofStart: int, prevEnd: int, limit: int, trex: map<nat, Defaults>)
    requires Writable(segs, size) && size > 0 && n < |segs| && m.fragHeld + |segs[n].samples| <= MAX_SAMPLES
    requires |TrafAt(BuildTraf(), segs, size, start, n).payload| + 16 <= MAX_LEN
    ensures var r := TrafRead(m, TrafAt(BuildTraf(), segs, size, start, n).payload, moofStart, prevEnd, limit, trex);
      r.Ok? && r.value.0 == WithSegment(m, segs[n], moofStart + size + MDAT_HEADER + DataBefore(segs, n))
    ensures TrafAt(BuildTraf(), segs, size, start, n).typ == TRAF
  {
    hide TrafRead, Concat, TrafBoxes;
    var offset, trafStart := DataOffset(size, DataBefore(segs, n)), TrafsEnd(BuildTraf(), segs, size, start, n);
    assert SegmentFits(segs[n]) && offset == size + MDAT_HEADER + DataBefore(segs, n);
    TrafReads(m, segs[n], offset, trafStart, moofStart, prevEnd, limit, trex);
  }

  lemma MoofFromStep(boxes: seq<MemBox>, i: nat, m: MovieState, m': MovieState, moofStart: int, prevEnd: int, limit: int, trex: map<nat, Defaults>) returns (end: int)
    requires i < |boxes| && boxes[i].typ == TRAF
    requires var r := TrafRead(m, boxes[i].payload, moofStart, prevEnd, limit, trex); r.Ok? && r.value.0 == m'
    ensures MoofFrom(boxes, i, m, moofStart, prevEnd, limit, trex) == MoofFrom(boxes, i + 1, m', moofStart, end, limit, trex)
  {
    var r := TrafRead(m, boxes[i].payload, moofStart, prevEnd, limit, trex).value;
    end := if r.1 > 0 then r.1 else prevEnd;
  }

  lemma {:induction false} MoofReadsFrom(m: MovieState, boxes: seq<MemBox>, segs: seq<TrackSegment>, size: nat, start: int, n: nat, moofStart: int, prevEnd: int, limit: int, trex: map<nat, Defaults>)
    requires Writable(segs, size) && 0 < size && n <= |segs|
    requires m.fragHeld + SamplesIn(segs, |segs|) <= MAX_SAMPLES
    requires |boxes| == |segs| + 1 && boxes[1..] == Trafs(BuildTraf(), segs, size, start) && Framable(boxes)
    ensures MoofFrom(boxes, n + 1, ReadBack(m, segs, n, moofStart + size + MDAT_HEADER), moofStart, prevEnd, limit, trex)
      == Ok(ReadBack(m, segs, |segs|, moofStart + size + MDAT_HEADER))
    decreases |segs| - n
  {
    hide TrafRead, Traf, WithSegment;
    if n < |segs| {
      var at := moofStart + size + MDAT_HEADER;
      assert boxes[n + 1] == boxes[1..][n] == TrafAt(BuildTraf(), segs, size, start, n);
      HeldBound(m, segs, n, at);
      SamplesGrow(segs, n + 1);
      TrafAtReads(ReadBack(m, segs, n, at), segs, size, start, n, moofStart, prevEnd, limit, trex);
      var end := MoofFromStep(boxes, n + 1, ReadBack(m, segs, n, at), ReadBack(m, segs, n + 1, at), moofStart, prevEnd, limit, trex);
      MoofReadsFrom(m, boxes, segs, size, start, n + 1, moofStart, end, limit, trex);
    }
  }

  lemma MoofReadIs(moof: seq<byte>, boxes: seq<MemBox>, m: MovieState, moofStart: int, limit: int, trex: map<nat, Defaults>)
    requires Iter(moof) == Ok(boxes) && |boxes| > 0 && boxes[0].typ != TRAF
    ensures MoofRead(m, moof, moofStart, limit, trex) == MoofFrom(boxes, 1, m, moofStart, -1, limit, trex)
  {
  }

  lemma {:induction false} MoofIters(sequence: int, segs: seq<TrackSegment>, moof: seq<byte>)
    requires moof == MoofOf(BuildTraf(), sequence, segs, |moof|) && |moof| < P31
    ensures var boxes := MoofBoxes(BuildTraf(), sequence, segs, |moof|); Iter(moof[8..]) == Ok(boxes) && Framable(boxes)
  {
    var boxes := MoofBoxes(BuildTraf(), sequence, segs, |moof|);
    SmallBody(MemBox(MOOF, Concat(boxes)));
    assert moof[8..] == Concat(boxes);
    FramableWhen(boxes);
    IterOfConcat(boxes);
  }

  /** Reading a fragment BuildMoof wrote gives every segment's samples back: size, sync flag, decode time, composition
      offset and duration, each placed where its data lies behind the moof and the mdat's header. */
  lemma {:induction false} WrittenReadsBack(sequence: int, segs: seq<TrackSegment>, moof: seq<byte>, m: MovieState, moofStart: int, limit: int, trex: map<nat, Defaults>)
    requires moof == MoofOf(BuildTraf(), sequence, segs, |moof|)
    requires Writable(segs, |moof|) && |moof| < P31
    requires m.fragHeld + SamplesIn(segs, |segs|) <= MAX_SAMPLES
    ensures MoofRead(m, moof[8..], moofStart, limit, trex) == Ok(ReadBack(m, segs, |segs|, moofStart + |moof| + MDAT_HEADER))
  {
    hide TrafRead, Traf, WithSegment, MoofRead, Iter;
    var boxes, start := MoofBoxes(BuildTraf(), sequence, segs, |moof|), 8 + |BoxOf(Mfhd(sequence))|;
    MoofIters(sequence, segs, moof);
    assert boxes[1..] == Trafs(BuildTraf(), segs, |moof|, start);
    Distinct();
    MoofReadIs(moof[8..], boxes, m, moofStart, limit, trex);
    MoofReadsFrom(m, boxes, segs, |moof|, start, 0, moofStart, -1, limit, trex);
  }

  // ---- the data ----

  /** The bytes of the first n samples, one after another. */
  function Flat(data: seq<seq<byte>>, n: nat): seq<byte>
    requires n <= |data|
  {
    if n == 0 then [] else Flat(data, n - 1) + data[n-1]
  }

  /** The data of the first n segments. */
  function FlatAll(data: seq<seq<seq<byte>>>, n: nat): seq<byte>
    requires n <= |data|
  {
    if n == 0 then [] else FlatAll(data, n - 1) + Flat(data[n-1], |data[n-1]|)
  }

  /** Each segment's samples with their bytes. */
  ghost predicate DataOf(segs: seq<TrackSegment>, data: seq<seq<seq<byte>>>) {
    |data| == |segs| && forall i :: 0 <= i < |segs| ==> SegmentData(segs[i], data[i])
  }

  ghost predicate SegmentData(s: TrackSegment, data: seq<seq<byte>>) {
    |data| == |s.samples| && s.dataLen == |Flat(data, |data|)| &&
    forall j :: 0 <= j < |data| ==> |data[j]| == s.samples[j].size
  }

  lemma {:induction false} FlatStands(s: TrackSegment, data: seq<seq<byte>>, j: nat, n: nat)
    requires SegmentData(s, data) && j < n <= |data|
    ensures StandsAt(Flat(data, n), SizeBefore(s.samples, j), data[j])
    decreases n
  {
    FlatLength(s, data, j);
    if j == n - 1 {
      Middle(Flat(data, j), data[j], []);
      assert data[j] + [] == data[j];
    } else {
      FlatStands(s, data, j, n - 1);
      StandsPrefix(Flat(data, n - 1), data[n-1], SizeBefore(s.samples, j), data[j]);
    }
  }

  lemma StandsPrefix(a: seq<byte>, b: seq<byte>, at: int, bytes: seq<byte>)
    requires StandsAt(a, at, bytes)
    ensures StandsAt(a + b, at, bytes)
  {
    Seqs.SliceLeft(a, b, at, at + |bytes|);
  }

  lemma {:induction false} FlatLength(s: TrackSegment, data: seq<seq<byte>>, n: nat)
    requires SegmentData(s, data) && n <= |data|
    ensures |Flat(data, n)| == SizeBefore(s.samples, n)
  {
    if n > 0 { FlatLength(s, data, n - 1); }
  }

  lemma {:induction false} FlatAllStands(segs: seq<TrackSegment>, data: seq<seq<seq<byte>>>, i: nat, n: nat)
    requires DataOf(segs, data) && i < n <= |data|
    ensures StandsAt(FlatAll(data, n), DataBefore(segs, i), Flat(data[i], |data[i]|))
    decreases n
  {
    FlatAllLength(segs, data, i);
    if i == n - 1 {
      Middle(FlatAll(data, i), Flat(data[i], |data[i]|), []);
      assert Flat(data[i], |data[i]|) + [] == Flat(data[i], |data[i]|);
    } else {
      FlatAllStands(segs, data, i, n - 1);
      StandsPrefix(FlatAll(data, n - 1), Flat(data[n-1], |data[n-1]|), DataBefore(segs, i), Flat(data[i], |data[i]|));
    }
  }

  lemma {:induction false} FlatAllLength(segs: seq<TrackSegment>, data: seq<seq<seq<byte>>>, n: nat)
    requires DataOf(segs, data) && n <= |data|
    ensures |FlatAll(data, n)| == DataBefore(segs, n)
  {
    if n > 0 { FlatAllLength(segs, data, n - 1); }
  }

  /** In a file that holds the segments' data from at on, the offset a reader holds for a sample, and its size, slice out
      that sample's bytes. */
  lemma OffsetsSlice(file: seq<byte>, at: int, segs: seq<TrackSegment>, data: seq<seq<seq<byte>>>, t: InTrack, i: nat, j: nat)
    requires DataOf(segs, data) && i < |segs| && j < |segs[i].samples|
    requires StandsAt(file, at, FlatAll(data, |data|))
    ensures var x := Expected(t, segs[i], at + DataBefore(segs, i), j);
      x.size == |data[i][j]| && StandsAt(file, x.offset, data[i][j])
  {
    FlatAllStands(segs, data, i, |data|);
    FlatStands(segs[i], data[i], j, |data[i]|);
    StandsInside(file, at, FlatAll(data, |data|), DataBefore(segs, i), Flat(data[i], |data[i]|));
    StandsInside(file, at + DataBefore(segs, i), Flat(data[i], |data[i]|), SizeBefore(segs[i].samples, j), data[i][j]);
  }
}
