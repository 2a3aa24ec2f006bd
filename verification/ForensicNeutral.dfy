/** Cutting a sample out of a written segment in place gives the segment the writer would have written without it, its
    time given to the sample before. */
module ForensicNeutral {
  import opened Arith
  import opened Bytes
  import opened Boxes
  import opened Fragment
  import opened FragParse
  import opened FragRoundTrip
  import opened Forensic

  // ---- a segment as it is written ----

  /** The segment type box. */
  const STYP: MemBox := MemBox([0x73, 0x74, 0x79, 0x70],
    [0x6D, 0x73, 0x64, 0x68, 0, 0, 0, 0, 0x6D, 0x73, 0x64, 0x68, 0x6D, 0x73, 0x69, 0x78, 0x63, 0x6D, 0x66, 0x73])

  function MdatHeader(n: nat): (b: seq<byte>)
    ensures |b| == 16
  {
    W32(1) + MDAT + W64(16 + n)
  }

  /** A run's entries, whatever their number. */
  function Entries(s: TrackSegment): (b: seq<byte>)
    ensures |b| == |s.samples| * EntrySize(s.hasCTS)
  {
    SamplesBytes(s.samples, s.hasCTS)
  }

  /** How long a one-track fragment without auxiliary information is. */
  function MoofLen(s: TrackSegment): nat { 88 + |s.samples| * EntrySize(s.hasCTS) }

  function MoofFor(sequence: int, s: TrackSegment): seq<byte> { MoofOf(BuildTraf(), sequence, [s], MoofLen(s)) }

  /** A video rendition's segment: type box, fragment, data. */
  function Segment(sequence: int, s: TrackSegment, data: seq<seq<byte>>): seq<byte> {
    BoxOf(STYP) + (MoofFor(sequence, s) + (MdatHeader(|Flat(data, |data|)|) + Flat(data, |data|)))
  }

  /** A single clear track's samples, each with its bytes, in a segment of ordinary size. */
  ghost predicate Plain(s: TrackSegment, data: seq<seq<byte>>) {
    s.cenc.None? && SegmentData(s, data) && MoofLen(s) + 16 < P31 && |Flat(data, |data|)| + 16 <= MAX_INT64 &&
    forall i :: 0 <= i < |s.samples| ==> s.samples[i].size < P32
  }

  // ---- the fragment's bytes, its five words apart ----

  function TrunTag(s: TrackSegment): (b: seq<byte>)
    ensures |b| == 4
  {
    [1] + ToBE(TRUN_FIELDS + (if s.hasCTS then TRUN_CTS else 0), 3)
  }

  function TrunWith(s: TrackSegment, len: seq<byte>, count: seq<byte>, offset: seq<byte>, entries: seq<byte>): seq<byte> {
    len + (TRUN + TrunTag(s) + (count + (offset + entries)))
  }

  function TrafWith(s: TrackSegment, len: seq<byte>, trun: seq<byte>): seq<byte> {
    len + (TRAF + BoxOf(TfhdBox(s)) + BoxOf(TfdtBox(s)) + trun)
  }

  function MoofWith(sequence: int, len: seq<byte>, traf: seq<byte>): seq<byte> {
    len + (MOOF + BoxOf(Mfhd(sequence)) + traf)
  }

  /** A fragment of so many entry bytes, its words and its entries given. */
  function Framed(sequence: int, s: TrackSegment, n: nat, entries: seq<byte>): seq<byte> {
    MoofWith(sequence, W32(88 + |entries|), TrafWith(s, W32(64 + |entries|),
      TrunWith(s, W32(20 + |entries|), W32(n), W32(104 + |entries|), entries)))
  }

  lemma WordsFixed()
    ensures forall v: nat :: v < P32 ==> W32(v) == U32(v)
  {
    forall v: nat | v < P32 ensures W32(v) == U32(v) { ModSmall(v, P32); }
  }

  lemma HeadLengths(sequence: int, s: TrackSegment)
    ensures |BoxOf(Mfhd(sequence))| == 16 && |BoxOf(TfhdBox(s))| == 16 && |BoxOf(TfdtBox(s))| == 20
  {
  }

  lemma TrunBytes(s: TrackSegment, offset: int)
    requires MoofLen(s) < P32
    ensures BoxOf(TrunBox(s, offset)) == TrunWith(s, W32(20 + |Entries(s)|), W32(|s.samples|), W32(offset), Entries(s))
  {
    hide SamplesBytes;
    WordsFixed();
    BoxPieces(W32(20 + |Entries(s)|), TRUN, TrunTag(s), W32(|s.samples|), W32(offset), Entries(s));
  }

  lemma BoxPieces(len: seq<byte>, typ: seq<byte>, tag: seq<byte>, a: seq<byte>, b: seq<byte>, c: seq<byte>)
    ensures len + typ + (tag + (a + b + c)) == len + (typ + tag + (a + (b + c)))
  {
  }

  lemma TrafBytes(s: TrackSegment, offset: int, start: int)
    requires MoofLen(s) < P32 && s.cenc.None?
    ensures BoxOf(Traf(s, offset, start)) == TrafWith(s, W32(64 + |Entries(s)|), BoxOf(TrunBox(s, offset)))
    ensures |BoxOf(Traf(s, offset, start))| == 64 + |Entries(s)|
  {
    hide SamplesBytes, TfhdBox, TfdtBox, TrunBox, ToBE, W32;
    HeadLengths(0, s);
    TrunBytes(s, offset);
    var a, b, c := TfhdBox(s), TfdtBox(s), TrunBox(s, offset);
    assert [a, b, c] + [] == [a] + ([b] + [c]);
    ConcatCons(a, [b] + [c]);
    ConcatCons(b, [c]);
    ConcatOne(c);
    WordsFixed();
    TrafPieces(W32(64 + |Entries(s)|), TRAF, BoxOf(a), BoxOf(b), BoxOf(c));
  }

  lemma TrafPieces(len: seq<byte>, typ: seq<byte>, a: seq<byte>, b: seq<byte>, c: seq<byte>)
    ensures len + typ + (a + (b + c)) == len + (typ + a + b + c)
  {
  }

  /** The fragment of one clear track is its framed entries. */
  lemma MoofBytes(sequence: int, s: TrackSegment)
    requires MoofLen(s) < P32 && s.cenc.None?
    ensures MoofFor(sequence, s) == Framed(sequence, s, |s.samples|, Entries(s)) && |MoofFor(sequence, s)| == MoofLen(s)
  {
    hide SamplesBytes, TfhdBox, TfdtBox, TrunBox, ToBE, W32, Mfhd, Traf, TrunWith, TrafWith, Concat;
    HeadLengths(sequence, s);
    var m := MoofLen(s);
    var traf := Traf(s, m + 16, 24);
    assert DataBefore([s], 0) == 0;
    assert TrafAt(BuildTraf(), [s], m, 24, 0) == traf;
    assert Trafs(BuildTraf(), [s], m, 24) == [traf];
    TrafBytes(s, m + 16, 24);
    TrunBytes(s, m + 16);
    ConcatCons(Mfhd(sequence), [traf]);
    ConcatOne(traf);
    WordsFixed();
    MoofPieces(W32(m), MOOF, BoxOf(Mfhd(sequence)), BoxOf(traf));
  }

  lemma MoofPieces(len: seq<byte>, typ: seq<byte>, a: seq<byte>, b: seq<byte>)
    ensures len + typ + (a + b) == len + (typ + a + b)
  {
  }

  // ---- reading it back ----

  lemma BoxAtBox(seg: seq<byte>, off: nat, b: MemBox)
    requires StandsAt(seg, off, BoxOf(b)) && Small(BoxOf(b))
    ensures BoxAt(seg, off) == Some(BoxHead(b.typ, 8, |BoxOf(b)|))
  {
    var box := BoxOf(b);
    assert box[..4] == U32(|b.payload| + 8) && box[4..8] == b.typ;
    SliceOfSlice(seg, off, off + |box|, 0, 4);
    SliceOfSlice(seg, off, off + |box|, 4, 8);
  }

  lemma BoxAtMdat(seg: seq<byte>, off: nat, n: nat)
    requires StandsAt(seg, off, MdatHeader(n)) && off + 16 + n <= |seg| && n + 16 <= MAX_INT64
    ensures BoxAt(seg, off) == Some(BoxHead(MDAT, 16, 16 + n))
  {
    var h := MdatHeader(n);
    assert h[..4] == W32(1) && h[4..8] == MDAT && h[8..16] == W64(16 + n);
    SliceOfSlice(seg, off, off + 16, 0, 4);
    SliceOfSlice(seg, off, off + 16, 4, 8);
    SliceOfSlice(seg, off, off + 16, 8, 16);
    WordReads(1);
    ModSmall(16 + n, P64);
    Powers();
    BEOfToBE(16 + n, 8);
  }

  /** One step of a walk. */
  lemma WalkStep<S>(seg: seq<byte>, off: nat, end: nat, step: Step<S>, s: S, b: BoxHead, s': S)
    requires off < end && BoxAt(seg, off) == Some(b) && step(s, off, b) == Some(s')
    ensures Walk(seg, off, end, step, s) == Walk(seg, off + b.size, end, step, s')
  {
  }

  lemma Types()
    ensures STYP.typ != MOOF && STYP.typ != MDAT && MDAT != MOOF && MFHD != TRAF
    ensures TFHD != TRUN && TFDT != TRUN
    ensures TFHD !in [SENC, SAIZ, SAIO] && TFDT !in [SENC, SAIZ, SAIO] && TRUN !in [SENC, SAIZ, SAIO]
  {
    assert STYP.typ[0] == 0x73 && MOOF[0] == 0x6D && MDAT[0] == 0x6D && MOOF[1] == 0x6F && MDAT[1] == 0x64;
    assert MFHD[0] == 0x6D && TRAF[0] == 0x74 && TFHD[1] == 0x66 && TRUN[1] == 0x72 && TFDT[1] == 0x66;
    assert TFHD[0] == TFDT[0] == TRUN[0] == 0x74 && SENC[0] == SAIZ[0] == SAIO[0] == 0x73;
  }

  /** Where a segment's pieces stand. */
  ghost predicate Laid(seg: seq<byte>, moof: seq<byte>, data: seq<byte>) {
    && StandsAt(seg, 0, BoxOf(STYP)) && StandsAt(seg, 28, moof)
    && StandsAt(seg, 28 + |moof|, MdatHeader(|data|)) && StandsAt(seg, 44 + |moof|, data)
    && |seg| == 44 + |moof| + |data|
  }

  lemma SegmentLaid(moof: seq<byte>, data: seq<byte>)
    ensures Laid(BoxOf(STYP) + (moof + (MdatHeader(|data|) + data)), moof, data)
  {
    hide MdatHeader;
    var styp, hdr := BoxOf(STYP), MdatHeader(|data|);
    assert |styp| == 28;
    var seg := styp + (moof + (hdr + data));
    Middle([], styp, moof + (hdr + data));
    assert [] + seg == seg;
    Middle(styp, moof, hdr + data);
    assert seg == styp + moof + (hdr + data);
    Middle(styp + moof, hdr, data);
    assert seg == styp + moof + hdr + (data + []);
    Middle(styp + moof + hdr, data, []);
  }

  lemma TopReads(seg: seq<byte>, moof: MemBox, data: seq<byte>)
    requires Laid(seg, BoxOf(moof), data) && moof.typ == MOOF && Small(BoxOf(moof)) && |data| + 16 <= MAX_INT64
    ensures TopOf(seg) == Some(Top(Some(Span(28, |BoxOf(moof)|)), Some((Span(28 + |BoxOf(moof)|, 16 + |data|), 16))))
  {
    hide BoxOf, BoxAt, MdatHeader;
    var n := |BoxOf(moof)|;
    assert |BoxOf(STYP)| == 28;
    BoxAtBox(seg, 0, STYP);
    BoxAtBox(seg, 28, moof);
    BoxAtMdat(seg, 28 + n, |data|);
    Types();
    var t0 := Top(None, None);
    var t1 := Top(Some(Span(28, n)), None);
    var t2 := Top(Some(Span(28, n)), Some((Span(28 + n, 16 + |data|), 16)));
    assert TopStep()(t0, 0, BoxHead(STYP.typ, 8, 28)) == Some(t0);
    WalkStep(seg, 0, |seg|, TopStep(), t0, BoxHead(STYP.typ, 8, 28), t0);
    WalkStep(seg, 28, |seg|, TopStep(), t0, BoxHead(MOOF, 8, n), t1);
    WalkStep(seg, 28 + n, |seg|, TopStep(), t1, BoxHead(MDAT, 16, 16 + |data|), t2);
  }

  /** The fragment's boxes, in the segment. */
  ghost predicate Inside(seg: seq<byte>, sequence: int, s: TrackSegment) {
    var moof := MoofFor(sequence, s);
    && StandsAt(seg, 28, moof) && |moof| == MoofLen(s)
    && StandsAt(seg, 36, BoxOf(Mfhd(sequence))) && StandsAt(seg, 52, BoxOf(Traf(s, MoofLen(s) + 16, 24)))
    && StandsAt(seg, 60, BoxOf(TfhdBox(s))) && StandsAt(seg, 76, BoxOf(TfdtBox(s))) && StandsAt(seg, 96, BoxOf(TrunBox(s, MoofLen(s) + 16)))
  }

  lemma TwoStand(len: seq<byte>, typ: seq<byte>, a: seq<byte>, b: seq<byte>)
    ensures var r := len + (typ + a + b); StandsAt(r, |len| + |typ|, a) && StandsAt(r, |len| + |typ| + |a|, b)
  {
    Middle(len + typ, a, b);
    assert len + typ + (a + b) == len + (typ + a + b);
    Middle(len + typ + a, b, []);
    assert len + typ + a + (b + []) == len + (typ + a + b);
  }

  lemma MoofWithStands(sequence: int, len: seq<byte>, traf: seq<byte>)
    requires |len| == 4
    ensures StandsAt(MoofWith(sequence, len, traf), 8, BoxOf(Mfhd(sequence))) && StandsAt(MoofWith(sequence, len, traf), 24, traf)
  {
    hide StandsAt;
    TwoStand(len, MOOF, BoxOf(Mfhd(sequence)), traf);
  }

  lemma TrafWithStands(s: TrackSegment, len: seq<byte>, trun: seq<byte>)
    requires |len| == 4
    ensures var b := TrafWith(s, len, trun);
      StandsAt(b, 8, BoxOf(TfhdBox(s))) && StandsAt(b, 24, BoxOf(TfdtBox(s))) && StandsAt(b, 44, trun)
  {
    hide TfhdBox, TfdtBox, BoxOf;
    HeadLengths(0, s);
    var a, c := BoxOf(TfhdBox(s)), BoxOf(TfdtBox(s));
    var b := len + (TRAF + a + c + trun);
    Middle(len + TRAF, a, c + trun);
    assert len + TRAF + (a + (c + trun)) == b;
    Middle(len + TRAF + a, c, trun);
    assert len + TRAF + a + (c + trun) == b;
    Middle(len + TRAF + a + c, trun, []);
    assert len + TRAF + a + c + (trun + []) == b;
  }

  lemma InsideHolds(seg: seq<byte>, sequence: int, s: TrackSegment)
    requires MoofLen(s) + 16 < P31 && s.cenc.None? && StandsAt(seg, 28, MoofFor(sequence, s))
    ensures Inside(seg, sequence, s)
  {
    hide MoofFor, MoofWith, TrafWith, TrunWith, Traf, TrunBox, TfhdBox, TfdtBox, Mfhd, Entries, W32, BoxOf;
    MoofBytes(sequence, s);
    TrafBytes(s, MoofLen(s) + 16, 24);
    TrunBytes(s, MoofLen(s) + 16);
    var traf, trun := BoxOf(Traf(s, MoofLen(s) + 16, 24)), BoxOf(TrunBox(s, MoofLen(s) + 16));
    assert MoofFor(sequence, s) == MoofWith(sequence, W32(MoofLen(s)), traf);
    MoofWithStands(sequence, W32(MoofLen(s)), traf);
    TrafWithStands(s, W32(64 + |Entries(s)|), trun);
    var moof := MoofFor(sequence, s);
    StandsInside(seg, 28, moof, 8, BoxOf(Mfhd(sequence)));
    StandsInside(seg, 28, moof, 24, traf);
    StandsInside(seg, 52, traf, 8, BoxOf(TfhdBox(s)));
    StandsInside(seg, 52, traf, 24, BoxOf(TfdtBox(s)));
    StandsInside(seg, 52, traf, 44, trun);
  }

  lemma TrunLength(s: TrackSegment, offset: int)
    requires MoofLen(s) < P32
    ensures |BoxOf(TrunBox(s, offset))| == 20 + |Entries(s)| && |TrunBox(s, offset).payload| == 12 + |Entries(s)|
  {
  }

  lemma RunBoxesRead(seg: seq<byte>, sequence: int, s: TrackSegment)
    requires Inside(seg, sequence, s) && MoofLen(s) + 16 < P31 && s.cenc.None?
    ensures RunBoxes(seg, Span(28, MoofLen(s))) == Some((Span(52, MoofLen(s) - 24), Span(96, MoofLen(s) - 68)))
  {
    var offset, n := MoofLen(s) + 16, MoofLen(s);
    FirstWalk(seg, sequence, s);
    SecondWalk(seg, sequence, s);
  }

  lemma FirstWalk(seg: seq<byte>, sequence: int, s: TrackSegment)
    requires Inside(seg, sequence, s) && MoofLen(s) + 16 < P31 && s.cenc.None?
    ensures Walk(seg, 36, 28 + MoofLen(s), TrafStep(), None) == Some(Some(Span(52, MoofLen(s) - 24)))
  {
    hide BoxOf, BoxAt, Traf, Mfhd, MoofFor;
    var n := MoofLen(s);
    var traf := Traf(s, n + 16, 24);
    HeadLengths(sequence, s);
    TrafBytes(s, n + 16, 24);
    assert traf.typ == TRAF && Mfhd(sequence).typ == MFHD by { TrafTyp(s, n + 16, 24); MfhdTyp(sequence); }
    BoxAtBox(seg, 36, Mfhd(sequence));
    BoxAtBox(seg, 52, traf);
    Types();
    WalkStep(seg, 36, 28 + n, TrafStep(), None, BoxHead(MFHD, 8, 16), None);
    WalkStep(seg, 52, 28 + n, TrafStep(), None, BoxHead(TRAF, 8, n - 24), Some(Span(52, n - 24)));
  }

  lemma TrafTyp(s: TrackSegment, offset: int, start: int)
    ensures Traf(s, offset, start).typ == TRAF
  {
    hide TrafBoxes, Concat;
  }

  lemma MfhdTyp(sequence: int)
    ensures Mfhd(sequence).typ == MFHD
  {
  }

  lemma TrunTyps(s: TrackSegment, offset: int)
    ensures TfhdBox(s).typ == TFHD && TfdtBox(s).typ == TFDT && TrunBox(s, offset).typ == TRUN
  {
    hide SamplesBytes;
  }

  lemma SecondWalk(seg: seq<byte>, sequence: int, s: TrackSegment)
    requires Inside(seg, sequence, s) && MoofLen(s) + 16 < P31 && s.cenc.None?
    ensures Walk(seg, 60, 28 + MoofLen(s), TrunStep(), None) == Some(Some(Span(96, MoofLen(s) - 68)))
  {
    hide BoxOf, BoxAt, Traf, Mfhd, MoofFor, TfhdBox, TfdtBox, TrunBox, Entries;
    var n, offset := MoofLen(s), MoofLen(s) + 16;
    HeadLengths(sequence, s);
    TrunLength(s, offset);
    TrunTyps(s, offset);
    BoxAtBox(seg, 60, TfhdBox(s));
    BoxAtBox(seg, 76, TfdtBox(s));
    BoxAtBox(seg, 96, TrunBox(s, offset));
    Types();
    WalkStep(seg, 60, 28 + n, TrunStep(), None, BoxHead(TFHD, 8, 16), None);
    WalkStep(seg, 76, 28 + n, TrunStep(), None, BoxHead(TFDT, 8, 20), None);
    WalkStep(seg, 96, 28 + n, TrunStep(), None, BoxHead(TRUN, 8, n - 68), Some(Span(96, n - 68)));
  }

  // ---- the entries ----

  /** A sample's fields as its entry holds them. */
  function RowOf(m: Sample): Row { Row(Unsigned(m.dur, P32), Unsigned(m.size, P32), if m.sync then SYNC else NON_SYNC) }

  function RowsOf(samples: seq<Sample>): (r: seq<Row>)
    ensures |r| == |samples|
  {
    seq(|samples|, i requires 0 <= i < |samples| => RowOf(samples[i]))
  }

  lemma WordIs(v: int)
    ensures BE(W32(v)) == Unsigned(v, P32)
  {
    Powers();
    BEOfToBE(Unsigned(v, P32), 4);
  }

  lemma RowReads(seg: seq<byte>, at: nat, m: Sample, hasCTS: bool)
    requires StandsAt(seg, at, SampleBytes(m, hasCTS))
    ensures RowAt(seg, at) == RowOf(m)
  {
    hide W32;
    var b, flags := SampleBytes(m, hasCTS), if m.sync then SYNC else NON_SYNC;
    assert b[0..4] == W32(m.dur) && b[4..8] == W32(m.size) && b[8..12] == W32(flags);
    SliceOfSlice(seg, at, at + |b|, 0, 4);
    SliceOfSlice(seg, at, at + |b|, 4, 8);
    SliceOfSlice(seg, at, at + |b|, 8, 12);
    WordIs(m.dur); WordIs(m.size); WordIs(flags);
    ModSmall(flags, P32);
  }

  lemma {:induction false} RowsRead(seg: seq<byte>, at: nat, samples: seq<Sample>, hasCTS: bool)
    requires StandsAt(seg, at, SamplesBytes(samples, hasCTS))
    ensures Rows(seg, at, hasCTS, |samples|) == RowsOf(samples)
    decreases |samples|
  {
    hide SampleBytes, RowAt, RowOf, W32, StandsAt;
    if samples != [] {
      var es := EntrySize(hasCTS);
      Middle([], SampleBytes(samples[0], hasCTS), SamplesBytes(samples[1..], hasCTS));
      assert [] + SamplesBytes(samples, hasCTS) == SamplesBytes(samples, hasCTS);
      StandsInside(seg, at, SamplesBytes(samples, hasCTS), 0, SampleBytes(samples[0], hasCTS));
      RowReads(seg, at, samples[0], hasCTS);
      Middle(SampleBytes(samples[0], hasCTS), SamplesBytes(samples[1..], hasCTS), []);
      assert SampleBytes(samples[0], hasCTS) + (SamplesBytes(samples[1..], hasCTS) + []) == SamplesBytes(samples, hasCTS);
      StandsInside(seg, at, SamplesBytes(samples, hasCTS), es, SamplesBytes(samples[1..], hasCTS));
      RowsRead(seg, at + es, samples[1..], hasCTS);
      assert RowsOf(samples) == [RowOf(samples[0])] + RowsOf(samples[1..]);
    }
  }

  lemma TrunWithStands(s: TrackSegment, len: seq<byte>, count: seq<byte>, offset: seq<byte>, entries: seq<byte>)
    requires |len| == |count| == |offset| == 4
    ensures var b := TrunWith(s, len, count, offset, entries);
      StandsAt(b, 8, TrunTag(s)) && StandsAt(b, 12, count) && StandsAt(b, 16, offset) && StandsAt(b, 20, entries)
  {
    hide TrunTag, StandsAt;
    var tag := TrunTag(s);
    var b := len + (TRUN + tag + (count + (offset + entries)));
    Middle(len + TRUN, tag, count + (offset + entries));
    assert len + TRUN + (tag + (count + (offset + entries))) == b;
    Middle(len + TRUN + tag, count, offset + entries);
    assert len + TRUN + tag + (count + (offset + entries)) == b;
    Middle(len + TRUN + tag + count, offset, entries);
    assert len + TRUN + tag + count + (offset + entries) == b;
    Middle(len + TRUN + tag + count + offset, entries, []);
    assert len + TRUN + tag + count + offset + (entries + []) == b;
  }

  lemma TagReads(s: TrackSegment)
    ensures var flags := BE(TrunTag(s)) % 0x100_0000;
      ListsFields(flags) && (flags / 0x800 % 2 == 1) == s.hasCTS
  {
    var flags := TRUN_FIELDS + (if s.hasCTS then TRUN_CTS else 0);
    FullBoxReads(TRUN, 1, flags, []);
    assert FullBox(TRUN, 1, flags, []).payload[..4] == TrunTag(s);
  }

  lemma RunReadAt(seg: seq<byte>, sequence: int, s: TrackSegment)
    requires Inside(seg, sequence, s) && MoofLen(s) + 16 < P31 && s.cenc.None?
    ensures RunAt(seg, Span(96, MoofLen(s) - 68), Span(52, MoofLen(s) - 24)) == Some(Run(s.hasCTS, MoofLen(s) + 16, RowsOf(s.samples)))
  {
    hide BoxOf, Traf, Mfhd, MoofFor, TfhdBox, TfdtBox, TrunBox, TrunWith, TrunTag, SamplesBytes, W32, RowsOf, Rows;
    var offset := MoofLen(s) + 16;
    TrunBytes(s, offset);
    TrunLength(s, offset);
    var trun := BoxOf(TrunBox(s, offset));
    var count, off := W32(|s.samples|), W32(offset);
    TrunWithStands(s, W32(20 + |Entries(s)|), count, off, Entries(s));
    StandsInside(seg, 96, trun, 8, TrunTag(s));
    StandsInside(seg, 96, trun, 12, count);
    StandsInside(seg, 96, trun, 16, off);
    StandsInside(seg, 96, trun, 20, Entries(s));
    TagReads(s);
    WordReads(|s.samples|);
    SignedWordReads(offset);
    RowsRead(seg, 116, s.samples, s.hasCTS);
  }

  lemma {:induction false} SizesAgree(s: TrackSegment, data: seq<seq<byte>>, n: nat)
    requires Plain(s, data) && n <= |s.samples|
    ensures SizeSum(RowsOf(s.samples), n) == SizeBefore(s.samples, n)
  {
    if n > 0 {
      SizesAgree(s, data, n - 1);
      ModSmall(s.samples[n-1].size, P32);
    }
  }

  /** A written segment's geometry. */
  function WrittenGeometry(s: TrackSegment, size: nat): Geometry {
    var n := MoofLen(s);
    Geometry(Span(28, n), Span(52, n - 24), Span(96, n - 68), s.hasCTS, n + 16, Span(28 + n, 16 + size), 16, RowsOf(s.samples))
  }

  /** The editor reads every segment the writer gives a video rendition: its geometry, and each entry's fields. */
  lemma GeometryReads(sequence: int, s: TrackSegment, data: seq<seq<byte>>)
    requires Plain(s, data)
    ensures GeometryOf(Segment(sequence, s, data)) == Some(WrittenGeometry(s, |Flat(data, |data|)|))
  {
    hide MoofFor, BoxOf, Flat, TopOf, RunBoxes, RunAt, MdatHeader, Traf, RowsOf;
    var seg, flat := Segment(sequence, s, data), Flat(data, |data|);
    MoofBytes(sequence, s);
    SegmentLaid(MoofFor(sequence, s), flat);
    MoofIsBox(sequence, s);
    TopReads(seg, MoofBox(sequence, s), flat);
    InsideHolds(seg, sequence, s);
    RunBoxesRead(seg, sequence, s);
    RunReadAt(seg, sequence, s);
    SizesAgree(s, data, |s.samples|);
    FlatLength(s, data, |data|);
  }

  function MoofBox(sequence: int, s: TrackSegment): MemBox {
    MemBox(MOOF, Concat(MoofBoxes(BuildTraf(), sequence, [s], MoofLen(s))))
  }

  lemma MoofIsBox(sequence: int, s: TrackSegment)
    ensures MoofFor(sequence, s) == BoxOf(MoofBox(sequence, s)) && MoofBox(sequence, s).typ == MOOF
  {
    hide Concat, MoofBoxes;
  }

  lemma WrittenNested(sequence: int, s: TrackSegment, data: seq<seq<byte>>)
    requires Plain(s, data)
    ensures Nested(WrittenGeometry(s, |Flat(data, |data|)|), Segment(sequence, s, data))
  {
    hide MoofFor, Flat, MdatHeader, RowsOf;
    MoofBytes(sequence, s);
    SizesAgree(s, data, |s.samples|);
    FlatLength(s, data, |data|);
    assert |BoxOf(STYP)| == 28;
  }

  // ---- patching and cutting, piece by piece ----

  /** A fragment of five words and its entries. */
  function Whole(q: int, s: TrackSegment, a: seq<byte>, b: seq<byte>, c: seq<byte>, d: seq<byte>, e: seq<byte>, entries: seq<byte>): seq<byte> {
    MoofWith(q, a, TrafWith(s, b, TrunWith(s, c, d, e, entries)))
  }

  lemma InMoof(q: int, len: seq<byte>, traf: seq<byte>, at: nat, x: seq<byte>)
    requires |len| == 4 && 24 <= at && at + |x| <= 24 + |traf|
    ensures at + |x| <= |MoofWith(q, len, traf)|
    ensures Put(MoofWith(q, len, traf), at, x) == MoofWith(q, len, Put(traf, at - 24, x))
  {
    hide Mfhd, Put;
    var m := BoxOf(Mfhd(q));
    assert |m| == 16 by { HeadLengths(q, TrackSegment(0, 0, [], false, 0, None)); }
    Regroup(len, MOOF + m, traf);
    PutIn(len + (MOOF + m), traf, at, x);
    Regroup(len, MOOF + m, Put(traf, at - 24, x));
  }

  lemma Regroup(a: seq<byte>, b: seq<byte>, c: seq<byte>)
    ensures a + (b + c) == a + b + c
  {
  }

  lemma InTraf(s: TrackSegment, len: seq<byte>, trun: seq<byte>, at: nat, x: seq<byte>)
    requires |len| == 4 && 44 <= at && at + |x| <= 44 + |trun|
    ensures at + |x| <= |TrafWith(s, len, trun)|
    ensures Put(TrafWith(s, len, trun), at, x) == TrafWith(s, len, Put(trun, at - 44, x))
  {
    hide TfhdBox, TfdtBox, Put, BoxOf;
    HeadLengths(0, s);
    var m := TRAF + BoxOf(TfhdBox(s)) + BoxOf(TfdtBox(s));
    Regroup(len, m, trun);
    PutIn(len + m, trun, at, x);
    Regroup(len, m, Put(trun, at - 44, x));
  }

  lemma InTrun(s: TrackSegment, c: seq<byte>, d: seq<byte>, e: seq<byte>, entries: seq<byte>, x: seq<byte>)
    requires |c| == |d| == |e| == |x| == 4
    ensures |TrunWith(s, c, d, e, entries)| == 20 + |entries|
    ensures Put(TrunWith(s, c, d, e, entries), 0, x) == TrunWith(s, x, d, e, entries)
    ensures Put(TrunWith(s, c, d, e, entries), 12, x) == TrunWith(s, c, x, e, entries)
    ensures Put(TrunWith(s, c, d, e, entries), 16, x) == TrunWith(s, c, d, x, entries)
  {
    hide TrunTag, Put;
    var t := TRUN + TrunTag(s);
    PutFirst(c, t + (d + (e + entries)), x);
    Regroup(c, t, d + (e + entries));
    PutIn(c + t, d + (e + entries), 12, x);
    PutFirst(d, e + entries, x);
    Regroup(c, t, x + (e + entries));
    PutIn(c + t, d + (e + entries), 16, x);
    PutIn(d, e + entries, 4, x);
    PutFirst(e, entries, x);
    Regroup(c, t, d + (x + entries));
  }

  lemma InEntries(s: TrackSegment, c: seq<byte>, d: seq<byte>, e: seq<byte>, entries: seq<byte>, p: nat, x: seq<byte>)
    requires |c| == |d| == |e| == 4 && p + |x| <= |entries|
    ensures |TrunWith(s, c, d, e, entries)| == 20 + |entries|
    ensures Put(TrunWith(s, c, d, e, entries), 20 + p, x) == TrunWith(s, c, d, e, Put(entries, p, x))
  {
    hide TrunTag, Put;
    var t := TRUN + TrunTag(s);
    Regroup(c, t, d + (e + entries));
    PutIn(c + t, d + (e + entries), 20 + p, x);
    PutIn(d, e + entries, 8 + p, x);
    PutIn(e, entries, 4 + p, x);
    Regroup(c, t, d + (e + Put(entries, p, x)));
  }

  lemma WholeLength(q: int, s: TrackSegment, a: seq<byte>, b: seq<byte>, c: seq<byte>, d: seq<byte>, e: seq<byte>, entries: seq<byte>)
    requires |a| == |b| == |c| == |d| == |e| == 4
    ensures |TrunWith(s, c, d, e, entries)| == 20 + |entries|
    ensures |TrafWith(s, b, TrunWith(s, c, d, e, entries))| == 64 + |entries|
    ensures |Whole(q, s, a, b, c, d, e, entries)| == 88 + |entries|
  {
    hide Mfhd, TfhdBox, TfdtBox, BoxOf;
    HeadLengths(q, s);
  }

  lemma PutSizes(q: int, s: TrackSegment, a: seq<byte>, b: seq<byte>, c: seq<byte>, d: seq<byte>, e: seq<byte>, entries: seq<byte>, x: int, y: int, z: int)
    requires |a| == |b| == |c| == |d| == |e| == 4
    ensures |Whole(q, s, a, b, c, d, e, entries)| == 88 + |entries|
    ensures PutThree(Whole(q, s, a, b, c, d, e, entries), 0, x, 24, y, 68, z) == Whole(q, s, W32(x), W32(y), W32(z), d, e, entries)
  {
    hide TrunWith, Put, W32, BoxOf, TfhdBox, TfdtBox, Mfhd;
    WholeLength(q, s, a, b, c, d, e, entries);
    var trun := TrunWith(s, c, d, e, entries);
    PutFirst(a, MOOF + BoxOf(Mfhd(q)) + TrafWith(s, b, trun), W32(x));
    InMoof(q, W32(x), TrafWith(s, b, trun), 24, W32(y));
    PutFirst(b, TRAF + BoxOf(TfhdBox(s)) + BoxOf(TfdtBox(s)) + trun, W32(y));
    InMoof(q, W32(x), TrafWith(s, W32(y), trun), 68, W32(z));
    InTraf(s, W32(y), trun, 44, W32(z));
    InTrun(s, c, d, e, entries, W32(z));
  }

  lemma PutRun(q: int, s: TrackSegment, a: seq<byte>, b: seq<byte>, c: seq<byte>, d: seq<byte>, e: seq<byte>, entries: seq<byte>, x: int, y: int, p: nat, z: int)
    requires |a| == |b| == |c| == |d| == |e| == 4 && p + 4 <= |entries|
    ensures |Whole(q, s, a, b, c, d, e, entries)| == 88 + |entries|
    ensures PutThree(Whole(q, s, a, b, c, d, e, entries), 80, x, 84, y, 88 + p, z)
      == Whole(q, s, a, b, c, W32(x), W32(y), Put(entries, p, W32(z)))
  {
    hide TrunWith, TrafWith, MoofWith, Put, W32, BoxOf, TfhdBox, TfdtBox, Mfhd;
    WholeLength(q, s, a, b, c, d, e, entries);
    InWhole(q, s, a, b, TrunWith(s, c, d, e, entries), 80, W32(x));
    InTrun(s, c, d, e, entries, W32(x));
    InWhole(q, s, a, b, TrunWith(s, c, W32(x), e, entries), 84, W32(y));
    InTrun(s, c, W32(x), e, entries, W32(y));
    InWhole(q, s, a, b, TrunWith(s, c, W32(x), W32(y), entries), 88 + p, W32(z));
    InEntries(s, c, W32(x), W32(y), entries, p, W32(z));
  }

  lemma InWhole(q: int, s: TrackSegment, a: seq<byte>, b: seq<byte>, trun: seq<byte>, at: nat, x: seq<byte>)
    requires |a| == |b| == 4 && 68 <= at && at + |x| <= 68 + |trun|
    ensures at + |x| <= |MoofWith(q, a, TrafWith(s, b, trun))|
    ensures Put(MoofWith(q, a, TrafWith(s, b, trun)), at, x) == MoofWith(q, a, TrafWith(s, b, Put(trun, at - 68, x)))
  {
    hide MoofWith, Put;
    InTraf(s, b, trun, at - 24, x);
    InMoof(q, a, TrafWith(s, b, trun), at, x);
  }

  lemma CutWhole(q: int, s: TrackSegment, a: seq<byte>, b: seq<byte>, c: seq<byte>, d: seq<byte>, e: seq<byte>, entries: seq<byte>, p: nat, n: nat)
    requires |a| == |b| == |c| == |d| == |e| == 4 && p + n <= |entries|
    ensures |Whole(q, s, a, b, c, d, e, entries)| == 88 + |entries|
    ensures Cut(Whole(q, s, a, b, c, d, e, entries), 88 + p, n) == Whole(q, s, a, b, c, d, e, Cut(entries, p, n))
  {
    hide Mfhd, TfhdBox, TfdtBox, BoxOf, TrunTag, Cut;
    WholeLength(q, s, a, b, c, d, e, entries);
    HeadLengths(q, s);
    Prefixing(a, MOOF + BoxOf(Mfhd(q)), b, TRAF + BoxOf(TfhdBox(s)) + BoxOf(TfdtBox(s)), c, TRUN + TrunTag(s), d, e, entries);
    var head := a + (MOOF + BoxOf(Mfhd(q))) + b + (TRAF + BoxOf(TfhdBox(s)) + BoxOf(TfdtBox(s))) + c + (TRUN + TrunTag(s)) + d + e;
    CutIn(head, entries, 88 + p, n);
    Prefixing(a, MOOF + BoxOf(Mfhd(q)), b, TRAF + BoxOf(TfhdBox(s)) + BoxOf(TfdtBox(s)), c, TRUN + TrunTag(s), d, e, Cut(entries, p, n));
  }

  lemma Prefixing(a: seq<byte>, m: seq<byte>, b: seq<byte>, t: seq<byte>, c: seq<byte>, r: seq<byte>, d: seq<byte>, e: seq<byte>, f: seq<byte>)
    ensures a + (m + (b + (t + (c + (r + (d + (e + f))))))) == a + m + b + t + c + r + d + e + f
  {
    Regroup(a, m, b + (t + (c + (r + (d + (e + f))))));
    Regroup(a + m, b, t + (c + (r + (d + (e + f)))));
    Regroup(a + m + b, t, c + (r + (d + (e + f))));
    Regroup(a + m + b + t, c, r + (d + (e + f)));
    Regroup(a + m + b + t + c, r, d + (e + f));
    Regroup(a + m + b + t + c + r, d, e + f);
    Regroup(a + m + b + t + c + r + d, e, f);
  }

  // ---- the run and the data without one sample ----

  /** A run without sample k, whose time the sample before takes. */
  function Without(s: TrackSegment, k: nat): TrackSegment
    requires 1 <= k < |s.samples|
  {
    var held := s.samples[k-1].(dur := s.samples[k-1].dur + s.samples[k].dur);
    s.(samples := s.samples[..k-1] + ([held] + s.samples[k+1..]), dataLen := s.dataLen - s.samples[k].size)
  }

  function DataWithout(data: seq<seq<byte>>, k: nat): seq<seq<byte>>
    requires k < |data|
  {
    data[..k] + data[k+1..]
  }

  lemma {:induction false} EntriesAppend(a: seq<Sample>, b: seq<Sample>, hasCTS: bool)
    ensures SamplesBytes(a + b, hasCTS) == SamplesBytes(a, hasCTS) + SamplesBytes(b, hasCTS)
  {
    hide SampleBytes;
    if a == [] {
      assert a + b == b;
    } else {
      assert (a + b)[1..] == a[1..] + b;
      EntriesAppend(a[1..], b, hasCTS);
      Regroup(SampleBytes(a[0], hasCTS), SamplesBytes(a[1..], hasCTS), SamplesBytes(b, hasCTS));
    }
  }

  lemma EntryHead(m: Sample, hasCTS: bool, dur: int)
    ensures |SampleBytes(m, hasCTS)| >= 4
    ensures Put(SampleBytes(m, hasCTS), 0, W32(dur)) == SampleBytes(m.(dur := dur), hasCTS)
  {
    hide W32;
  }

  lemma EntriesWithout(samples: seq<Sample>, hasCTS: bool, k: nat, dur: int)
    requires 1 <= k < |samples|
    ensures var es := EntrySize(hasCTS); var b := SamplesBytes(samples, hasCTS);
      && (k - 1) * es + 4 <= |b| && k * es + es <= |b|
      && Cut(Put(b, (k - 1) * es, W32(dur)), k * es, es)
        == SamplesBytes(samples[..k-1] + ([samples[k-1].(dur := dur)] + samples[k+1..]), hasCTS)
  {
    hide SampleBytes, SamplesBytes, Put, Cut, W32, Unsigned;
    var es := EntrySize(hasCTS);
    var x, y := samples[k-1], samples[k];
    var x' := x.(dur := dur);
    var a, rest := SamplesBytes(samples[..k-1], hasCTS), SamplesBytes(samples[k+1..], hasCTS);
    assert samples == samples[..k-1] + ([x] + ([y] + samples[k+1..]));
    EntriesAppend(samples[..k-1], [x] + ([y] + samples[k+1..]), hasCTS);
    OneEntry(x, [y] + samples[k+1..], hasCTS);
    OneEntry(y, samples[k+1..], hasCTS);
    EntriesAppend(samples[..k-1], [x'] + samples[k+1..], hasCTS);
    OneEntry(x', samples[k+1..], hasCTS);
    EntryHead(x, hasCTS, dur);
    EntryCut(a, SampleBytes(x, hasCTS), SampleBytes(x', hasCTS), SampleBytes(y, hasCTS), rest, W32(dur));
    MulLe(k + 1, |samples|, es);
    Distribute(k, 1, es);
  }

  lemma OneEntry(m: Sample, rest: seq<Sample>, hasCTS: bool)
    ensures SamplesBytes([m] + rest, hasCTS) == SampleBytes(m, hasCTS) + SamplesBytes(rest, hasCTS)
  {
    hide SampleBytes;
    assert ([m] + rest)[1..] == rest;
  }

  lemma EntryCut(a: seq<byte>, x: seq<byte>, x': seq<byte>, y: seq<byte>, rest: seq<byte>, w: seq<byte>)
    requires |w| == 4 <= |x| && |x'| == |x| && Put(x, 0, w) == x'
    ensures Cut(Put(a + (x + (y + rest)), |a|, w), |a| + |x|, |y|) == a + (x' + rest)
  {
    hide Put;
    PutIn(a, x + (y + rest), |a|, w);
    PutLeft(x, y + rest, w);
    CutIn(a, x' + (y + rest), |a| + |x|, |y|);
    CutIn(x', y + rest, |x|, |y|);
    CutFirst(y, rest);
  }

  lemma PutLeft(a: seq<byte>, b: seq<byte>, x: seq<byte>)
    requires |x| <= |a|
    ensures Put(a + b, 0, x) == Put(a, 0, x) + b
  {
    assert (a + b)[|x|..] == a[|x|..] + b;
  }

  lemma {:induction false} FlatSame(a: seq<seq<byte>>, b: seq<seq<byte>>, n: nat)
    requires n <= |a| && n <= |b| && a[..n] == b[..n]
    ensures Flat(a, n) == Flat(b, n)
  {
    if n > 0 {
      assert a[..n-1] == a[..n][..n-1] == b[..n-1] && a[n-1] == a[..n][n-1] == b[n-1];
      FlatSame(a, b, n - 1);
    }
  }

  lemma {:induction false} FlatSplit(data: seq<seq<byte>>, k: nat, n: nat)
    requires k <= n <= |data|
    ensures Flat(data, n) == Flat(data, k) + Flat(data[k..], n - k)
    decreases n
  {
    if n == k {
      assert Flat(data, k) + [] == Flat(data, k);
    } else {
      FlatSplit(data, k, n - 1);
      Regroup(Flat(data, k), Flat(data[k..], n - 1 - k), data[n-1]);
    }
  }

  lemma FlatWithout(data: seq<seq<byte>>, k: nat)
    requires k < |data|
    ensures |Flat(data, k)| + |data[k]| <= |Flat(data, |data|)|
    ensures Cut(Flat(data, |data|), |Flat(data, k)|, |data[k]|) == Flat(DataWithout(data, k), |data| - 1)
  {
    hide Flat, Cut;
    var d, rest := DataWithout(data, k), data[k+1..];
    FlatSplit(data, k + 1, |data|);
    assert Flat(data, k + 1) == Flat(data, k) + data[k] by { FlatNext(data, k); }
    FlatSplit(d, k, |d|);
    assert d[..k] == data[..k] && d[k..] == rest;
    FlatSame(d, data, k);
    Regroup(Flat(data, k), data[k], Flat(rest, |rest|));
    CutIn(Flat(data, k), data[k] + Flat(rest, |rest|), |Flat(data, k)|, |data[k]|);
    CutFirst(data[k], Flat(rest, |rest|));
  }

  lemma CutFirst(a: seq<byte>, b: seq<byte>)
    ensures Cut(a + b, 0, |a|) == b
  {
  }

  lemma FlatNext(data: seq<seq<byte>>, k: nat)
    requires k < |data|
    ensures Flat(data, k + 1) == Flat(data, k) + data[k]
  {
  }

  lemma PlainWithout(s: TrackSegment, data: seq<seq<byte>>, k: nat)
    requires Plain(s, data) && 1 <= k < |s.samples|
    ensures Plain(Without(s, k), DataWithout(data, k))
  {
    hide Flat;
    FlatWithout(data, k);
    var s', d := Without(s, k), DataWithout(data, k);
    forall j | 0 <= j < |d| ensures |d[j]| == s'.samples[j].size && s'.samples[j].size < P32 {
      if j >= k { assert s'.samples[j] == s.samples[j + 1] && d[j] == data[j + 1]; }
    }
  }

  // ---- the edit ----

  lemma HeadsKept(q: int, s: TrackSegment, k: nat, a: seq<byte>, b: seq<byte>, c: seq<byte>, d: seq<byte>, e: seq<byte>, f: seq<byte>)
    requires 1 <= k < |s.samples|
    ensures Whole(q, s, a, b, c, d, e, f) == Whole(q, Without(s, k), a, b, c, d, e, f)
  {
    hide BoxOf, ToBE, W32;
  }

  lemma SumWraps(a: int, b: int)
    ensures W32(Unsigned(a, P32) + Unsigned(b, P32)) == W32(a + b)
  {
    var q := a / P32 + b / P32;
    assert a + b == Unsigned(a, P32) + Unsigned(b, P32) + P32 * q;
    ModPlus(Unsigned(a, P32) + Unsigned(b, P32), q, P32);
  }

  lemma ModPlus(r: int, q: int, m: int)
    requires m > 0
    ensures (r + m * q) % m == r % m
  {
    assert r == m * (r / m) + r % m;
    Distribute(r / m, q, m);
    DivModIs(r + m * q, r / m + q, r % m, m);
  }

  /** The patched and cut fragment is the fragment of the run without the sample. */
  lemma MoofRewritten(q: int, s: TrackSegment, data: seq<seq<byte>>, k: nat)
    requires Plain(s, data) && 1 <= k < |s.samples|
    ensures var g := WrittenGeometry(s, |Flat(data, |data|)|); var seg := Segment(q, s, data);
      && Nested(g, seg) && EntryRel(g, k) + EntrySize(s.hasCTS) <= g.moof.len
      && Cut(Patched(g, seg, k), EntryRel(g, k), EntrySize(s.hasCTS)) == MoofFor(q, Without(s, k))
  {
    hide Put, Cut, W32, MoofWith, TrafWith, TrunWith, SamplesBytes, MoofFor, Flat, MdatHeader, RowsOf, PutThree;
    var g, seg := WrittenGeometry(s, |Flat(data, |data|)|), Segment(q, s, data);
    WrittenNested(q, s, data);
    EntryWithin(g, seg, k);
    MoofBytes(q, s);
    SegmentLaid(MoofFor(q, s), Flat(data, |data|));
    var es, n, e := EntrySize(s.hasCTS), |s.samples|, Entries(s);
    var w2, w3, w4 := W32(20 + |e|), W32(n), W32(104 + |e|);
    PutSizes(q, s, W32(88 + |e|), W32(64 + |e|), w2, w3, w4, e, g.moof.len - es, g.traf.len - es, g.trun.len - es);
    var dur := g.rows[k-1].dur + g.rows[k].dur;
    RowsAt(s.samples, k - 1);
    RowsAt(s.samples, k);
    SumWraps(s.samples[k-1].dur, s.samples[k].dur);
    EntriesWithout(s.samples, s.hasCTS, k, s.samples[k-1].dur + s.samples[k].dur);
    var a, b, c := W32(g.moof.len - es), W32(g.traf.len - es), W32(g.trun.len - es);
    PutRun(q, s, a, b, c, w3, w4, e, n - 1, g.dataOffset - es, (k - 1) * es, dur);
    var patched := Put(e, (k - 1) * es, W32(dur));
    CutWhole(q, s, a, b, c, W32(n - 1), W32(g.dataOffset - es), patched, k * es, es);
    HeadsKept(q, s, k, a, b, c, W32(n - 1), W32(g.dataOffset - es), Entries(Without(s, k)));
    PlainWithout(s, data, k);
    MoofBytes(q, Without(s, k));
  }

  lemma RowsAt(samples: seq<Sample>, i: nat)
    requires i < |samples|
    ensures RowsOf(samples)[i] == RowOf(samples[i])
  {
  }

  lemma MdatRewritten(g: Geometry, seg: seq<byte>, n: nat, drop: nat)
    requires Nested(g, seg) && g.mdatHdr == 16 && g.mdat.len == 16 + n && drop <= n && StandsAt(seg, g.mdat.off, MdatHeader(n))
    ensures MdatHead(g, seg, drop) == MdatHeader(n - drop)
  {
    hide W32, W64;
    PutIn(W32(1) + MDAT, W64(16 + n), 8, W64(16 + n - drop));
  }

  /** Cutting sample k out of a written segment in place gives, byte for byte, the segment the writer makes of the run
      without it. */
  lemma CutIsRewrite(q: int, s: TrackSegment, data: seq<seq<byte>>, k: nat)
    requires Plain(s, data) && 1 <= k < |s.samples|
    ensures var seg := Segment(q, s, data);
      && GeometryOf(seg).Some? && Nested(GeometryOf(seg).value, seg) && |GeometryOf(seg).value.rows| == |s.samples|
      && Rebuilt(GeometryOf(seg).value, seg, k) == Segment(q, Without(s, k), DataWithout(data, k))
  {
    hide GeometryOf, Patched, Cut, MoofFor, Flat, MdatHeader, MdatHead, RowsOf, MoofLen, EntryRel, SizeSum, Rebuilt, Nested, Laid, Without;
    var seg, flat := Segment(q, s, data), Flat(data, |data|);
    var g := WrittenGeometry(s, |flat|);
    GeometryReads(q, s, data);
    WrittenNested(q, s, data);
    MoofRewritten(q, s, data, k);
    FlatWithout(data, k);
    SampleBefore(s, data, k);
    WrittenTail(q, s, data);
    MdatRewritten(g, seg, |flat|, |data[k]|);
    Reassemble(g, seg, k, MoofFor(q, Without(s, k)), |flat|, Flat(DataWithout(data, k), |data| - 1), flat);
  }

  /** Where the editor finds sample k's bytes, and how many. */
  lemma SampleBefore(s: TrackSegment, data: seq<seq<byte>>, k: nat)
    requires Plain(s, data) && k < |s.samples|
    ensures SizeSum(RowsOf(s.samples), k) == |Flat(data, k)| && RowsOf(s.samples)[k].size == |data[k]|
  {
    hide SizeSum;
    FlatLength(s, data, k);
    SizesAgree(s, data, k);
    RowsAt(s.samples, k);
    ModSmall(s.samples[k].size, P32);
  }

  lemma WrittenTail(q: int, s: TrackSegment, data: seq<seq<byte>>)
    requires Plain(s, data)
    ensures var seg, flat, n := Segment(q, s, data), Flat(data, |data|), MoofLen(s);
      && StandsAt(seg, 0, BoxOf(STYP)) && StandsAt(seg, 28 + n, MdatHeader(|flat|)) && StandsAt(seg, 44 + n, flat)
      && |seg| == 44 + n + |flat|
  {
    hide MoofFor, Flat, MdatHeader;
    MoofBytes(q, s);
    SegmentLaid(MoofFor(q, s), Flat(data, |data|));
  }

  lemma Reassemble(g: Geometry, seg: seq<byte>, k: nat, moof: seq<byte>, n: nat, cut: seq<byte>, flat: seq<byte>)
    requires Nested(g, seg) && 1 <= k < |g.rows| && g.moof.off == 28 && g.mdatHdr == 16 && g.mdat.len == 16 + n
    requires g.mdat.off + g.mdat.len == |seg| && StandsAt(seg, 0, BoxOf(STYP)) && StandsAt(seg, g.mdat.off + 16, flat) && |flat| == n
    requires EntryRel(g, k) + EntrySize(g.hasCTS) <= g.moof.len && Cut(Patched(g, seg, k), EntryRel(g, k), EntrySize(g.hasCTS)) == moof
    requires SizeSum(g.rows, k) + g.rows[k].size <= n && Cut(flat, SizeSum(g.rows, k), g.rows[k].size) == cut
    requires MdatHead(g, seg, g.rows[k].size) == MdatHeader(|cut|)
    ensures Rebuilt(g, seg, k) == BoxOf(STYP) + (moof + (MdatHeader(|cut|) + cut))
  {
    hide Patched, Cut, MdatHead, MdatHeader, EntryRel, SizeSum;
    assert |BoxOf(STYP)| == 28;
    var styp, hdr := BoxOf(STYP), MdatHeader(|cut|);
    assert seg[..28] == styp && seg[g.mdat.off + 16..g.mdat.off + g.mdat.len] == flat && seg[g.mdat.off + g.mdat.len..] == [];
    assert styp + moof + hdr + cut + [] == styp + (moof + (hdr + cut));
  }

  /** Read again, the rebuilt segment has the same entries but for the cut one, its predecessor's duration grown, modulo
      the width of the field. */
  lemma RebuiltReads(q: int, s: TrackSegment, data: seq<seq<byte>>, k: nat)
    requires Plain(s, data) && 1 <= k < |s.samples|
    ensures var seg := Segment(q, s, data);
      && GeometryOf(seg).Some? && Nested(GeometryOf(seg).value, seg) && |GeometryOf(seg).value.rows| == |s.samples|
      && var rows, g := GeometryOf(seg).value.rows, GeometryOf(Rebuilt(GeometryOf(seg).value, seg, k));
      && g.Some? && g.value.rows == rows[..k-1] + ([rows[k-1].(dur := (rows[k-1].dur + rows[k].dur) % P32)] + rows[k+1..])
  {
    hide GeometryOf, Rebuilt, Segment, W32, Nested;
    CutIsRewrite(q, s, data, k);
    GeometryReads(q, s, data);
    PlainWithout(s, data, k);
    GeometryReads(q, Without(s, k), DataWithout(data, k));
    SumWraps(s.samples[k-1].dur, s.samples[k].dur);
    WordIs(Unsigned(s.samples[k-1].dur, P32) + Unsigned(s.samples[k].dur, P32));
    WordIs(s.samples[k-1].dur + s.samples[k].dur);
    var rows, rows' := RowsOf(s.samples), RowsOf(Without(s, k).samples);
    var want := rows[..k-1] + ([rows[k-1].(dur := (rows[k-1].dur + rows[k].dur) % P32)] + rows[k+1..]);
    forall i | 0 <= i < |rows'| ensures rows'[i] == want[i] {
      if i >= k { assert Without(s, k).samples[i] == s.samples[i + 1]; }
    }
    assert rows' == want;
  }

  lemma {:induction false} DurSumAppend(a: seq<Row>, b: seq<Row>)
    ensures DurSum(a + b, |a| + |b|) == DurSum(a, |a|) + DurSum(b, |b|)
    decreases |b|
  {
    if b == [] {
      assert a + b == a;
    } else {
      var n := |b| - 1;
      DurSumAppend(a, b[..n]);
      DurSumSame(a + b, a + b[..n], |a| + n);
      DurSumSame(b, b[..n], n);
    }
  }

  lemma {:induction false} DurSumSame(a: seq<Row>, b: seq<Row>, n: nat)
    requires n <= |a| && n <= |b| && forall i :: 0 <= i < n ==> a[i] == b[i]
    ensures DurSum(a, n) == DurSum(b, n)
  {
    if n > 0 { DurSumSame(a, b, n - 1); }
  }

  /** The segment's total time is unchanged exactly when the two durations' sum fits the field that holds it. */
  lemma TotalTimeIff(q: int, s: TrackSegment, data: seq<seq<byte>>, k: nat)
    requires Plain(s, data) && 1 <= k < |s.samples|
    ensures var seg := Segment(q, s, data);
      && GeometryOf(seg).Some? && Nested(GeometryOf(seg).value, seg) && |GeometryOf(seg).value.rows| == |s.samples|
      && var rows, g := GeometryOf(seg).value.rows, GeometryOf(Rebuilt(GeometryOf(seg).value, seg, k));
      && g.Some? && (DurSum(g.value.rows, |g.value.rows|) == DurSum(rows, |rows|) <==> rows[k-1].dur + rows[k].dur < P32)
  {
    hide GeometryOf, Rebuilt, Segment, Nested, DurSum;
    RebuiltReads(q, s, data, k);
    TimeMoved(GeometryOf(Segment(q, s, data)).value.rows, k);
  }

  lemma TimeMoved(rows: seq<Row>, k: nat)
    requires 1 <= k < |rows|
    ensures var cut := rows[..k-1] + ([rows[k-1].(dur := (rows[k-1].dur + rows[k].dur) % P32)] + rows[k+1..]);
      DurSum(cut, |cut|) == DurSum(rows, |rows|) <==> rows[k-1].dur + rows[k].dur < P32
  {
    hide DurSum;
    var sum := rows[k-1].dur + rows[k].dur;
    var held := rows[k-1].(dur := sum % P32);
    var a, b := rows[..k-1], rows[k+1..];
    assert rows == a + ([rows[k-1]] + ([rows[k]] + b));
    DurSumAppend(a, [rows[k-1]] + ([rows[k]] + b));
    DurSumAppend([rows[k-1]], [rows[k]] + b);
    DurSumAppend([rows[k]], b);
    DurSumAppend(a, [held] + b);
    DurSumAppend([held], b);
    OneRow(rows[k-1]);
    OneRow(rows[k]);
    OneRow(held);
    assert sum % P32 == sum <==> sum < P32;
  }

  lemma OneRow(r: Row)
    ensures DurSum([r], 1) == r.dur
  {
  }

  // ---- what a player gets ----

  lemma {:induction false} DurKept(s: TrackSegment, k: nat, j: nat)
    requires 1 <= k < |s.samples| && j < |s.samples|
    ensures DurBefore(Without(s, k).samples, j) == DurBefore(s.samples, if j < k then j else j + 1)
  {
    if j > 0 {
      DurKept(s, k, j - 1);
      if j > k { assert Without(s, k).samples[j-1] == s.samples[j]; }
      if j == k { assert DurBefore(s.samples, k + 1) == DurBefore(s.samples, k - 1) + s.samples[k-1].dur + s.samples[k].dur; }
    }
  }

  /** A kept sample reads as before: its size, sync flag, decode time, composition time; its duration too unless it is
      the one before the cut. */
  lemma SampleKept(t: InTrack, s: TrackSegment, k: nat, j: nat, at: int, at': int)
    requires 1 <= k < |s.samples| && j < |s.samples| - 1
    ensures var kept, was := Expected(t, Without(s, k), at', j), Expected(t, s, at, if j < k then j else j + 1);
      && kept.size == was.size && kept.sync == was.sync && kept.dtsMs == was.dtsMs
      && kept.ctsMs == was.ctsMs && kept.ctsTicks == was.ctsTicks && (j != k - 1 ==> kept.durMs == was.durMs)
  {
    DurKept(s, k, j);
    if j >= k { assert Without(s, k).samples[j] == s.samples[j + 1]; }
  }

  lemma MoofInside(q: int, s: TrackSegment, data: seq<seq<byte>>)
    requires Plain(s, data)
    ensures var out, n := Segment(q, s, data), MoofLen(s);
      |MoofFor(q, s)| == n && |out| >= 28 + n && out[36..28 + n] == MoofFor(q, s)[8..] && StandsAt(out, 44 + n, Flat(data, |data|))
  {
    hide MoofFor, Flat, MdatHeader;
    MoofBytes(q, s);
    SegmentLaid(MoofFor(q, s), Flat(data, |data|));
    SliceOfSlice(Segment(q, s, data), 28, 28 + MoofLen(s), 8, MoofLen(s));
  }

  /** A player reading a segment gets its samples, each with its bytes. */
  ghost predicate Plays(out: seq<byte>, s: TrackSegment, data: seq<seq<byte>>, m: MovieState, limit: int, trex: map<nat, Defaults>) {
    var n := MoofLen(s);
    && |out| >= 28 + n && s.trackID in m.tracks && |data| == |s.samples|
    && MoofRead(m, out[36..28 + n], 28, limit, trex) == Ok(WithSegment(m, s, 44 + n))
    && forall j :: 0 <= j < |data| ==> StandsAt(out, Expected(m.tracks[s.trackID], s, 44 + n, j).offset, data[j])
  }

  lemma {:induction false} SegmentPlays(q: int, s: TrackSegment, data: seq<seq<byte>>, m: MovieState, limit: int, trex: map<nat, Defaults>)
    requires Plain(s, data) && SegmentFits(s) && s.trackID in m.tracks && m.fragHeld + |s.samples| <= MAX_SAMPLES
    requires MoofLen(s) + 16 + s.dataLen < P31
    ensures Plays(Segment(q, s, data), s, data, m, limit, trex)
  {
    hide MoofFor, Flat, MdatHeader, MoofRead, Expected, SegmentFits, WithSegment, Segment, StandsAt;
    MoofInside(q, s, data);
    MoofReadsOne(q, s, m, limit, trex);
    forall j | 0 <= j < |data| ensures StandsAt(Segment(q, s, data), Expected(m.tracks[s.trackID], s, 44 + MoofLen(s), j).offset, data[j]) {
      DataStands(Segment(q, s, data), 44 + MoofLen(s), s, data, m.tracks[s.trackID], j);
    }
  }

  /** A player reading the rebuilt segment gets every kept sample, at its old times and with its old bytes, provided the
      grown duration fits its field. */
  lemma PlayerReads(q: int, s: TrackSegment, data: seq<seq<byte>>, k: nat, m: MovieState, limit: int, trex: map<nat, Defaults>)
    requires Plain(s, data) && 1 <= k < |s.samples| && SegmentFits(s) && s.samples[k-1].dur + s.samples[k].dur < P32
    requires s.trackID in m.tracks && m.fragHeld + |s.samples| <= MAX_SAMPLES && MoofLen(s) + 16 + s.dataLen < P31
    ensures var seg := Segment(q, s, data);
      && GeometryOf(seg).Some? && Nested(GeometryOf(seg).value, seg) && |GeometryOf(seg).value.rows| == |s.samples|
      && Plays(Rebuilt(GeometryOf(seg).value, seg, k), Without(s, k), DataWithout(data, k), m, limit, trex)
  {
    hide Plays, GeometryOf, Rebuilt, Segment;
    CutIsRewrite(q, s, data, k);
    PlainWithout(s, data, k);
    FitsWithout(s, k);
    SegmentPlays(q, Without(s, k), DataWithout(data, k), m, limit, trex);
  }

  lemma DataStands(out: seq<byte>, at: int, s: TrackSegment, data: seq<seq<byte>>, t: InTrack, j: nat)
    requires SegmentData(s, data) && j < |data| && StandsAt(out, at, Flat(data, |data|))
    ensures StandsAt(out, Expected(t, s, at, j).offset, data[j])
  {
    FlatStands(s, data, j, |data|);
    StandsInside(out, at, Flat(data, |data|), SizeBefore(s.samples, j), data[j]);
  }

  lemma FitsWithout(s: TrackSegment, k: nat)
    requires 1 <= k < |s.samples| && SegmentFits(s) && s.samples[k-1].dur + s.samples[k].dur < P32
    ensures SegmentFits(Without(s, k))
  {
    var s' := Without(s, k);
    forall i | 0 <= i < |s'.samples| ensures SampleFits(s'.samples[i], s'.hasCTS) {
      if i >= k { assert s'.samples[i] == s.samples[i + 1]; }
    }
  }

  lemma {:induction false} MoofReadsOne(q: int, s: TrackSegment, m: MovieState, limit: int, trex: map<nat, Defaults>)
    requires SegmentFits(s) && s.cenc.None? && 0 <= s.dataLen && MoofLen(s) + 16 + s.dataLen < P31
    requires m.fragHeld + |s.samples| <= MAX_SAMPLES
    ensures |MoofFor(q, s)| == MoofLen(s) && MoofRead(m, MoofFor(q, s)[8..], 28, limit, trex) == Ok(WithSegment(m, s, 44 + MoofLen(s)))
  {
    hide MoofRead, SegmentFits, WithSegment;
    MoofBytes(q, s);
    var n := MoofLen(s);
    assert DataBefore([s], 0) == 0 && DataBefore([s], 1) == s.dataLen;
    assert SamplesIn([s], 1) == |s.samples| by { assert SamplesIn([s], 0) == 0; }
    WrittenReadsBack(q, [s], MoofFor(q, s), m, 28, limit, trex);
    assert ReadBack(m, [s], 1, 44 + n) == WithSegment(m, s, 44 + n) by { assert ReadBack(m, [s], 0, 44 + n) == m; }
  }
}
