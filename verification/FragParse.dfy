/** The fragmented-MP4 reader (mp4/fragparse.go): a movie fragment's boxes turned into samples with places and times. */
module FragParse {
  import opened Arith
  import opened Bytes
  import opened Boxes
  import Fragment

  // ---- headers ----

  /** Bit 2^k of a flags word. */
  predicate Bit(flags: nat, k: nat)
    requires k > 0
  {
    flags / k % 2 == 1
  }

  /** A 4-byte field that may be absent or cut short: its value, whether it was read, and what follows it. */
  function Word(present: bool, rest: seq<byte>): (nat, bool, seq<byte>) {
    if present && |rest| >= 4 then (BE(rest[..4]), true, rest[4..]) else (0, false, rest)
  }

  datatype Defaults = Defaults(dur: nat, size: nat, flags: nat)

  /** A parsed track fragment header; a default it leaves out is None. */
  datatype Tfhd = Tfhd(trackID: nat, base: Option<int>, defaultBaseIsMoof: bool, dur: Option<nat>, size: Option<nat>, flags: Option<nat>)

  function Given(w: (nat, bool, seq<byte>)): Option<nat> { if w.1 then Some(w.0) else None }

  function ParseTfhd(p: seq<byte>): Result<Tfhd> {
    if |p| < 8 then Err("tfhd too short")
    else
      var flags := BE(p[..4]) % 0x100_0000;
      if Bit(flags, 1) && |p| < 16 then Err("tfhd truncated base_data_offset")
      else
        var base := if Bit(flags, 1) then Some(Signed(BE(p[8..16]), P64)) else None;
        var index := Word(Bit(flags, 2), if Bit(flags, 1) then p[16..] else p[8..]);
        var dur := Word(Bit(flags, 8), index.2);
        var size := Word(Bit(flags, 16), dur.2);
        var fl := Word(Bit(flags, 32), size.2);
        Ok(Tfhd(BE(p[4..8]), base, Bit(flags, Fragment.DEFAULT_BASE_IS_MOOF), Given(dur), Given(size), Given(fl)))
  }

  /** The fragment's base decode time, version 0 or 1. */
  function ParseTfdt(p: seq<byte>): int {
    if |p| < 8 then 0
    else if p[0] == 1 && |p| >= 12 then Signed(BE(p[4..12]), P64)
    else BE(p[4..8])
  }

  // ---- a run of samples ----

  /** Which fields a trun carries. */
  datatype TrunFlags = TrunFlags(offset: bool, first: bool, dur: bool, size: bool, flags: bool, cts: bool)

  function FlagsOf(v: nat): TrunFlags {
    TrunFlags(Bit(v, 1), Bit(v, 4), Bit(v, 0x100), Bit(v, 0x200), Bit(v, 0x400), Bit(v, 0x800))
  }

  /** A sample as a trun states it. */
  datatype Entry = Entry(dur: nat, size: nat, flags: nat, cts: int)

  /** The entry rest opens with and what follows it; None when a field is cut short. */
  function ReadEntry(f: TrunFlags, d: Defaults, rest: seq<byte>): Option<(Entry, seq<byte>)> {
    var dur := Word(f.dur, rest);
    var size := Word(f.size, dur.2);
    var flags := Word(f.flags, size.2);
    var cts := Word(f.cts, flags.2);
    if (f.dur && !dur.1) || (f.size && !size.1) || (f.flags && !flags.1) || (f.cts && !cts.1) then None
    else
      Some((Entry(if f.dur then dur.0 else d.dur, if f.size then size.0 else d.size, if f.flags then flags.0 else d.flags,
                  if f.cts then Signed(cts.0, P32) else 0), cts.2))
  }

  /** A sample of a parsed track; times in milliseconds but ctsTicks, the composition time as the file states it. */
  datatype InSample = InSample(offset: int, size: nat, dtsMs: int, ctsMs: int, ctsTicks: int, durMs: int, sync: bool, run: bool)

  datatype InTrack = InTrack(timescale: nat, editShiftMs: int, samples: seq<InSample>, fragDecodeEnd: int)

  const MAX_MS: int := 9_223_372_036_854_775

  function TicksToMs(ticks: int, timescale: nat): int {
    if timescale == 0 then ticks
    else if ticks > MAX_MS || ticks < -MAX_MS then ScaleTicks(ticks, timescale)
    else Quo(ticks * 1000, timescale)
  }

  /** Ticks whose product overflows: whole timescales and the remainder apart. */
  function ScaleTicks(ticks: int, timescale: nat): int
    requires timescale > 0
  {
    var q := Quo(ticks, timescale);
    var r := ticks - q * timescale;
    if q > MAX_MS then MAX_INT64
    else if q < -MAX_MS then -MAX_INT64 - 1
    else Int64(q * 1000 + Quo(r * 1000, timescale))
  }

  function Saturated(v: int): int { Max(-MAX_INT64 - 1, Min(v, MAX_INT64)) }

  lemma NatSplits(a: nat, d: nat)
    requires d > 0
    ensures 0 <= a - (a / d) * d < d && 0 <= (a - (a / d) * d) * 1000 / d < 1000
    ensures a * 1000 / d == (a / d) * 1000 + (a - (a / d) * d) * 1000 / d
  {
    var q := a / d;
    DivBounds(a, d);
    var r := a - q * d;
    MulRotate(q, 1000, d);
    MulMul(q, d, 1000);
    Distribute(r, q * d, 1000);
    DivAdd(r * 1000, q * 1000, d);
    DivLt(r * 1000, 1000, d);
    DivGe(r * 1000, 0, d);
  }

  /** Whole timescales and the remainder scale to what the ticks do. */
  lemma QuoSplits(ticks: int, timescale: nat)
    requires timescale > 0
    ensures var q := Quo(ticks, timescale); var part := Quo((ticks - q * timescale) * 1000, timescale);
      && Quo(ticks * 1000, timescale) == q * 1000 + part && -1000 < part < 1000
      && (ticks >= 0 ==> q >= 0 && part >= 0) && (ticks <= 0 ==> q <= 0 && part <= 0)
  {
    var a := Abs(ticks);
    NatSplits(a, timescale);
    DivGe(a, 0, timescale);
    if ticks < 0 {
      var q := a / timescale;
      assert Quo(ticks, timescale) == -q && -q * timescale == -(q * timescale);
      assert (ticks - -q * timescale) * 1000 == -((a - q * timescale) * 1000);
    }
  }

  lemma DivAdd(a: nat, k: nat, d: nat)
    requires d > 0
    ensures (a + k * d) / d == a / d + k
  {
    DivBounds(a, d);
    Distribute(a / d, k, d);
    DivGe(a + k * d, a / d + k, d);
    Distribute(a / d + k, 1, d);
    DivLt(a + k * d, a / d + k + 1, d);
  }

  /** The conversion is exact, past the int64 range saturated, but for a sliver: where the whole seconds alone reach the
      last that fit and the remainder takes the result past the range, it comes out with the other sign. */
  lemma TicksToMsIff(ticks: int, timescale: nat)
    requires 0 < timescale && -MAX_INT64 - 1 <= ticks <= MAX_INT64
    ensures var exact := Quo(ticks * 1000, timescale);
      TicksToMs(ticks, timescale) == Saturated(exact)
      <==> Abs(Quo(ticks, timescale)) != MAX_MS || -MAX_INT64 - 1 <= exact <= MAX_INT64
  {
    QuoSplits(ticks, timescale);
    var q := Quo(ticks, timescale);
    var part := Quo((ticks - q * timescale) * 1000, timescale);
    var exact := q * 1000 + part;
    if -MAX_MS <= ticks <= MAX_MS {
      SmallQuo(Abs(ticks * 1000), timescale);
    } else if -MAX_INT64 - 1 <= exact <= MAX_INT64 {
      SignedOfUnsigned(exact, P64);
    } else if Abs(q) == MAX_MS {
      WrapsBack(exact);
    }
  }

  lemma SmallQuo(a: nat, d: nat)
    requires d > 0
    ensures 0 <= a / d <= a
  {
    MulLe(1, d, a);
    MulRotate(1, d, a);
    DivLe(a, a, d);
    DivGe(a, 0, d);
  }

  lemma WrapsBack(v: int)
    requires MAX_INT64 < v < MAX_INT64 + 1000 || -MAX_INT64 - 1001 < v < -MAX_INT64 - 1
    ensures v > 0 ==> Int64(v) < 0
    ensures v < 0 ==> Int64(v) > 0
  {
    if v > 0 { ModSmall(v, P64); } else { ModShift(v, P64); }
  }

  /** A sample placed at off and decoded at dts. */
  function Placed(t: InTrack, e: Entry, off: int, dts: int, run: bool): InSample {
    InSample(off, e.size, TicksToMs(dts, t.timescale), Max(0, TicksToMs(dts + e.cts, t.timescale) + t.editShiftMs),
             dts + e.cts, TicksToMs(e.dur, t.timescale), !Bit(e.flags, 0x1_0000), run)
  }

  function Append(t: InTrack, s: InSample): InTrack { t.(samples := t.samples + [s]) }

  /** Where a trun's next sample lies and when it decodes. */
  datatype Cursor = Cursor(off: int, dts: int)

  function Advance(c: Cursor, e: Entry): Cursor { Cursor(c.off + e.size, c.dts + e.dur) }

  /** A trun's header read: its fields, its sample count, where its data starts, its first sample's flags and the entries. */
  datatype TrunHead = TrunHead(f: TrunFlags, count: nat, offset: Option<int>, first: Option<nat>, entries: seq<byte>)

  function ReadTrunHead(p: seq<byte>): Result<TrunHead> {
    if |p| < 8 then Err("trun too short")
    else
      var f := FlagsOf(BE(p[..4]) % 0x100_0000);
      var offset := Word(f.offset, p[8..]);
      var first := Word(f.first, offset.2);
      if f.offset && !offset.1 then Err("trun truncated data_offset")
      else if f.first && !first.1 then Err("trun truncated first_sample_flags")
      else
        Ok(TrunHead(f, BE(p[4..8]), if f.offset then Some(Signed(offset.0, P32)) else None, Given(first), first.2))
  }

  /** A track with the samples of a trun from the i-th on. */
  function RunFrom(h: TrunHead, d: Defaults, i: nat, rest: seq<byte>, t: InTrack, c: Cursor): Option<(InTrack, Cursor)>
    requires i <= h.count
    decreases h.count - i
  {
    if i == h.count then Some((t, c))
    else
      match ReadEntry(h.f, d, rest)
      case None => None
      case Some(r) =>
        var e := if i == 0 && h.first.Some? then r.0.(flags := h.first.value) else r.0;
        RunFrom(h, d, i + 1, r.1, Append(t, Placed(t, e, c.off, c.dts, i == 0)), Advance(c, e))
  }

  /** A trun's samples appended to the track: its data anchored on base when it states an offset, else continued. */
  function TrunSamples(p: seq<byte>, t: InTrack, base: int, c: Cursor, d: Defaults): Result<(InTrack, Cursor)> {
    match ReadTrunHead(p)
    case Err(why) => Err(why)
    case Ok(h) =>
      match RunFrom(h, d, 0, h.entries, t, if h.offset.Some? then Cursor(base + h.offset.value, c.dts) else c)
      case None => Err("trun truncated")
      case Some(r) => Ok(r)
  }

  method AppendTrunSamples(p: seq<byte>, t: InTrack, base: int, cursor: int, dts: int, d: Defaults)
    returns (r: Result<(InTrack, Cursor)>)
    ensures r == TrunSamples(p, t, base, Cursor(cursor, dts), d)
  {
    var head := ReadTrunHead(p);
    if head.Err? {
      return Err(head.why);
    }
    var h := head.value;
    var c := Cursor(if h.offset.Some? then base + h.offset.value else cursor, dts);
    var track, rest := t, h.entries;
    ghost var all := RunFrom(h, d, 0, rest, track, c);
    for i := 0 to h.count
      invariant all == RunFrom(h, d, i, rest, track, c)
    {
      var read := ReadEntry(h.f, d, rest);
      if read.None? {
        return Err("trun truncated");
      }
      var e := read.value.0;
      if i == 0 && h.first.Some? {
        e := e.(flags := h.first.value);
      }
      track := Append(track, Placed(track, e, c.off, c.dts, i == 0));
      c := Advance(c, e);
      rest := read.value.1;
    }
    return Ok((track, c));
  }

  // ---- a track fragment ----

  /** The samples of a traf's truns from box i on. */
  function PlaceFrom(boxes: seq<MemBox>, i: nat, t: InTrack, base: int, c: Cursor, d: Defaults): Result<(InTrack, Cursor)>
    requires i <= |boxes|
    decreases |boxes| - i
  {
    if i == |boxes| then Ok((t, c))
    else if boxes[i].typ != Fragment.TRUN then PlaceFrom(boxes, i + 1, t, base, c, d)
    else
      match TrunSamples(boxes[i].payload, t, base, c, d)
      case Err(why) => Err(why)
      case Ok(r) => PlaceFrom(boxes, i + 1, r.0, base, r.1, d)
  }

  method PlaceTrafSamples(boxes: seq<MemBox>, t: InTrack, base: int, dts: int, d: Defaults) returns (r: Result<(InTrack, Cursor)>)
    ensures r == PlaceFrom(boxes, 0, t, base, Cursor(base, dts), d)
  {
    var track, c := t, Cursor(base, dts);
    for i := 0 to |boxes|
      invariant PlaceFrom(boxes, 0, t, base, Cursor(base, dts), d) == PlaceFrom(boxes, i, track, base, c, d)
    {
      if boxes[i].typ == Fragment.TRUN {
        var run := AppendTrunSamples(boxes[i].payload, track, base, c.off, c.dts, d);
        if run.Err? {
          return Err(run.why);
        }
        track, c := run.value.0, run.value.1;
      }
    }
    return Ok((track, c));
  }

  /** The last tfhd of a traf that can be read, from box i on; an unreadable one is an error. */
  function LastTfhd(boxes: seq<MemBox>, i: nat, h: Option<Tfhd>): Result<Option<Tfhd>>
    requires i <= |boxes|
    decreases |boxes| - i
  {
    if i == |boxes| then Ok(h)
    else if boxes[i].typ != Fragment.TFHD || |boxes[i].payload| < 8 then LastTfhd(boxes, i + 1, h)
    else
      match ParseTfhd(boxes[i].payload)
      case Err(why) => Err(why)
      case Ok(x) => LastTfhd(boxes, i + 1, Some(x))
  }

  method FindTfhd(boxes: seq<MemBox>) returns (r: Result<Option<Tfhd>>)
    ensures r == LastTfhd(boxes, 0, None)
  {
    var h: Option<Tfhd> := None;
    for i := 0 to |boxes|
      invariant LastTfhd(boxes, 0, None) == LastTfhd(boxes, i, h)
    {
      if boxes[i].typ == Fragment.TFHD && |boxes[i].payload| >= 8 {
        match ParseTfhd(boxes[i].payload) {
          case Err(why) => return Err(why);
          case Ok(x) => h := Some(x);
        }
      }
    }
    return Ok(h);
  }

  /** The decode time of the last tfdt, else where the track's previous fragment ended. */
  function DecodeBase(boxes: seq<MemBox>, n: nat, otherwise: int): int
    requires n <= |boxes|
  {
    if n == 0 then otherwise
    else if boxes[n-1].typ == Fragment.TFDT then ParseTfdt(boxes[n-1].payload)
    else DecodeBase(boxes, n - 1, otherwise)
  }

  method FindDecodeBase(boxes: seq<MemBox>, otherwise: int) returns (dts: int)
    ensures dts == DecodeBase(boxes, |boxes|, otherwise)
  {
    dts := otherwise;
    for i := 0 to |boxes|
      invariant dts == DecodeBase(boxes, i, otherwise)
    {
      if boxes[i].typ == Fragment.TFDT {
        dts := ParseTfdt(boxes[i].payload);
      }
    }
  }

  /** The samples the first n boxes' truns declare. */
  function Declared(boxes: seq<MemBox>, n: nat): nat
    requires n <= |boxes|
  {
    if n == 0 then 0
    else Declared(boxes, n - 1) + if boxes[n-1].typ == Fragment.TRUN && |boxes[n-1].payload| >= 8 then BE(boxes[n-1].payload[4..8]) else 0
  }

  method TrafSampleCount(boxes: seq<MemBox>) returns (n: nat)
    ensures n == Declared(boxes, |boxes|)
  {
    n := 0;
    for i := 0 to |boxes|
      invariant n == Declared(boxes, i)
    {
      if boxes[i].typ == Fragment.TRUN && |boxes[i].payload| >= 8 {
        n := n + BE(boxes[i].payload[4..8]);
      }
    }
  }

  /** A trun that lists no per-sample field declares no more samples than the fragment's data holds. */
  predicate TrunFits(b: MemBox, defSize: nat, span: int) {
    b.typ == Fragment.TRUN && |b.payload| >= 8 ==>
      var f := FlagsOf(BE(b.payload[..4]));
      !(f.dur || f.size || f.flags || f.cts) ==> BE(b.payload[4..8]) * Max(defSize, 1) <= Max(span, 0)
  }

  predicate TrunsFit(boxes: seq<MemBox>, defSize: nat, span: int) {
    forall i :: 0 <= i < |boxes| ==> TrunFits(boxes[i], defSize, span)
  }

  method TrunsFitData(boxes: seq<MemBox>, defSize: nat, span: int) returns (ok: bool)
    ensures ok == TrunsFit(boxes, defSize, span)
  {
    for i := 0 to |boxes|
      invariant forall k :: 0 <= k < i ==> TrunFits(boxes[k], defSize, span)
    {
      if !TrunFits(boxes[i], defSize, span) {
        return false;
      }
    }
    return true;
  }

  const MAX_SAMPLES := 0x100_0000

  /** What a parse has filled so far: the tracks by ID, and how many samples they hold together. */
  datatype MovieState = MovieState(tracks: map<nat, InTrack>, fragHeld: int)

  /** The sample defaults: the tfhd's, else the init's. */
  function DefaultsOf(h: Tfhd, trex: map<nat, Defaults>): Defaults {
    var td := if h.trackID in trex then trex[h.trackID] else Defaults(0, 0, 0);
    Defaults(if h.dur.Some? then h.dur.value else td.dur, if h.size.Some? then h.size.value else td.size,
             if h.flags.Some? then h.flags.value else td.flags)
  }

  /** Where a traf's data is anchored, and whether that is the previous traf's end. */
  function Anchor(h: Tfhd, moofStart: int, prevEnd: int): (int, bool) {
    if h.base.Some? then (h.base.value, false)
    else if !h.defaultBaseIsMoof && prevEnd > 0 then (prevEnd, true)
    else (moofStart, false)
  }

  predicate StartsBefore(samples: seq<InSample>, off: int) {
    exists i :: 0 <= i < |samples| && samples[i].offset < off
  }

  /** A traf's samples placed; a chained anchor that puts them outside the fragment's data gives way to the moof's. */
  function PlaceTraf(boxes: seq<MemBox>, t: InTrack, h: Tfhd, moofStart: int, prevEnd: int, limit: int, d: Defaults): Result<(InTrack, Cursor)> {
    var (base, chained) := Anchor(h, moofStart, prevEnd);
    var dts := DecodeBase(boxes, |boxes|, t.fragDecodeEnd);
    match PlaceFrom(boxes, 0, t, base, Cursor(base, dts), d)
    case Err(why) => Err(why)
    case Ok(r) =>
      if chained && (r.1.off > limit || (|r.0.samples| >= |t.samples| && StartsBefore(r.0.samples[|t.samples|..], prevEnd)))
      then PlaceFrom(boxes, 0, t, moofStart, Cursor(moofStart, dts), d)
      else Ok(r)
  }

  /** A traf read into its track, which has room for so many samples more. */
  function TrackRead(boxes: seq<MemBox>, t: InTrack, h: Tfhd, room: int, moofStart: int, prevEnd: int, limit: int, d: Defaults): Result<(InTrack, Cursor)> {
    if Declared(boxes, |boxes|) > room then Err("a fragment declares too many samples: the file is damaged or forged")
    else if !TrunsFit(boxes, d.size, limit - moofStart) then Err("a trun declares more samples than the fragment's data holds: the file is damaged or forged")
    else PlaceTraf(boxes, t, h, moofStart, prevEnd, limit, d)
  }

  method ReadTrack(boxes: seq<MemBox>, t: InTrack, h: Tfhd, room: int, moofStart: int, prevEnd: int, limit: int, d: Defaults)
    returns (r: Result<(InTrack, Cursor)>)
    ensures r == TrackRead(boxes, t, h, room, moofStart, prevEnd, limit, d)
  {
    hide Declared, PlaceTraf, TrunFits;
    var n := TrafSampleCount(boxes);
    if n > room {
      return Err("a fragment declares too many samples: the file is damaged or forged");
    }
    var fits := TrunsFitData(boxes, d.size, limit - moofStart);
    if !fits {
      return Err("a trun declares more samples than the fragment's data holds: the file is damaged or forged");
    }
    r := Place(boxes, t, h, moofStart, prevEnd, limit, d);
  }

  /** A traf's boxes and its header, if it has one. */
  function TrafHeader(traf: seq<byte>): Result<Option<(seq<MemBox>, Tfhd)>> {
    match Iter(traf)
    case Err(why) => Err(why)
    case Ok(boxes) =>
      match LastTfhd(boxes, 0, None)
      case Err(why) => Err(why)
      case Ok(h) => Ok(if h.Some? then Some((boxes, h.value)) else None)
  }

  method ReadTrafHeader(traf: seq<byte>) returns (r: Result<Option<(seq<MemBox>, Tfhd)>>)
    ensures r == TrafHeader(traf)
  {
    var parsed := IterBoxes(traf);
    if parsed.Err? {
      return Err(parsed.why);
    }
    var header := FindTfhd(parsed.value);
    if header.Err? {
      return Err(header.why);
    }
    return Ok(if header.value.Some? then Some((parsed.value, header.value.value)) else None);
  }

  /** A traf read into the movie; the result is where its data ends, 0 when it placed nothing. */
  function TrafRead(m: MovieState, traf: seq<byte>, moofStart: int, prevEnd: int, limit: int, trex: map<nat, Defaults>): Result<(MovieState, int)> {
    match TrafHeader(traf)
    case Err(why) => Err(why)
    case Ok(header) =>
      if header.None? then Ok((m, 0))
      else
        var (boxes, h) := header.value;
        if h.trackID !in m.tracks || m.tracks[h.trackID].timescale == 0 then Ok((m, 0))
        else
          var t := m.tracks[h.trackID];
          match TrackRead(boxes, t, h, MAX_SAMPLES - m.fragHeld, moofStart, prevEnd, limit, DefaultsOf(h, trex))
          case Err(why) => Err(why)
          case Ok(r) =>
            Ok((MovieState(m.tracks[h.trackID := r.0.(fragDecodeEnd := r.1.dts)], m.fragHeld + |r.0.samples| - |t.samples|), r.1.off))
  }

  /** The trafs of a moof from box i on, each anchored where the one before ended. */
  function MoofFrom(boxes: seq<MemBox>, i: nat, m: MovieState, moofStart: int, prevEnd: int, limit: int, trex: map<nat, Defaults>): Result<MovieState>
    requires i <= |boxes|
    decreases |boxes| - i
  {
    if i == |boxes| then Ok(m)
    else if boxes[i].typ != Fragment.TRAF then MoofFrom(boxes, i + 1, m, moofStart, prevEnd, limit, trex)
    else
      match TrafRead(m, boxes[i].payload, moofStart, prevEnd, limit, trex)
      case Err(why) => Err(why)
      case Ok(r) => MoofFrom(boxes, i + 1, r.0, moofStart, if r.1 > 0 then r.1 else prevEnd, limit, trex)
  }

  function MoofRead(m: MovieState, moof: seq<byte>, moofStart: int, limit: int, trex: map<nat, Defaults>): Result<MovieState> {
    match Iter(moof)
    case Err(why) => Err(why)
    case Ok(boxes) => MoofFrom(boxes, 0, m, moofStart, -1, limit, trex)
  }

  /** A movie being filled from its fragments. */
  class Movie {
    var tracks: map<nat, InTrack>
    var fragHeld: int

    function State(): MovieState
      reads this
    {
      MovieState(tracks, fragHeld)
    }

    constructor (tracks: map<nat, InTrack>, fragHeld: int)
      ensures State() == MovieState(tracks, fragHeld)
    {
      this.tracks := tracks;
      this.fragHeld := fragHeld;
    }

    method ParseTrafSamples(traf: seq<byte>, moofStart: int, prevEnd: int, limit: int, trex: map<nat, Defaults>) returns (r: Result<int>)
      modifies this
      ensures match TrafRead(old(State()), traf, moofStart, prevEnd, limit, trex)
        case Err(_) => r.Err?
        case Ok(x) => r == Ok(x.1) && State() == x.0
    {
      var header := ReadTrafHeader(traf);
      if header.Err? {
        return Err(header.why);
      }
      if header.value.None? {
        return Ok(0);
      }
      var (boxes, h) := header.value.value;
      if h.trackID !in tracks || tracks[h.trackID].timescale == 0 {
        return Ok(0);
      }
      var t := tracks[h.trackID];
      var placed := ReadTrack(boxes, t, h, MAX_SAMPLES - fragHeld, moofStart, prevEnd, limit, DefaultsOf(h, trex));
      if placed.Err? {
        return Err(placed.why);
      }
      fragHeld := fragHeld + |placed.value.0.samples| - |t.samples|;
      tracks := tracks[h.trackID := placed.value.0.(fragDecodeEnd := placed.value.1.dts)];
      return Ok(placed.value.1.off);
    }

    method ParseMoofSamples(moof: seq<byte>, moofStart: int, limit: int, trex: map<nat, Defaults>) returns (r: Result<()>)
      modifies this
      ensures match MoofRead(old(State()), moof, moofStart, limit, trex)
        case Err(_) => r.Err?
        case Ok(m) => r.Ok? && State() == m
    {
      var parsed := IterBoxes(moof);
      if parsed.Err? {
        return Err(parsed.why);
      }
      var boxes := parsed.value;
      var prevEnd := -1;
      ghost var all := MoofFrom(boxes, 0, State(), moofStart, prevEnd, limit, trex);
      for i := 0 to |boxes|
        invariant all == MoofFrom(boxes, i, State(), moofStart, prevEnd, limit, trex)
        modifies this
      {
        if boxes[i].typ == Fragment.TRAF {
          var end := ParseTrafSamples(boxes[i].payload, moofStart, prevEnd, limit, trex);
          if end.Err? {
            return Err(end.why);
          }
          if end.value > 0 {
            prevEnd := end.value;
          }
        }
      }
      return Ok(());
    }
  }

  method Place(boxes: seq<MemBox>, t: InTrack, h: Tfhd, moofStart: int, prevEnd: int, limit: int, d: Defaults) returns (r: Result<(InTrack, Cursor)>)
    ensures r == PlaceTraf(boxes, t, h, moofStart, prevEnd, limit, d)
  {
    var (base, chained) := Anchor(h, moofStart, prevEnd);
    var dts := FindDecodeBase(boxes, t.fragDecodeEnd);
    r := PlaceTrafSamples(boxes, t, base, dts, d);
    if r.Ok? && chained {
      var astray := |r.value.0.samples| >= |t.samples| && StartsBefore(r.value.0.samples[|t.samples|..], prevEnd);
      if r.value.1.off > limit || astray {
        r := PlaceTrafSamples(boxes, t, moofStart, dts, d);
      }
    }
  }
}
