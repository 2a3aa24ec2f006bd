/** A growing HLS plan as a state machine: what each locked step of mp4/growinghls.go does to the plan's fields, and
    what every schedule of refreshes keeps. */
module GrowingPlan {
  import opened Arith
  import opened GridWindow
  import opened GridFinality
  import FragTiming
  import Seqs

  type Track = nat

  /** A block of a selected track: its stored timecode, its frame's own time, and whether it is a keyframe. */
  datatype Block = Block(track: Track, ms: int, pts: int, key: bool)

  /** A segment-level element; a negative size is EBML's unknown one. */
  datatype Element =
    | Cluster(hdr: nat, size: int, blocks: seq<Block>)
    | Other(hdr: nat, size: int)

  /** The finished file: where each element's header starts. A file of `size` bytes shows its first `size` bytes. */
  datatype Source = Source(segStart: nat, declaredEnd: int, elements: map<nat, Element>)

  datatype Probe = Probe(firstTC: int, frames: int, secondTC: int, haveFirst: bool, haveSecond: bool)

  /** The presentation: one video track, its audio tracks, and how a stride and a slot derive from what is read.
      laceGrid is laceGridTS, declaredGrid is audioGridTS, slot is a track's slot function given its first time and
      stride. */
  datatype Config = Config(
    video: Track, audio: set<Track>, probed: set<Track>, segMs: int,
    laceGrid: (Track, Probe) -> int, declaredGrid: Track -> int, slot: (Track, int, int) -> (int -> int))

  predicate ValidConfig(c: Config) {
    c.segMs >= 1 && c.video !in c.audio && c.probed <= c.audio
  }

  ghost predicate SlotsNonNegative(c: Config) {
    forall t, first, gridTS, ms :: c.slot(t, first, gridTS)(ms) >= 0
  }

  ghost predicate ValidSource(f: Source) {
    forall off :: off in f.elements ==> f.elements[off].hdr >= 1
  }

  ghost predicate TimesInRange(f: Source) {
    forall off :: off in f.elements && f.elements[off].Cluster? ==>
      forall b :: b in f.elements[off].blocks ==> b.ms < MAX_INT64
  }

  /** No cluster starts past the Segment's declared end. */
  ghost predicate ClustersInside(f: Source) {
    forall off :: off in f.elements && f.elements[off].Cluster? && f.declaredEnd >= 0 ==> off < f.declaredEnd
  }

  /** Head resolution: every track's first time and, for laced audio with no default duration, its stride. */
  datatype Head = Head(done: bool, need: int, needGrid: int,
                       firstPts: map<Track, int>, probes: map<Track, Probe>, gridTS: map<Track, int>)

  /** The video's opening frames, from which its composition shift is measured. */
  datatype Lead = Lead(done: bool, pts: seq<int>, sync: seq<bool>)

  /** Boundary discovery. */
  datatype Cuts = Cuts(haveFirstKF: bool, kfLast: int, bounds: seq<int>, offsets: seq<nat>)

  /** The audio frames of window win and past it. `met` (every block timecode of a track so far) and `behind` (the
      audio tracks a window was published for without the frames that settle it) record history for the statements
      below. */
  datatype Grid = Grid(pts: map<Track, seq<int>>, win: nat, met: map<Track, seq<int>>, behind: set<Track>)

  datatype State = State(started: bool, cursor: nat, done: bool, head: Head, lead: Lead, cuts: Cuts, grid: Grid,
                         segCount: nat, published: nat)

  function Init(c: Config): State {
    State(false, 0, false,
          Head(false, |{c.video} + c.audio|, |c.probed|,
               map[], map t | t in c.probed :: Probe(0, 0, 0, false, false), map[]),
          Lead(false, [], []), Cuts(false, 0, [], []), Grid(map[], 0, map[], {}), 0, 0)
  }

  function Get(m: map<Track, seq<int>>, t: Track): seq<int> {
    if t in m then m[t] else []
  }

  /** A track's first time, -1 before its first sample. */
  function First(h: Head, t: Track): int {
    if t in h.firstPts then h.firstPts[t] else -1
  }

  function GridOf(h: Head, t: Track): int {
    if t in h.gridTS then h.gridTS[t] else 0
  }

  function SlotOf(c: Config, h: Head, t: Track): int -> int {
    c.slot(t, First(h, t), GridOf(h, t))
  }

  function SettleLead(l: Lead): Lead { l.(done := true) }

  function ExtendLead(l: Lead, b: Block): Lead {
    if l.done then l
    else if (|l.pts| > 0 && b.key) || |l.pts| >= FragTiming.COMPOSITION_PREFIX then SettleLead(l)
    else Lead(false, l.pts + [b.pts], l.sync + [b.key])
  }

  function ExtendProbe(p: Probe, ms: int): Probe {
    if p.haveSecond then p
    else if !p.haveFirst then p.(firstTC := ms, frames := 1, haveFirst := true)
    else if ms == p.firstTC then p.(frames := p.frames + 1)
    else p.(secondTC := ms, haveSecond := true)
  }

  function ExtendHead(h: Head, b: Block): Head {
    var h1 := if First(h, b.track) < 0 then h.(firstPts := h.firstPts[b.track := b.pts], need := h.need - 1) else h;
    if b.track in h1.probes && !h1.probes[b.track].haveSecond then
      var p := ExtendProbe(h1.probes[b.track], b.ms);
      h1.(probes := h1.probes[b.track := p], needGrid := if p.haveSecond then h1.needGrid - 1 else h1.needGrid)
    else h1
  }

  function ResolvedGrid(c: Config, h: Head, t: Track): int {
    var laced := if t in h.probes && h.probes[t].haveSecond then c.laceGrid(t, h.probes[t]) else 0;
    if laced <= 0 then c.declaredGrid(t) else laced
  }

  function ResolveHead(c: Config, h: Head): Head {
    h.(gridTS := map t | t in {c.video} + c.audio :: ResolvedGrid(c, h, t), done := true)
  }

  function RecordKeyframe(c: Config, k: Cuts, ms: int, clusterOffset: nat): Cuts {
    var k1 := if k.haveFirstKF then k else Cuts(true, 0, [0], [clusterOffset]);
    if ms >= k1.kfLast + c.segMs then Cuts(true, ms, k1.bounds + [ms], k1.offsets + [clusterOffset]) else k1
  }

  function MeetAudio(g: Grid, t: Track, times: seq<int>): Grid {
    g.(pts := g.pts[t := Get(g.pts, t) + times], met := g.met[t := Get(g.met, t) + times])
  }

  /** One block of a cluster, folded in under the lock. */
  function ScanBlock(c: Config, s: State, b: Block, start: nat): State {
    s.(head := if !s.head.done && (b.track == c.video || b.track in c.audio) then ExtendHead(s.head, b) else s.head,
       grid := if b.track in c.audio then MeetAudio(s.grid, b.track, [b.ms]) else s.grid,
       lead := if b.track == c.video then ExtendLead(s.lead, b) else s.lead,
       cuts := if b.track == c.video && b.key then RecordKeyframe(c, s.cuts, b.ms, start) else s.cuts)
  }

  function ScanBlocks(c: Config, s: State, blocks: seq<Block>, start: nat): State {
    if blocks == [] then s
    else
      var n := |blocks| - 1;
      ScanBlock(c, ScanBlocks(c, s, blocks[..n], start), blocks[n], start)
  }

  /** Window m is timed for good on every grid-timed track met so far. */
  predicate Settled(c: Config, h: Head, bounds: seq<int>, pts: map<Track, seq<int>>, m: nat)
    requires m + 1 < |bounds|
  {
    forall t :: t in pts ==> GridOf(h, t) <= 0 || TrackSettled(pts[t], bounds, m, SlotOf(c, h, t))
  }

  function Dropped(pts: map<Track, seq<int>>, limit: int): map<Track, seq<int>> {
    map t | t in pts :: pts[t][Under(pts[t], limit)..]
  }

  /** The audio tracks whose own frames do not settle window g.win. */
  function LeftBehind(c: Config, h: Head, bounds: seq<int>, g: Grid): set<Track>
    requires g.win + 1 < |bounds|
  {
    set t | t in c.audio && !MetPast(Get(g.pts, t), bounds, g.win, SlotOf(c, h, t))
  }

  function DropWindow(c: Config, h: Head, bounds: seq<int>, g: Grid): Grid
    requires g.win + 1 < |bounds|
  {
    Grid(Dropped(g.pts, bounds[g.win + 1]), g.win + 1, g.met, g.behind + LeftBehind(c, h, bounds, g))
  }

  function PublishSettled(c: Config, h: Head, bounds: seq<int>, g: Grid): Grid
    decreases |bounds| - g.win
  {
    if g.win + 1 < |bounds| && Settled(c, h, bounds, g.pts, g.win) then
      PublishSettled(c, h, bounds, DropWindow(c, h, bounds, g))
    else g
  }

  function UpdateSegCount(c: Config, s: State): State {
    if !s.head.done then s.(segCount := 0, published := 0)
    else if s.done then s.(segCount := |s.cuts.bounds|, published := |s.cuts.bounds|)
    else
      var g := PublishSettled(c, s.head, s.cuts.bounds, s.grid);
      s.(segCount := |s.cuts.bounds|, grid := g, published := g.win)
  }

  function ResolveReady(c: Config, h: Head): Head {
    if !h.done && h.need == 0 && h.needGrid == 0 then ResolveHead(c, h) else h
  }

  /** A whole cluster, block by block. */
  function ScanClusterLocked(c: Config, s: State, blocks: seq<Block>, start: nat): State {
    var s1 := ScanBlocks(c, s, blocks, start);
    UpdateSegCount(c, s1.(head := ResolveReady(c, s1.head)))
  }

  function Keys(c: Config, blocks: seq<Block>): seq<int> {
    if blocks == [] then []
    else
      var n := |blocks| - 1;
      Keys(c, blocks[..n]) + if blocks[n].track == c.video && blocks[n].key then [blocks[n].ms] else []
  }

  function Audio(c: Config, blocks: seq<Block>): map<Track, seq<int>> {
    if blocks == [] then map[]
    else
      var n := |blocks| - 1;
      var a, b := Audio(c, blocks[..n]), blocks[n];
      if b.track in c.audio then a[b.track := Get(a, b.track) + [b.ms]] else a
  }

  function RecordKeys(c: Config, k: Cuts, keys: seq<int>, start: nat): Cuts {
    if keys == [] then k
    else RecordKeyframe(c, RecordKeys(c, k, keys[..|keys|-1], start), keys[|keys|-1], start)
  }

  function Merge(m: map<Track, seq<int>>, more: map<Track, seq<int>>): map<Track, seq<int>> {
    map t | t in m.Keys + more.Keys :: Get(m, t) + Get(more, t)
  }

  function MeetAll(g: Grid, audio: map<Track, seq<int>>): Grid {
    g.(pts := Merge(g.pts, audio), met := Merge(g.met, audio))
  }

  /** A whole cluster read without the lock, its keyframes and audio times published together. */
  function ScanClusterBatch(c: Config, s: State, blocks: seq<Block>, start: nat): State {
    UpdateSegCount(c, s.(cuts := RecordKeys(c, s.cuts, Keys(c, blocks), start), grid := MeetAll(s.grid, Audio(c, blocks))))
  }

  function ScanCluster(c: Config, s: State, blocks: seq<Block>, start: nat): State {
    if !s.head.done || !s.lead.done then ScanClusterLocked(c, s, blocks, start)
    else ScanClusterBatch(c, s, blocks, start)
  }

  function Finalize(c: Config, s: State): State {
    if s.done then s else UpdateSegCount(c, s.(lead := SettleLead(s.lead), done := true))
  }

  /** A scan's outcome: the state it leaves, and false when it met an element of unknown size. */
  datatype Scanned = Scanned(s: State, ok: bool)

  predicate Readable(f: Source, off: nat, size: nat) {
    off in f.elements && off + f.elements[off].hdr <= size
  }

  function ScanClusters(c: Config, f: Source, s: State, size: nat): Scanned
    requires ValidSource(f)
    decreases if size >= s.cursor then size - s.cursor else 0
  {
    if s.done || !Readable(f, s.cursor, size) then Scanned(s, true)
    else match f.elements[s.cursor]
      case Other(_, _) => Scanned(Finalize(c, s), true)
      case Cluster(hdr, body, blocks) =>
        if body < 0 then Scanned(s, false)
        else if s.cursor + hdr + body > size then Scanned(s, true)
        else ScanClusters(c, f, ScanCluster(c, s, blocks, s.cursor).(cursor := s.cursor + hdr + body), size)
  }

  /** The cluster at the cursor is whole in a file of `size` bytes. */
  predicate WholeNext(f: Source, s: State, size: nat) {
    !s.done && Readable(f, s.cursor, size) &&
    var e := f.elements[s.cursor];
    e.Cluster? && e.size >= 0 && s.cursor + e.hdr + e.size <= size
  }

  function FoldNext(c: Config, f: Source, s: State): State
    requires s.cursor in f.elements && f.elements[s.cursor].Cluster? && f.elements[s.cursor].size >= 0
  {
    var e := f.elements[s.cursor];
    ScanCluster(c, s, e.blocks, s.cursor).(cursor := s.cursor + e.hdr + e.size)
  }

  lemma {:induction false} ScanClustersStep(c: Config, f: Source, s: State, size: nat)
    requires ValidSource(f)
    ensures WholeNext(f, s, size) ==> ScanClusters(c, f, s, size) == ScanClusters(c, f, FoldNext(c, f, s), size)
    ensures !WholeNext(f, s, size) ==> ScanClusters(c, f, s, size).s in {s, Finalize(c, s)}
  {
  }

  /** Where the first cluster starts: None while the walk runs out of data, Err when it cannot be skipped to. */
  datatype Found = At(off: nat) | NotYet | Unsupported

  function FirstCluster(f: Source, pos: nat, size: nat): Found
    requires ValidSource(f)
    decreases if size >= pos then size - pos else 0
  {
    if !Readable(f, pos, size) then NotYet
    else match f.elements[pos]
      case Cluster(_, _, _) => At(pos)
      case Other(hdr, body) => if body < 0 then Unsupported else FirstCluster(f, pos + hdr + body, size)
  }

  predicate EndReached(f: Source, s: State, size: nat) {
    !s.done && f.declaredEnd >= 0 && size >= f.declaredEnd && s.cursor >= f.declaredEnd
  }

  function Scan(c: Config, f: Source, s: State, size: nat): Scanned
    requires ValidSource(f)
  {
    if s.done then Scanned(s, true)
    else
      var found := if s.started then At(s.cursor) else FirstCluster(f, f.segStart, size);
      match found
      case NotYet => Scanned(s, true)
      case Unsupported => Scanned(s, false)
      case At(off) =>
        var r := ScanClusters(c, f, s.(started := true, cursor := off), size);
        if r.ok && EndReached(f, r.s, size) then Scanned(Finalize(c, r.s), true) else r
  }

  function Complete(c: Config, f: Source, s: State, size: nat): State
    requires ValidSource(f)
  {
    Finalize(c, Scan(c, f, s, size).s)
  }

  // ---- any schedule of refreshes reaches what one scan at the last size reaches ----

  lemma {:induction false} ScanClustersTwice(c: Config, f: Source, s: State, size1: nat, size2: nat)
    requires ValidSource(f) && size1 <= size2
    ensures ScanClusters(c, f, ScanClusters(c, f, s, size1).s, size2) == ScanClusters(c, f, s, size2)
    decreases if size1 >= s.cursor then size1 - s.cursor else 0
  {
    if !s.done && Readable(f, s.cursor, size1) && f.elements[s.cursor].Cluster? {
      var e := f.elements[s.cursor];
      if e.size >= 0 && s.cursor + e.hdr + e.size <= size1 {
        ScanClustersTwice(c, f, ScanCluster(c, s, e.blocks, s.cursor).(cursor := s.cursor + e.hdr + e.size), size1, size2);
      }
    }
  }

  lemma {:induction false} FirstClusterStays(f: Source, pos: nat, size1: nat, size2: nat)
    requires ValidSource(f) && size1 <= size2
    ensures FirstCluster(f, pos, size1) == NotYet || FirstCluster(f, pos, size1) == FirstCluster(f, pos, size2)
    decreases if size1 >= pos then size1 - pos else 0
  {
    if Readable(f, pos, size1) && f.elements[pos].Other? && f.elements[pos].size >= 0 {
      FirstClusterStays(f, pos + f.elements[pos].hdr + f.elements[pos].size, size1, size2);
    }
  }

  lemma {:induction false} ScanClustersRuns(c: Config, f: Source, s: State, size: nat)
    requires ValidSource(f)
    ensures var r := ScanClusters(c, f, s, size);
      && r.s.started == s.started
      && (!r.ok ==> !r.s.done && Readable(f, r.s.cursor, size) && f.elements[r.s.cursor].Cluster?
                    && f.elements[r.s.cursor].size < 0)
    decreases if size >= s.cursor then size - s.cursor else 0
  {
    if !s.done && Readable(f, s.cursor, size) && f.elements[s.cursor].Cluster? {
      var e := f.elements[s.cursor];
      ScanClusterKeepsPlace(c, s, e.blocks, s.cursor);
      if e.size >= 0 && s.cursor + e.hdr + e.size <= size {
        ScanClustersRuns(c, f, ScanCluster(c, s, e.blocks, s.cursor).(cursor := s.cursor + e.hdr + e.size), size);
      }
    }
  }

  /** Where the scan stands: what folding a cluster in never touches. */
  predicate SamePlace(s: State, s': State) {
    s'.started == s.started && s'.cursor == s.cursor && s'.done == s.done
  }

  lemma {:induction false} ScanBlocksKeepPlace(c: Config, s: State, blocks: seq<Block>, start: nat)
    ensures SamePlace(s, ScanBlocks(c, s, blocks, start))
  {
    if blocks != [] { ScanBlocksKeepPlace(c, s, blocks[..|blocks|-1], start); }
  }

  lemma ScanClusterKeepsPlace(c: Config, s: State, blocks: seq<Block>, start: nat)
    ensures SamePlace(s, ScanCluster(c, s, blocks, start))
  {
    ScanBlocksKeepPlace(c, s, blocks, start);
  }

  /** Two scans at growing sizes leave the state, and report, what the second alone does. */
  lemma ScanTwice(c: Config, f: Source, s: State, size1: nat, size2: nat)
    requires ValidSource(f) && ClustersInside(f) && size1 <= size2
    ensures Scan(c, f, Scan(c, f, s, size1).s, size2) == Scan(c, f, s, size2)
  {
    if !s.done {
      if !s.started { FirstClusterStays(f, f.segStart, size1, size2); }
      var found := if s.started then At(s.cursor) else FirstCluster(f, f.segStart, size1);
      if found.At? {
        var s0 := s.(started := true, cursor := found.off);
        var r := ScanClusters(c, f, s0, size1);
        ScanClustersTwice(c, f, s0, size1, size2);
        ScanClustersRuns(c, f, s0, size1);
        assert r.s.(started := true, cursor := r.s.cursor) == r.s;
        if r.ok && EndReached(f, r.s, size1) {
          assert Readable(f, r.s.cursor, size2) ==> f.elements[r.s.cursor].Other?;
        }
      }
    }
  }

  function ScanAll(c: Config, f: Source, s: State, sizes: seq<nat>): State
    requires ValidSource(f)
  {
    if sizes == [] then s else Scan(c, f, ScanAll(c, f, s, sizes[..|sizes|-1]), sizes[|sizes|-1]).s
  }

  /** Refresh schedules are confluent: the sizes at which the file was looked at do not show in the plan. */
  lemma {:induction false} SchedulesConfluent(c: Config, f: Source, s: State, sizes: seq<nat>)
    requires ValidSource(f) && ClustersInside(f) && sizes != []
    requires forall i, j :: 0 <= i <= j < |sizes| ==> sizes[i] <= sizes[j]
    ensures ScanAll(c, f, s, sizes) == Scan(c, f, s, sizes[|sizes|-1]).s
  {
    var n := |sizes| - 1;
    if n > 0 {
      SchedulesConfluent(c, f, s, sizes[..n]);
      ScanTwice(c, f, s, sizes[n-1], sizes[n]);
    } else {
      assert sizes[..n] == [];
    }
  }

  // ---- the batched path is the per-block one ----

  /** A cluster's keyframes reach the boundaries the same way however its blocks interleave. */
  lemma {:induction false} CutsByKeys(c: Config, s: State, blocks: seq<Block>, start: nat)
    ensures ScanBlocks(c, s, blocks, start).cuts == RecordKeys(c, s.cuts, Keys(c, blocks), start)
  {
    if blocks != [] {
      var n := |blocks| - 1;
      var keys, b := Keys(c, blocks[..n]), blocks[n];
      CutsByKeys(c, s, blocks[..n], start);
      if b.track == c.video && b.key {
        assert Keys(c, blocks) == keys + [b.ms];
        Seqs.Split(keys, [b.ms]);
      } else {
        assert Keys(c, blocks) == keys + [] == keys;
      }
    }
  }

  /** So does its audio. */
  lemma {:induction false} GridByAudio(c: Config, s: State, blocks: seq<Block>, start: nat)
    ensures ScanBlocks(c, s, blocks, start).grid == MeetAll(s.grid, Audio(c, blocks))
  {
    if blocks == [] {
      MergeEmpty(s.grid.pts);
      MergeEmpty(s.grid.met);
    } else {
      var n := |blocks| - 1;
      GridByAudio(c, s, blocks[..n], start);
      if blocks[n].track in c.audio {
        MergeStep(s.grid.pts, Audio(c, blocks[..n]), blocks[n].track, blocks[n].ms);
        MergeStep(s.grid.met, Audio(c, blocks[..n]), blocks[n].track, blocks[n].ms);
      }
    }
  }

  lemma MergeEmpty(m: map<Track, seq<int>>)
    ensures Merge(m, map[]) == m
  {
    var l := Merge(m, map[]);
    assert l.Keys == m.Keys;
    forall u | u in m ensures l[u] == m[u] {
      assert Get(m, u) + Get(map[], u) == m[u];
    }
  }

  lemma MergeStep(m: map<Track, seq<int>>, more: map<Track, seq<int>>, t: Track, ms: int)
    ensures Merge(m, more[t := Get(more, t) + [ms]]) == Merge(m, more)[t := Get(Merge(m, more), t) + [ms]]
  {
    var more', merged := more[t := Get(more, t) + [ms]], Merge(m, more);
    var l, r := Merge(m, more'), merged[t := Get(merged, t) + [ms]];
    Seqs.Assoc(Get(m, t), Get(more, t), [ms]);
    assert l.Keys == r.Keys;
    forall u | u in l ensures l[u] == r[u] {
      assert Get(more', u) == if u == t then Get(more, t) + [ms] else Get(more, u);
      assert Get(merged, u) == Get(m, u) + Get(more, u);
    }
  }

  lemma {:induction false} ResolvedUntouched(c: Config, s: State, blocks: seq<Block>, start: nat)
    requires s.head.done && s.lead.done
    ensures ScanBlocks(c, s, blocks, start).head == s.head && ScanBlocks(c, s, blocks, start).lead == s.lead
    ensures ScanBlocks(c, s, blocks, start).segCount == s.segCount && ScanBlocks(c, s, blocks, start).published == s.published
  {
    if blocks != [] { ResolvedUntouched(c, s, blocks[..|blocks|-1], start); }
  }

  /** Once the head and the lead have resolved, reading a cluster first and publishing it at once changes nothing. */
  lemma BatchIsPerBlock(c: Config, s: State, blocks: seq<Block>, start: nat)
    requires s.head.done && s.lead.done
    ensures ScanClusterBatch(c, s, blocks, start) == ScanClusterLocked(c, s, blocks, start)
  {
    CutsByKeys(c, s, blocks, start);
    GridByAudio(c, s, blocks, start);
    ResolvedUntouched(c, s, blocks, start);
    ScanBlocksKeepPlace(c, s, blocks, start);
  }
}
