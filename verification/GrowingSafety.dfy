/** What a growing plan never takes back: its boundaries, its published entries and the timing of published windows. */
module GrowingSafety {
  import opened Arith
  import opened GridWindow
  import opened GridFinality
  import opened GrowingPlan

  predicate Spaced(bounds: seq<int>, segMs: int) {
    forall i, j :: 0 <= i < j < |bounds| ==> bounds[i] + segMs <= bounds[j]
  }

  /** Boundaries open on 0 and grow by at least segMs each, one cluster offset beside each. */
  predicate CutsOk(c: Config, k: Cuts) {
    && c.segMs >= 1
    && (k.haveFirstKF <==> k.bounds != [])
    && |k.offsets| == |k.bounds|
    && (k.bounds != [] ==> k.bounds[0] == 0 && k.kfLast == k.bounds[|k.bounds|-1])
    && Spaced(k.bounds, c.segMs)
  }

  ghost predicate TimesOk(g: Grid) {
    forall t :: t in g.met ==> forall x :: x in g.met[t] ==> x < MAX_INT64
  }

  /** Window w of track t was settled by frames. */
  predicate WindowFinal(c: Config, h: Head, bounds: seq<int>, met: seq<int>, t: Track, w: nat)
    requires w + 1 < |bounds|
  {
    GridOf(h, t) > 0 ==> SettledByFrames(FromWindow(met, bounds, w), bounds, w, SlotOf(c, h, t))
  }

  /** The frames kept for a track are those of window `win` and past it, and every window before was settled by frames. */
  ghost predicate TrackKept(c: Config, h: Head, bounds: seq<int>, pts: seq<int>, met: seq<int>, t: Track, win: nat) {
    && (win > 0 ==> win < |bounds| && pts != [])
    && pts == FromWindow(met, bounds, win)
    && forall w: nat {:trigger WindowFinal(c, h, bounds, met, t, w)} :: w < win ==> WindowFinal(c, h, bounds, met, t, w)
  }

  ghost predicate GridOk(c: Config, h: Head, bounds: seq<int>, g: Grid) {
    && (g.win > 0 ==> g.win < |bounds| && h.done)
    && TimesOk(g)
    && forall t :: t in c.audio && t !in g.behind ==>
      TrackKept(c, h, bounds, Get(g.pts, t), Get(g.met, t), t, g.win)
  }

  ghost predicate StateOk(c: Config, s: State) {
    && CutsOk(c, s.cuts)
    && GridOk(c, s.head, s.cuts.bounds, s.grid)
    && (if s.done && s.head.done then s.published == |s.cuts.bounds| else s.published == s.grid.win)
  }

  lemma InitOk(c: Config)
    requires ValidConfig(c)
    ensures StateOk(c, Init(c))
  {
  }

  // ---- boundaries ----

  lemma RecordOk(c: Config, k: Cuts, ms: int, off: nat)
    requires CutsOk(c, k)
    ensures var k' := RecordKeyframe(c, k, ms, off); CutsOk(c, k') && k.bounds <= k'.bounds && k.offsets <= k'.offsets
  {
  }

  lemma {:induction false} RecordKeysOk(c: Config, k: Cuts, keys: seq<int>, off: nat)
    requires CutsOk(c, k)
    ensures var k' := RecordKeys(c, k, keys, off); CutsOk(c, k') && k.bounds <= k'.bounds && k.offsets <= k'.offsets
  {
    if keys != [] {
      RecordKeysOk(c, k, keys[..|keys|-1], off);
      RecordOk(c, RecordKeys(c, k, keys[..|keys|-1], off), keys[|keys|-1], off);
    }
  }

  // ---- frames kept for the windows still open ----

  lemma {:induction false} WindowFinalStays(c: Config, h: Head, bounds: seq<int>, moreBounds: seq<int>, met: seq<int>, more: seq<int>, t: Track, w: nat, win: nat)
    requires w < win < |bounds| && FromWindow(met, bounds, win) != [] && WindowFinal(c, h, bounds, met, t, w)
    ensures WindowFinal(c, h, bounds + moreBounds, met + more, t, w)
  {
    FromWindowShrinks(met, bounds, w, win);
    FromWindowAppend(met, more, bounds, moreBounds, w);
    if GridOf(h, t) > 0 {
      SettledStays(FromWindow(met, bounds, w), more, bounds, moreBounds, w, SlotOf(c, h, t));
    }
  }

  /** New frames and bounds leave a track's kept frames in step. */
  lemma TrackGrows(c: Config, h: Head, bounds: seq<int>, moreBounds: seq<int>, pts: seq<int>, met: seq<int>, more: seq<int>, t: Track, win: nat)
    requires TrackKept(c, h, bounds, pts, met, t, win)
    ensures TrackKept(c, h, bounds + moreBounds, pts + more, met + more, t, win)
  {
    FromWindowAppend(met, more, bounds, moreBounds, win);
    forall w: nat | w < win
      ensures WindowFinal(c, h, bounds + moreBounds, met + more, t, w)
    {
      assert WindowFinal(c, h, bounds, met, t, w);
      WindowFinalStays(c, h, bounds, moreBounds, met, more, t, w, win);
    }
  }

  /** Before the head resolves nothing is published, so what it learns changes no kept window. */
  lemma TrackBeforeHead(c: Config, h: Head, h': Head, bounds: seq<int>, pts: seq<int>, met: seq<int>, t: Track)
    requires TrackKept(c, h, bounds, pts, met, t, 0)
    ensures TrackKept(c, h', bounds, pts, met, t, 0)
  {
  }

  ghost predicate AudioInRange(audio: map<Track, seq<int>>) {
    forall t :: t in audio ==> forall x :: x in audio[t] ==> x < MAX_INT64
  }

  lemma GridGrows(c: Config, h: Head, bounds: seq<int>, bounds': seq<int>, g: Grid, audio: map<Track, seq<int>>)
    requires GridOk(c, h, bounds, g) && bounds <= bounds' && AudioInRange(audio)
    ensures GridOk(c, h, bounds', MeetAll(g, audio))
  {
    var g', more := MeetAll(g, audio), bounds'[|bounds|..];
    assert bounds' == bounds + more;
    forall t | t in c.audio && t !in g.behind
      ensures TrackKept(c, h, bounds', Get(g'.pts, t), Get(g'.met, t), t, g.win)
    {
      TrackGrows(c, h, bounds, more, Get(g.pts, t), Get(g.met, t), Get(audio, t), t, g.win);
      MergeGet(g.pts, audio, t);
      MergeGet(g.met, audio, t);
    }
    forall t, x | t in g'.met && x in g'.met[t] ensures x < MAX_INT64 {
      MergeGet(g.met, audio, t);
      assert x in Get(g.met, t) || x in Get(audio, t);
    }
  }

  lemma MergeGet(m: map<Track, seq<int>>, more: map<Track, seq<int>>, t: Track)
    ensures Get(Merge(m, more), t) == Get(m, t) + Get(more, t)
  {
  }

  /** Publishing a window: the tracks whose own frames settled it stay in step, the others are marked. */
  lemma DropOk(c: Config, h: Head, bounds: seq<int>, g: Grid)
    requires GridOk(c, h, bounds, g) && h.done
    requires g.win + 1 < |bounds| && Settled(c, h, bounds, g.pts, g.win)
    ensures GridOk(c, h, bounds, DropWindow(c, h, bounds, g))
  {
    var g' := DropWindow(c, h, bounds, g);
    forall t | t in c.audio && t !in g'.behind
      ensures TrackKept(c, h, bounds, Get(g'.pts, t), Get(g.met, t), t, g'.win)
    {
      DropTrack(c, h, bounds, g, t);
    }
  }

  lemma FramesPast(pts: seq<int>, bounds: seq<int>, m: nat, slot: int -> int)
    requires m + 1 < |bounds| && MetPast(pts, bounds, m, slot)
    ensures Under(pts, bounds[m+1]) < |pts|
  {
  }

  /** A window settled by a track's own frames is dropped from those kept. */
  lemma KeptStep(c: Config, h: Head, bounds: seq<int>, pts: seq<int>, met: seq<int>, t: Track, win: nat)
    requires win + 1 < |bounds| && TrackKept(c, h, bounds, pts, met, t, win)
    requires MetPast(pts, bounds, win, SlotOf(c, h, t))
    requires GridOf(h, t) > 0 ==> TrackSettled(pts, bounds, win, SlotOf(c, h, t))
    ensures TrackKept(c, h, bounds, pts[Under(pts, bounds[win+1])..], met, t, win + 1)
  {
    hide MetPast, TrackSettled, SlotOf;
    FramesPast(pts, bounds, win, SlotOf(c, h, t));
    assert WindowFinal(c, h, bounds, met, t, win);
    assert FromWindow(met, bounds, win + 1) == pts[Under(pts, bounds[win+1])..];
  }

  lemma DroppedGet(pts: map<Track, seq<int>>, limit: int, t: Track)
    requires t in pts
    ensures Get(Dropped(pts, limit), t) == pts[t][Under(pts[t], limit)..]
  {
  }

  lemma DropTrack(c: Config, h: Head, bounds: seq<int>, g: Grid, t: Track)
    requires g.win + 1 < |bounds| && Settled(c, h, bounds, g.pts, g.win)
    requires TrackKept(c, h, bounds, Get(g.pts, t), Get(g.met, t), t, g.win)
    requires MetPast(Get(g.pts, t), bounds, g.win, SlotOf(c, h, t))
    ensures TrackKept(c, h, bounds, Get(DropWindow(c, h, bounds, g).pts, t), Get(g.met, t), t, g.win + 1)
  {
    hide MetPast, TrackSettled, LeftBehind, TrackKept, Dropped, SlotOf;
    var pts := Get(g.pts, t);
    FramesPast(pts, bounds, g.win, SlotOf(c, h, t));
    KeptStep(c, h, bounds, pts, Get(g.met, t), t, g.win);
    DroppedGet(g.pts, bounds[g.win + 1], t);
  }

  lemma {:induction false} PublishOk(c: Config, h: Head, bounds: seq<int>, g: Grid)
    requires GridOk(c, h, bounds, g) && h.done
    ensures var g' := PublishSettled(c, h, bounds, g);
      GridOk(c, h, bounds, g') && g.win <= g'.win && g'.met == g.met && g.behind <= g'.behind
    decreases |bounds| - g.win
  {
    if g.win + 1 < |bounds| && Settled(c, h, bounds, g.pts, g.win) {
      DropOk(c, h, bounds, g);
      PublishOk(c, h, bounds, DropWindow(c, h, bounds, g));
    }
  }

  // ---- every step ----

  ghost predicate MetGrows(met: map<Track, seq<int>>, met': map<Track, seq<int>>) {
    forall t :: Get(met, t) <= Get(met', t)
  }

  lemma MetGrowsTrans(met: map<Track, seq<int>>, met': map<Track, seq<int>>, met'': map<Track, seq<int>>)
    requires MetGrows(met, met') && MetGrows(met', met'')
    ensures MetGrows(met, met'')
  {
  }

  /** What one step, or a run of them, may do to a plan. */
  ghost predicate Extends(s: State, s': State) {
    && s.cuts.bounds <= s'.cuts.bounds && s.cuts.offsets <= s'.cuts.offsets
    && s.published <= s'.published && s.grid.win <= s'.grid.win && s.grid.behind <= s'.grid.behind
    && MetGrows(s.grid.met, s'.grid.met)
    && (s.head.done ==> s'.head.done && s'.head == s.head)
    && (s.lead.done ==> s'.lead == s.lead)
    && (s.done ==> s' == s)
  }

  lemma ExtendsTrans(s: State, s': State, s'': State)
    requires Extends(s, s') && Extends(s', s'')
    ensures Extends(s, s'')
  {
    MetGrowsTrans(s.grid.met, s'.grid.met, s''.grid.met);
  }

  lemma {:induction false} BlocksExtend(c: Config, s: State, blocks: seq<Block>, start: nat)
    ensures var s' := ScanBlocks(c, s, blocks, start);
      && (s.head.done ==> s'.head == s.head) && (s.lead.done ==> s'.lead == s.lead)
      && s'.published == s.published && s'.done == s.done
  {
    if blocks != [] { BlocksExtend(c, s, blocks[..|blocks|-1], start); }
  }

  lemma {:induction false} AudioOk(c: Config, blocks: seq<Block>)
    requires forall b :: b in blocks ==> b.ms < MAX_INT64
    ensures AudioInRange(Audio(c, blocks))
  {
    if blocks != [] {
      var n := |blocks| - 1;
      AudioOk(c, blocks[..n]);
      assert blocks[n] in blocks;
    }
  }

  lemma UpdateOk(c: Config, s: State)
    requires CutsOk(c, s.cuts) && GridOk(c, s.head, s.cuts.bounds, s.grid)
    ensures var s' := UpdateSegCount(c, s);
      && StateOk(c, s') && s'.head == s.head && s'.lead == s.lead && s'.cuts == s.cuts
      && s'.done == s.done && s'.grid.met == s.grid.met
      && s.grid.win <= s'.grid.win <= s'.published && s.grid.behind <= s'.grid.behind
  {
    if s.head.done { PublishOk(c, s.head, s.cuts.bounds, s.grid); }
  }

  lemma ClusterOk(c: Config, s: State, blocks: seq<Block>, start: nat)
    requires StateOk(c, s) && !s.done
    requires forall b :: b in blocks ==> b.ms < MAX_INT64
    ensures StateOk(c, ScanCluster(c, s, blocks, start)) && Extends(s, ScanCluster(c, s, blocks, start))
  {
    if s.head.done && s.lead.done { BatchIsPerBlock(c, s, blocks, start); }
    var audio := Audio(c, blocks);
    var s1 := ScanBlocks(c, s, blocks, start);
    CutsByKeys(c, s, blocks, start);
    GridByAudio(c, s, blocks, start);
    BlocksExtend(c, s, blocks, start);
    AudioOk(c, blocks);
    RecordKeysOk(c, s.cuts, Keys(c, blocks), start);
    GridGrows(c, s.head, s.cuts.bounds, s1.cuts.bounds, s.grid, audio);
    var h := ResolveReady(c, s1.head);
    if !s.head.done {
      forall t | t in c.audio && t !in s1.grid.behind
        ensures TrackKept(c, h, s1.cuts.bounds, Get(s1.grid.pts, t), Get(s1.grid.met, t), t, 0)
      {
        TrackBeforeHead(c, s.head, h, s1.cuts.bounds, Get(s1.grid.pts, t), Get(s1.grid.met, t), t);
      }
    }
    UpdateOk(c, s1.(head := h));
    forall t ensures Get(s.grid.met, t) <= Get(s1.grid.met, t) {
      MergeGet(s.grid.met, audio, t);
    }
  }

  lemma MovedOn(c: Config, s: State, s': State, cursor: nat)
    requires StateOk(c, s') && Extends(s, s') && !s.done
    ensures StateOk(c, s'.(cursor := cursor)) && Extends(s, s'.(cursor := cursor))
  {
  }

  lemma FinalizeOk(c: Config, s: State)
    requires StateOk(c, s)
    ensures StateOk(c, Finalize(c, s)) && Extends(s, Finalize(c, s))
  {
  }

  lemma FoldOk(c: Config, f: Source, s: State, size: nat)
    requires ValidSource(f) && TimesInRange(f) && StateOk(c, s) && WholeNext(f, s, size)
    ensures StateOk(c, FoldNext(c, f, s)) && Extends(s, FoldNext(c, f, s))
  {
    var e := f.elements[s.cursor];
    ClusterOk(c, s, e.blocks, s.cursor);
    MovedOn(c, s, ScanCluster(c, s, e.blocks, s.cursor), s.cursor + e.hdr + e.size);
  }

  lemma {:induction false} ClustersOk(c: Config, f: Source, s: State, size: nat)
    requires ValidSource(f) && TimesInRange(f) && StateOk(c, s)
    ensures var s' := ScanClusters(c, f, s, size).s; StateOk(c, s') && Extends(s, s')
    decreases if size >= s.cursor then size - s.cursor else 0
  {
    ScanClustersStep(c, f, s, size);
    if WholeNext(f, s, size) {
      var s' := FoldNext(c, f, s);
      FoldOk(c, f, s, size);
      ClustersOk(c, f, s', size);
      ExtendsTrans(s, s', ScanClusters(c, f, s', size).s);
    } else {
      FinalizeOk(c, s);
    }
  }

  /** Every scan keeps the plan's invariant and takes nothing back. */
  lemma ScanOk(c: Config, f: Source, s: State, size: nat)
    requires ValidSource(f) && TimesInRange(f) && StateOk(c, s)
    ensures StateOk(c, Scan(c, f, s, size).s) && Extends(s, Scan(c, f, s, size).s)
  {
    if !s.done {
      var found := if s.started then At(s.cursor) else FirstCluster(f, f.segStart, size);
      if found.At? {
        var s0 := s.(started := true, cursor := found.off);
        ClustersOk(c, f, s0, size);
        var r := ScanClusters(c, f, s0, size);
        ExtendsTrans(s, s0, r.s);
        FinalizeOk(c, r.s);
        ExtendsTrans(s, r.s, Finalize(c, r.s));
      }
    }
  }

  lemma {:induction false} ScheduleOk(c: Config, f: Source, s: State, sizes: seq<nat>)
    requires ValidSource(f) && TimesInRange(f) && StateOk(c, s)
    ensures StateOk(c, ScanAll(c, f, s, sizes)) && Extends(s, ScanAll(c, f, s, sizes))
  {
    if sizes != [] {
      var s1 := ScanAll(c, f, s, sizes[..|sizes|-1]);
      ScheduleOk(c, f, s, sizes[..|sizes|-1]);
      ScanOk(c, f, s1, sizes[|sizes|-1]);
      ExtendsTrans(s, s1, Scan(c, f, s1, sizes[|sizes|-1]).s);
    }
  }

  // ---- what is published stays ----

  /** A playlist entry: where its segment starts and ends (ms) and the byte its first cluster starts at. */
  datatype Entry = Entry(startMs: int, endMs: int, offset: nat)

  /** The entries a playlist lists, endMs closing the last segment of a finished plan. */
  function Entries(s: State, endMs: int): seq<Entry>
    requires s.published <= |s.cuts.bounds| == |s.cuts.offsets|
  {
    seq(s.published, k requires 0 <= k < s.published =>
      Entry(s.cuts.bounds[k], if k + 1 < |s.cuts.bounds| then s.cuts.bounds[k+1] else endMs, s.cuts.offsets[k]))
  }

  /** No published entry ever changes or is withdrawn: along any schedule of refreshes, and the closing call, the
      playlist's entries only gain more at their end. */
  lemma {:induction false} EntriesOnlyGrow(c: Config, f: Source, s: State, sizes: seq<nat>, endMs: int, endMs': int)
    requires ValidSource(f) && TimesInRange(f) && StateOk(c, s) && !s.done
    ensures var s' := ScanAll(c, f, s, sizes);
      && s.published <= |s.cuts.bounds| == |s.cuts.offsets|
      && s'.published <= |s'.cuts.bounds| == |s'.cuts.offsets|
      && Entries(s, endMs) <= Entries(s', endMs')
      && Finalize(c, s').published <= |Finalize(c, s').cuts.bounds| == |Finalize(c, s').cuts.offsets|
      && Entries(s, endMs) <= Entries(Finalize(c, s'), endMs')
  {
    var s' := ScanAll(c, f, s, sizes);
    ScheduleOk(c, f, s, sizes);
    FinalizeOk(c, s');
    ExtendsTrans(s, s', Finalize(c, s'));
    EntriesPrefix(c, s, s', endMs, endMs');
    EntriesPrefix(c, s, Finalize(c, s'), endMs, endMs');
  }

  lemma EntriesPrefix(c: Config, s: State, s': State, endMs: int, endMs': int)
    requires StateOk(c, s) && !s.done && StateOk(c, s') && Extends(s, s')
    ensures s.published <= |s.cuts.bounds| == |s.cuts.offsets| && s'.published <= |s'.cuts.bounds| == |s'.cuts.offsets|
    ensures Entries(s, endMs) <= Entries(s', endMs')
  {
  }

  /** Published timing is final: whatever is scanned later, a window published for a grid-timed track on its own
      frames keeps the frames, decode times and durations the full pass gives it now. */
  lemma {:induction false} PublishedTimingFinal(c: Config, f: Source, s: State, sizes: seq<nat>, t: Track, w: nat)
    requires ValidSource(f) && TimesInRange(f) && SlotsNonNegative(c) && StateOk(c, s)
    requires t in c.audio && t !in s.grid.behind && GridOf(s.head, t) > 0 && w < s.grid.win
    ensures var s' := ScanAll(c, f, s, sizes);
      && s'.head == s.head
      && var wins, wins' := Cut(Get(s.grid.met, t), s.cuts.bounds, 0), Cut(Get(s'.grid.met, t), s'.cuts.bounds, 0);
         var slot, gridTS := SlotOf(c, s.head, t), GridOf(s.head, t);
         && w < |wins| && w < |wins'| && wins'[w] == wins[w]
         && WindowDts(wins', slot, gridTS, w) == WindowDts(wins, slot, gridTS, w)
         && WindowDur(wins', slot, gridTS, w) == WindowDur(wins, slot, gridTS, w)
  {
    var s' := ScanAll(c, f, s, sizes);
    ScheduleOk(c, f, s, sizes);
    var met, met' := Get(s.grid.met, t), Get(s'.grid.met, t);
    assert met <= met';
    assert forall x :: x in met' ==> x < MAX_INT64;
    assert WindowFinal(c, s.head, s.cuts.bounds, met, t, w);
    TimingStays(met, met', s.cuts.bounds, s'.cuts.bounds, w, SlotOf(c, s.head, t), GridOf(s.head, t));
  }

  lemma {:induction false} TimingStays(met: seq<int>, met': seq<int>, bounds: seq<int>, bounds': seq<int>, w: nat, slot: int -> int, gridTS: int)
    requires met <= met' && bounds <= bounds' && w + 1 < |bounds|
    requires SettledByFrames(FromWindow(met, bounds, w), bounds, w, slot)
    requires forall ms :: slot(ms) >= 0
    requires forall x :: x in met' ==> x < MAX_INT64
    ensures var wins, wins' := Cut(met, bounds, 0), Cut(met', bounds', 0);
      && wins'[w] == wins[w]
      && WindowDts(wins', slot, gridTS, w) == WindowDts(wins, slot, gridTS, w)
      && WindowDur(wins', slot, gridTS, w) == WindowDur(wins, slot, gridTS, w)
  {
    var more, moreBounds := met'[|met|..], bounds'[|bounds|..];
    assert met' == met + more && bounds' == bounds + moreBounds;
    FramesOf(met, bounds, w);
    forall x | x in FromWindow(met, bounds, w) || x in more ensures x < MAX_INT64 {
      assert x in met';
    }
    SettledIsFinal(met, more, bounds, moreBounds, w, slot, gridTS);
  }

  lemma {:induction false} FramesOf(met: seq<int>, bounds: seq<int>, m: nat)
    requires m == 0 || m < |bounds|
    ensures forall x :: x in FromWindow(met, bounds, m) ==> x in met
  {
    if m > 0 { FramesOf(met, bounds, m - 1); }
  }

  /** Once settled, the lead (the init's edit list) and the head (first times, strides) never change again. */
  lemma {:induction false} InitSegmentStable(c: Config, f: Source, s: State, sizes: seq<nat>)
    requires ValidSource(f) && TimesInRange(f) && StateOk(c, s) && s.head.done && s.lead.done
    ensures ScanAll(c, f, s, sizes).head == s.head && ScanAll(c, f, s, sizes).lead == s.lead
  {
    ScheduleOk(c, f, s, sizes);
  }
}
