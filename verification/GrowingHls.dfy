/** The growing plan as the object it is: fields each locked step updates in place (mp4/growinghls.go). Every method is
    tied to the step of GrowingPlan it performs, so what GrowingSafety proves of the steps holds of the object. */
module GrowingHls {
  import opened Arith
  import opened GridWindow
  import opened GridFinality
  import opened GrowingPlan
  import FragTiming
  import Safety = GrowingSafety
  import Stops = GrowingStops

  // ---- maps a loop has updated for all keys but `rest` ----

  ghost function MergeUpTo(m: map<Track, seq<int>>, more: map<Track, seq<int>>, rest: set<Track>): map<Track, seq<int>> {
    map t | t in m.Keys + (more.Keys - rest) :: Get(m, t) + if t in rest then [] else Get(more, t)
  }

  lemma MergeUpToEnds(m: map<Track, seq<int>>, more: map<Track, seq<int>>)
    ensures MergeUpTo(m, more, more.Keys) == m
    ensures MergeUpTo(m, more, {}) == Merge(m, more)
  {
    var l := MergeUpTo(m, more, more.Keys);
    assert l.Keys == m.Keys;
    forall t | t in m ensures l[t] == m[t] {
      assert t !in more ==> Get(more, t) == [];
      assert m[t] + [] == m[t];
    }
    assert MergeUpTo(m, more, {}).Keys == Merge(m, more).Keys;
  }

  lemma MergeUpToStep(m: map<Track, seq<int>>, more: map<Track, seq<int>>, rest: set<Track>, t: Track)
    requires t in rest && rest <= more.Keys
    ensures var now := MergeUpTo(m, more, rest); MergeUpTo(m, more, rest - {t}) == now[t := Get(now, t) + more[t]]
  {
    var now, next := MergeUpTo(m, more, rest), MergeUpTo(m, more, rest - {t});
    assert Get(now, t) == Get(m, t) + [] == Get(m, t);
    assert next.Keys == now.Keys + {t};
    forall u | u in next && u != t ensures next[u] == now[u] {
    }
  }

  ghost function DropUpTo(m: map<Track, seq<int>>, limit: int, rest: set<Track>): map<Track, seq<int>> {
    map t | t in m :: if t in rest then m[t] else m[t][Under(m[t], limit)..]
  }

  lemma {:induction false} DropUpToStep(m: map<Track, seq<int>>, limit: int, rest: set<Track>, t: Track)
    requires t in rest && rest <= m.Keys
    ensures DropUpTo(m, limit, rest)[t] == m[t]
    ensures DropUpTo(m, limit, rest - {t}) == DropUpTo(m, limit, rest)[t := m[t][Under(m[t], limit)..]]
  {
  }

  lemma DropUpToEnds(m: map<Track, seq<int>>, limit: int)
    ensures DropUpTo(m, limit, m.Keys) == m && DropUpTo(m, limit, {}) == Dropped(m, limit)
  {
  }

  function Laced(c: Config, probes: map<Track, Probe>, t: Track): int
    requires t in probes
  {
    c.laceGrid(t, probes[t])
  }

  ghost function LacedUpTo(c: Config, probes: map<Track, Probe>, rest: set<Track>): map<Track, int> {
    map t | t in probes && t !in rest && probes[t].haveSecond :: Laced(c, probes, t)
  }

  ghost function ResolvedUpTo(c: Config, h: Head, laced: map<Track, int>, rest: set<Track>): map<Track, int> {
    map t | t in {c.video} + c.audio && (t !in rest || t in laced) ::
      if t in rest then laced[t] else ResolvedGrid(c, h, t)
  }

  /** The strides the resolved probes give. */
  method LacedGrids(c: Config, probes: map<Track, Probe>) returns (grids: map<Track, int>)
    ensures grids == LacedUpTo(c, probes, {})
  {
    grids := map[];
    var rest := probes.Keys;
    while rest != {}
      invariant rest <= probes.Keys && grids == LacedUpTo(c, probes, rest)
      decreases |rest|
    {
      var t :| t in rest;
      if probes[t].haveSecond {
        grids := grids[t := c.laceGrid(t, probes[t])];
      }
      rest := rest - {t};
    }
  }

  /** The tracks left without a stride take their declared grid. */
  method DeclaredGrids(c: Config, ghost h: Head, laced: map<Track, int>) returns (grids: map<Track, int>)
    requires ValidConfig(c) && h.probes.Keys == c.probed && laced == LacedUpTo(c, h.probes, {})
    ensures grids == map t | t in {c.video} + c.audio :: ResolvedGrid(c, h, t)
  {
    grids := laced;
    var rest := {c.video} + c.audio;
    while rest != {}
      invariant rest <= {c.video} + c.audio && grids == ResolvedUpTo(c, h, laced, rest)
      decreases |rest|
    {
      var t :| t in rest;
      if t !in grids || grids[t] <= 0 {
        grids := grids[t := c.declaredGrid(t)];
      }
      rest := rest - {t};
    }
  }

  /** Every track's frames past window `win`, whose end is `limit`. */
  method DropFrames(pts: map<Track, seq<int>>, limit: int) returns (kept: map<Track, seq<int>>)
    ensures kept == Dropped(pts, limit)
  {
    kept := pts;
    var rest := pts.Keys;
    DropUpToEnds(pts, limit);
    while rest != {}
      invariant rest <= pts.Keys && kept == DropUpTo(pts, limit, rest)
      decreases |rest|
    {
      var t :| t in rest;
      DropUpToStep(pts, limit, rest, t);
      var to := EndOfWindow(pts[t], 0, limit);
      assert pts[t][0..] == pts[t];
      kept := kept[t := pts[t][to..]];
      rest := rest - {t};
    }
  }

  /** A cluster's keyframes and, per track, its audio times. */
  method Collect(c: Config, blocks: seq<Block>) returns (keys: seq<int>, audio: map<Track, seq<int>>)
    ensures keys == Keys(c, blocks) && audio == Audio(c, blocks)
  {
    keys, audio := [], map[];
    for i := 0 to |blocks|
      invariant keys == Keys(c, blocks[..i]) && audio == Audio(c, blocks[..i])
    {
      var b := blocks[i];
      assert blocks[..i+1][..i] == blocks[..i];
      if b.track == c.video && b.key {
        keys := keys + [b.ms];
      }
      if b.track in c.audio {
        audio := audio[b.track := (if b.track in audio then audio[b.track] else []) + [b.ms]];
      }
    }
    assert blocks[..|blocks|] == blocks;
  }

  class GrowingHlsPlan {
    const c: Config
    const f: Source

    var started: bool
    var cursor: nat
    var done: bool
    var head: Head
    var lead: Lead
    var cuts: Cuts
    var grid: Grid
    var segCount: nat
    var published: nat

    ghost function Now(): State
      reads this
    {
      State(started, cursor, done, head, lead, cuts, grid, segCount, published)
    }

    ghost predicate Valid()
      reads this
    {
      ValidConfig(c) && ValidSource(f) && head.probes.Keys == c.probed && (!head.done ==> head.gridTS == map[])
    }

    constructor (c: Config, f: Source)
      requires ValidConfig(c) && ValidSource(f)
      ensures Valid() && this.c == c && this.f == f && Now() == Init(c)
    {
      this.c, this.f := c, f;
      started, cursor, done := false, 0, false;
      head := Head(false, |{c.video} + c.audio|, |c.probed|,
                   map[], map t | t in c.probed :: Probe(0, 0, 0, false, false), map[]);
      lead, cuts, grid := Lead(false, [], []), Cuts(false, 0, [], []), Grid(map[], 0, map[], {});
      segCount, published := 0, 0;
    }

    method SettleLead()
      modifies `lead
      ensures lead == GrowingPlan.SettleLead(old(lead))
    {
      lead := lead.(done := true);
    }

    method ExtendLead(b: Block)
      modifies `lead
      ensures lead == GrowingPlan.ExtendLead(old(lead), b)
    {
      if lead.done {
        return;
      }
      if (|lead.pts| > 0 && b.key) || |lead.pts| >= FragTiming.COMPOSITION_PREFIX {
        SettleLead();
        return;
      }
      lead := lead.(pts := lead.pts + [b.pts], sync := lead.sync + [b.key]);
    }

    method ExtendHead(b: Block)
      modifies `head
      ensures head == GrowingPlan.ExtendHead(old(head), b)
      ensures head.probes.Keys == old(head.probes.Keys)
    {
      if b.track !in head.firstPts || head.firstPts[b.track] < 0 {
        head := head.(firstPts := head.firstPts[b.track := b.pts], need := head.need - 1);
      }
      if b.track in head.probes && !head.probes[b.track].haveSecond {
        var pr := head.probes[b.track];
        if !pr.haveFirst {
          pr := pr.(firstTC := b.ms, frames := 1, haveFirst := true);
        } else if b.ms == pr.firstTC {
          pr := pr.(frames := pr.frames + 1);
        } else {
          pr := pr.(secondTC := b.ms, haveSecond := true);
          head := head.(needGrid := head.needGrid - 1);
        }
        head := head.(probes := head.probes[b.track := pr]);
      }
    }

    /** Every pending probe yields its stride; a track left without one takes its declared grid. */
    method ResolveHead()
      requires Valid() && !head.done
      modifies `head
      ensures Valid() && head == GrowingPlan.ResolveHead(c, old(head))
    {
      var laced := LacedGrids(c, head.probes);
      var grids := DeclaredGrids(c, head, laced);
      head := head.(gridTS := grids, done := true);
    }

    method RecordKeyframe(ms: int, clusterOffset: nat)
      modifies `cuts
      ensures cuts == GrowingPlan.RecordKeyframe(c, old(cuts), ms, clusterOffset)
    {
      if !cuts.haveFirstKF {
        cuts := cuts.(bounds := [0], offsets := [clusterOffset], haveFirstKF := true, kfLast := 0);
      }
      if ms >= cuts.kfLast + c.segMs {
        cuts := cuts.(bounds := cuts.bounds + [ms], offsets := cuts.offsets + [clusterOffset], kfLast := ms);
      }
    }

    method MeetAudio(t: Track, times: seq<int>)
      modifies `grid
      ensures grid == GrowingPlan.MeetAudio(old(grid), t, times)
    {
      grid := grid.(pts := grid.pts[t := (if t in grid.pts then grid.pts[t] else []) + times]);
      grid := grid.(met := grid.met[t := Get(grid.met, t) + times]);
    }

    /** Folds one confirmed-whole cluster in, block by block. */
    method ScanClusterLocked(blocks: seq<Block>, clusterStart: nat)
      requires Valid()
      modifies this
      ensures Valid() && Now() == GrowingPlan.ScanClusterLocked(c, old(Now()), blocks, clusterStart)
    {
      for i := 0 to |blocks|
        invariant Valid() && Now() == ScanBlocks(c, old(Now()), blocks[..i], clusterStart)
      {
        ScanOneBlock(blocks[i], clusterStart);
        assert blocks[..i+1][..i] == blocks[..i];
      }
      assert blocks[..|blocks|] == blocks;
      if !head.done && head.need == 0 && head.needGrid == 0 {
        ResolveHead();
      }
      UpdateSegCount();
    }

    method ScanOneBlock(b: Block, clusterStart: nat)
      requires Valid()
      modifies this
      ensures Valid() && Now() == ScanBlock(c, old(Now()), b, clusterStart)
    {
      if b.track != c.video && b.track !in c.audio {
        return;
      }
      if !head.done {
        ExtendHead(b);
      }
      if b.track in c.audio {
        MeetAudio(b.track, [b.ms]);
      } else {
        ExtendLead(b);
        if b.key {
          RecordKeyframe(b.ms, clusterStart);
        }
      }
    }

    /** Folds one whole cluster in: under the lock until head and lead have resolved, then its keyframes and its audio
        collected first and published together. */
    method ScanCluster(blocks: seq<Block>, clusterStart: nat)
      requires Valid()
      modifies this
      ensures Valid() && Now() == GrowingPlan.ScanCluster(c, old(Now()), blocks, clusterStart)
    {
      if !head.done || !lead.done {
        ScanClusterLocked(blocks, clusterStart);
        return;
      }
      var keys, audio := Collect(c, blocks);
      RecordAll(keys, clusterStart);
      MeetAllAudio(audio);
      UpdateSegCount();
    }

    method RecordAll(keys: seq<int>, clusterStart: nat)
      modifies `cuts
      ensures cuts == RecordKeys(c, old(cuts), keys, clusterStart)
    {
      for i := 0 to |keys|
        invariant cuts == RecordKeys(c, old(cuts), keys[..i], clusterStart)
      {
        RecordKeyframe(keys[i], clusterStart);
        assert keys[..i+1][..i] == keys[..i];
      }
      assert keys[..|keys|] == keys;
    }

    method MeetAllAudio(audio: map<Track, seq<int>>)
      modifies `grid
      ensures grid == MeetAll(old(grid), audio)
    {
      var rest := audio.Keys;
      ghost var g := grid;
      MergeUpToEnds(g.pts, audio);
      MergeUpToEnds(g.met, audio);
      while rest != {}
        invariant rest <= audio.Keys
        invariant grid == g.(pts := MergeUpTo(g.pts, audio, rest), met := MergeUpTo(g.met, audio, rest))
        decreases |rest|
      {
        var t :| t in rest;
        MergeUpToStep(g.pts, audio, rest, t);
        MergeUpToStep(g.met, audio, rest, t);
        MeetAudio(t, audio[t]);
        rest := rest - {t};
      }
    }

    /** The index past window m's frames in pts, its first frame at i. */
    method GridWindowEnd(pts: seq<int>, i: nat, m: nat) returns (to: nat)
      requires i <= |pts| && m + 1 < |cuts.bounds|
      ensures to == i + Under(pts[i..], cuts.bounds[m+1]) <= |pts|
    {
      to := EndOfWindow(pts, i, cuts.bounds[m+1]);
    }

    method TrackSettledAt(pts: seq<int>, m: nat, slot: int -> int) returns (settled: bool)
      requires m + 1 < |cuts.bounds|
      ensures settled == TrackSettled(pts, cuts.bounds, m, slot)
    {
      var to := GridWindowEnd(pts, 0, m);
      assert pts[0..] == pts;
      if to == |pts| {
        return m + 2 < |cuts.bounds|;
      }
      if to == 0 {
        return true;
      }
      var end := GridColdEnd(pts[..to], slot);
      if end <= slot(pts[to]) {
        return true;
      }
      if m + 2 >= |cuts.bounds| {
        return false;
      }
      var next := GridWindowEnd(pts, to, m + 1);
      return !(next == |pts| && m + 3 >= |cuts.bounds|);
    }

    /** Whether window m is timed for good on every grid-timed audio track. */
    method GridSettled(m: nat) returns (settled: bool)
      requires m + 1 < |cuts.bounds|
      ensures settled == Settled(c, head, cuts.bounds, grid.pts, m)
    {
      var rest := grid.pts.Keys;
      while rest != {}
        invariant rest <= grid.pts.Keys
        invariant forall t :: t in grid.pts && t !in rest ==>
          GridOf(head, t) <= 0 || TrackSettled(grid.pts[t], cuts.bounds, m, SlotOf(c, head, t))
        decreases |rest|
      {
        var t :| t in rest;
        if GridOf(head, t) > 0 {
          var ok := TrackSettledAt(grid.pts[t], m, SlotOf(c, head, t));
          if !ok {
            return false;
          }
        }
        rest := rest - {t};
      }
      return true;
    }

    /** Publishes window grid.win: its frames are no longer needed. */
    method DropGridWindow()
      requires grid.win + 1 < |cuts.bounds|
      modifies `grid
      ensures grid == DropWindow(c, head, cuts.bounds, old(grid))
    {
      var kept := DropFrames(grid.pts, cuts.bounds[grid.win + 1]);
      grid := Grid(kept, grid.win + 1, grid.met, grid.behind + LeftBehind(c, head, cuts.bounds, grid));
    }

    /** The single place segCount and published are derived. */
    method UpdateSegCount()
      requires Valid()
      modifies `segCount, `published, `grid
      ensures Valid() && Now() == GrowingPlan.UpdateSegCount(c, old(Now()))
    {
      if !head.done {
        segCount, published := 0, 0;
        return;
      }
      segCount := |cuts.bounds|;
      if done {
        published := |cuts.bounds|;
        return;
      }
      PublishWindows();
      published := grid.win;
    }

    method PublishWindows()
      modifies `grid
      ensures grid == PublishSettled(c, head, cuts.bounds, old(grid))
    {
      var n := |cuts.bounds| - 1;
      if n < 0 {
        n := 0;
      }
      while true
        invariant PublishSettled(c, head, cuts.bounds, grid) == PublishSettled(c, head, cuts.bounds, old(grid))
        decreases |cuts.bounds| - grid.win
      {
        if grid.win >= n {
          break;
        }
        var settled := GridSettled(grid.win);
        if !settled {
          break;
        }
        DropGridWindow();
      }
    }

    /** Closes the plan. */
    method Finalize()
      requires Valid()
      modifies this
      ensures Valid() && Now() == GrowingPlan.Finalize(c, old(Now()))
    {
      if done {
        return;
      }
      SettleLead();
      done := true;
      UpdateSegCount();
    }

    /** Where the first cluster starts, skipping the elements before it. */
    method FirstClusterOffset(size: nat) returns (found: Found)
      requires Valid()
      ensures found == FirstCluster(f, f.segStart, size)
    {
      var pos := f.segStart;
      while true
        invariant FirstCluster(f, pos, size) == FirstCluster(f, f.segStart, size)
        decreases if size >= pos then size - pos else 0
      {
        if !Readable(f, pos, size) {
          return NotYet;
        }
        match f.elements[pos]
        case Cluster(_, _, _) => return At(pos);
        case Other(hdr, body) =>
          if body < 0 {
            return Unsupported;
          }
          pos := pos + hdr + body;
      }
    }

    /** Resumes the cluster walk over a file of `size` bytes and publishes what its whole clusters settle; ok is false
        when an element of unknown size stops it. */
    method Scan(size: nat) returns (ok: bool)
      requires Valid()
      modifies this
      ensures Valid() && Scanned(Now(), ok) == GrowingPlan.Scan(c, f, old(Now()), size)
    {
      if done {
        return true;
      }
      if !started {
        var found := FirstClusterOffset(size);
        match found
        case NotYet => return true;
        case Unsupported => return false;
        case At(off) =>
          cursor := off;
          started := true;
      }
      ok := WalkClusters(size);
      if ok && !done && f.declaredEnd >= 0 && size >= f.declaredEnd && cursor >= f.declaredEnd {
        Finalize();
      }
    }

    method WalkClusters(size: nat) returns (ok: bool)
      requires Valid()
      modifies this
      ensures Valid() && Scanned(Now(), ok) == ScanClusters(c, f, old(Now()), size)
    {
      while !done
        invariant Valid()
        invariant ScanClusters(c, f, Now(), size) == ScanClusters(c, f, old(Now()), size)
        decreases if done then 0 else 1, if size >= cursor then size - cursor else 0
      {
        if !Readable(f, cursor, size) {
          break;
        }
        match f.elements[cursor]
        case Other(_, _) =>
          Finalize();
        case Cluster(hdr, body, blocks) =>
          if body < 0 {
            return false;
          }
          var bodyEnd := cursor + hdr + body;
          if bodyEnd > size {
            break;
          }
          ScanClusterKeepsPlace(c, Now(), blocks, cursor);
          ScanCluster(blocks, cursor);
          cursor := bodyEnd;
      }
      ok := true;
    }

    /** The walk, stopped by a failed read or a cancelled context: after so many whole clusters and so many blocks of the
        next. What it read of that one stays, before head and lead are resolved; the cursor stays in front of it. */
    method ScanStopped(size: nat, clusters: nat, blocks: nat)
      requires Valid()
      modifies this
      ensures Valid() && Now() == Stops.After(c, f, old(Now()), Stops.Stopped(size, clusters, blocks))
      ensures TimesInRange(f) && old(Safety.StateOk(c, Now())) ==>
        Safety.StateOk(c, Now()) && Safety.Extends(old(Now()), Now())
    {
      if TimesInRange(f) && Safety.StateOk(c, Now()) {
        Stops.AfterOk(c, f, Now(), Stops.Stopped(size, clusters, blocks));
      }
      if done {
        return;
      }
      if !started {
        var found := FirstClusterOffset(size);
        if !found.At? {
          return;
        }
        cursor := found.off;
        started := true;
      }
      WalkUpTo(size, clusters);
      if ClusterWhole(size) {
        HalfCluster(f.elements[cursor].blocks, blocks);
      }
    }

    predicate ClusterWhole(size: nat)
      reads this
      ensures ClusterWhole(size) == WholeNext(f, Now(), size)
    {
      !done && Readable(f, cursor, size) &&
      var e := f.elements[cursor];
      e.Cluster? && e.size >= 0 && cursor + e.hdr + e.size <= size
    }

    method WalkUpTo(size: nat, clusters: nat)
      requires Valid()
      modifies this
      ensures Valid() && Now() == Stops.Reached(c, f, old(Now()), size, clusters)
    {
      var k := clusters;
      while k > 0 && ClusterWhole(size)
        invariant Valid() && Stops.Reached(c, f, Now(), size, k) == Stops.Reached(c, f, old(Now()), size, clusters)
      {
        var e := f.elements[cursor];
        ScanClusterKeepsPlace(c, Now(), e.blocks, cursor);
        ScanCluster(e.blocks, cursor);
        cursor := cursor + e.hdr + e.size;
        k := k - 1;
      }
    }

    /** A cluster read as far as n blocks; the batched path drops what it had collected. */
    method HalfCluster(blocks: seq<Block>, n: nat)
      requires Valid()
      modifies this
      ensures Valid() && Now() == Stops.HalfFolded(c, old(Now()), blocks, Min(n, |blocks|))
    {
      if head.done && lead.done {
        return;
      }
      var upTo := Min(n, |blocks|);
      for i := 0 to upTo
        invariant Valid() && Now() == ScanBlocks(c, old(Now()), blocks[..i], old(cursor)) && cursor == old(cursor)
      {
        ScanBlocksKeepPlace(c, old(Now()), blocks[..i], cursor);
        ScanOneBlock(blocks[i], cursor);
        assert blocks[..i+1][..i] == blocks[..i];
        ScanBlocksKeepPlace(c, old(Now()), blocks[..i+1], old(cursor));
      }
    }

    /** Looks at the file again; returns how many segments the look published. */
    method Refresh(size: nat) returns (newly: int, ok: bool)
      requires Valid()
      modifies this
      ensures Valid() && Scanned(Now(), ok) == GrowingPlan.Scan(c, f, old(Now()), size)
      ensures newly == published - old(published)
      ensures TimesInRange(f) && old(Safety.StateOk(c, Now())) ==>
        Safety.StateOk(c, Now()) && Safety.Extends(old(Now()), Now()) && newly >= 0
    {
      if TimesInRange(f) && Safety.StateOk(c, Now()) {
        Safety.ScanOk(c, f, Now(), size);
      }
      var before := published;
      ok := Scan(size);
      newly := published - before;
    }

    /** Marks the source finished: one last look, then the plan is closed whatever the look met. */
    method Complete(size: nat) returns (ok: bool)
      requires Valid()
      modifies this
      ensures Valid() && done && Now() == GrowingPlan.Complete(c, f, old(Now()), size)
    {
      ok := Scan(size);
      if !done {
        Finalize();
      }
    }
  }
}
