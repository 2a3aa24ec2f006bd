/** The composition shift of a growing plan (mp4/growinghls.go, extendLeadLocked and settleLeadLocked): what the opening
    frames alone give is what the full pass measures over all of them. */
module GrowingLead {
  import opened GrowingPlan
  import FragTiming

  /** A lead extended by more of the video's frames. */
  function LeadFrom(l: Lead, video: seq<Block>): Lead {
    if video == [] then l else ExtendLead(LeadFrom(l, video[..|video|-1]), video[|video|-1])
  }

  /** The lead after the video's frames so far. */
  function LeadOf(video: seq<Block>): Lead { LeadFrom(Lead(false, [], []), video) }

  function Times(video: seq<Block>): seq<int> { seq(|video|, i requires 0 <= i < |video| => video[i].pts) }

  function Syncs(video: seq<Block>): seq<bool> { seq(|video|, i requires 0 <= i < |video| => video[i].key) }

  /** Times in the media timescale. */
  function Scaled(pts: seq<int>, mts: nat): (s: seq<int>)
    ensures |s| == |pts|
  {
    seq(|pts|, i requires 0 <= i < |pts| => FragTiming.Scale(pts[i], mts))
  }

  lemma PrefixLenIs(sync: seq<bool>, n: nat)
    requires FragTiming.IsPrefixLen(sync, n)
    ensures FragTiming.PrefixLen(sync) == n
  {
    assert FragTiming.IsPrefixLen(sync, FragTiming.PrefixLen(sync));
  }

  /** The lead collects just the first group of pictures, and is settled by the first frame past it. */
  lemma {:induction false} LeadCollects(video: seq<Block>)
    ensures var l, m := LeadOf(video), FragTiming.PrefixLen(Syncs(video));
      l.pts == Times(video)[..m] && l.sync == Syncs(video)[..m] && (l.done <==> m < |video|)
  {
    hide FragTiming.PrefixLen;
    if video == [] {
      PrefixLenIs(Syncs(video), 0);
    } else {
      var n := |video| - 1;
      var init, b := video[..n], video[n];
      LeadCollects(init);
      var m := FragTiming.PrefixLen(Syncs(init));
      assert FragTiming.IsPrefixLen(Syncs(init), m) by { assert FragTiming.IsPrefixLen(Syncs(init), FragTiming.PrefixLen(Syncs(init))); }
      assert Syncs(video) == Syncs(init) + [b.key] && Times(video) == Times(init) + [b.pts];
      if m < n || (n > 0 && b.key) || n >= FragTiming.COMPOSITION_PREFIX {
        assert forall i :: 0 < i < m ==> Syncs(video)[i] == Syncs(init)[i];
        PrefixLenIs(Syncs(video), m);
      } else {
        PrefixLenIs(Syncs(video), n + 1);
      }
    }
  }

  /** So the shift it is settled on is the one the full pass measures over every frame. */
  lemma LeadIsShift(video: seq<Block>, mts: nat)
    ensures var l := LeadOf(video);
      && |l.pts| == |l.sync|
      && FragTiming.Shift(Scaled(l.pts, mts), l.sync) == FragTiming.Shift(Scaled(Times(video), mts), Syncs(video))
  {
    hide FragTiming.PrefixLen, FragTiming.Lead, FragTiming.Sort, FragTiming.Scale;
    LeadCollects(video);
    var sync := Syncs(video);
    var m := FragTiming.PrefixLen(sync);
    assert FragTiming.IsPrefixLen(sync, m);
    PrefixLenIs(sync[..m], m);
    assert Scaled(Times(video)[..m], mts)[..m] == Scaled(Times(video), mts)[..m];
  }

  // ---- in the plan ----

  /** The video's frames among blocks. */
  function Videos(c: Config, blocks: seq<Block>): seq<Block> {
    if blocks == [] then []
    else
      var n := |blocks| - 1;
      Videos(c, blocks[..n]) + if blocks[n].track == c.video then [blocks[n]] else []
  }

  /** The video's frames in the clusters a scan folds in. */
  function Folded(c: Config, f: Source, s: State, size: nat): seq<Block>
    requires ValidSource(f)
    decreases if size >= s.cursor then size - s.cursor else 0
  {
    if !WholeNext(f, s, size) then []
    else
      ScanClusterKeepsPlace(c, s, f.elements[s.cursor].blocks, s.cursor);
      Videos(c, f.elements[s.cursor].blocks) + Folded(c, f, FoldNext(c, f, s), size)
  }

  lemma {:induction false} LeadAppend(l: Lead, v: seq<Block>, w: seq<Block>)
    ensures LeadFrom(l, v + w) == LeadFrom(LeadFrom(l, v), w)
  {
    if w == [] {
      assert v + w == v;
    } else {
      LeadAppend(l, v, w[..|w|-1]);
      assert (v + w)[..|v + w| - 1] == v + w[..|w|-1];
    }
  }

  lemma {:induction false} DoneStays(l: Lead, w: seq<Block>)
    requires l.done
    ensures LeadFrom(l, w) == l
  {
    if w != [] { DoneStays(l, w[..|w|-1]); }
  }

  lemma {:induction false} BlocksLead(c: Config, s: State, blocks: seq<Block>, start: nat)
    ensures ScanBlocks(c, s, blocks, start).lead == LeadFrom(s.lead, Videos(c, blocks))
  {
    if blocks != [] {
      var n := |blocks| - 1;
      BlocksLead(c, s, blocks[..n], start);
      var w := Videos(c, blocks[..n]);
      if blocks[n].track == c.video {
        LeadAppend(s.lead, w, [blocks[n]]);
        assert [blocks[n]][..0] == [];
      } else {
        assert w + [] == w;
      }
    }
  }

  lemma ClusterLead(c: Config, s: State, blocks: seq<Block>, start: nat)
    ensures ScanCluster(c, s, blocks, start).lead == LeadFrom(s.lead, Videos(c, blocks))
  {
    BlocksLead(c, s, blocks, start);
    if s.lead.done { DoneStays(s.lead, Videos(c, blocks)); }
  }

  lemma {:induction false} ClustersLead(c: Config, f: Source, s: State, size: nat, v: seq<Block>)
    requires ValidSource(f) && s.lead == LeadOf(v)
    ensures var l, all := ScanClusters(c, f, s, size).s.lead, LeadOf(v + Folded(c, f, s, size)); l.pts == all.pts && l.sync == all.sync
    decreases if size >= s.cursor then size - s.cursor else 0
  {
    hide LeadFrom, ScanCluster;
    ScanClustersStep(c, f, s, size);
    if WholeNext(f, s, size) {
      var blocks := f.elements[s.cursor].blocks;
      ScanClusterKeepsPlace(c, s, blocks, s.cursor);
      ClusterLead(c, s, blocks, s.cursor);
      LeadAppend(Lead(false, [], []), v, Videos(c, blocks));
      ClustersLead(c, f, FoldNext(c, f, s), size, v + Videos(c, blocks));
      assert v + Videos(c, blocks) + Folded(c, f, FoldNext(c, f, s), size) == v + (Videos(c, blocks) + Folded(c, f, FoldNext(c, f, s), size));
    } else {
      assert v + [] == v;
    }
  }

  /** Where the first look at a file starts: its first cluster, once there is one. */
  function Opened(c: Config, f: Source, size: nat): State
    requires ValidSource(f)
  {
    match FirstCluster(f, f.segStart, size)
    case At(off) => Init(c).(started := true, cursor := off)
    case _ => Init(c)
  }

  /** Whatever sizes the file was looked at, the shift the plan's lead holds is the one FragTiming measures over all the
      video's frames in the clusters read. */
  lemma PlanShift(c: Config, f: Source, sizes: seq<nat>, mts: nat)
    requires ValidSource(f) && ClustersInside(f) && sizes != []
    requires forall i, j :: 0 <= i <= j < |sizes| ==> sizes[i] <= sizes[j]
    ensures var size := sizes[|sizes|-1]; var l := ScanAll(c, f, Init(c), sizes).lead;
      var all := if FirstCluster(f, f.segStart, size).At? then Folded(c, f, Opened(c, f, size), size) else [];
      && |l.pts| == |l.sync|
      && FragTiming.Shift(Scaled(l.pts, mts), l.sync) == FragTiming.Shift(Scaled(Times(all), mts), Syncs(all))
  {
    hide ScanClusters, Folded, Scaled, Times, Syncs, FragTiming.Shift;
    var size := sizes[|sizes|-1];
    SchedulesConfluent(c, f, Init(c), sizes);
    if FirstCluster(f, f.segStart, size).At? {
      var s := Opened(c, f, size);
      ClustersLead(c, f, s, size, []);
      var all := Folded(c, f, s, size);
      assert [] + all == all;
      LeadIsShift(all, mts);
    } else {
      LeadIsShift([], mts);
    }
  }
}
