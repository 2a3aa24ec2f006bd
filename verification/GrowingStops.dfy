/** Refreshes that fail or are cancelled before they end (mp4/growinghls.go, scanLocked and walkCluster): what a half-read
    cluster leaves, and when the next refresh, which folds it in again, comes to the same plan. */
module GrowingStops {
  import opened Arith
  import opened GrowingPlan
  import opened GrowingLead
  import opened GrowingSafety
  import FragTiming

  /** A look at a file of `size` bytes: to its end, or stopped after so many whole clusters and so many blocks of the next. */
  datatype Look = Whole(size: nat) | Stopped(size: nat, clusters: nat, blocks: nat)

  /** A cluster read only so far: before head and lead are resolved its blocks are folded in as they are read. */
  function HalfFolded(c: Config, s: State, blocks: seq<Block>, n: nat): State
    requires n <= |blocks|
  {
    if s.head.done && s.lead.done then s else ScanBlocks(c, s, blocks[..n], s.cursor)
  }

  function Reached(c: Config, f: Source, s: State, size: nat, k: nat): State
    decreases k
  {
    if k == 0 || !WholeNext(f, s, size) then s else Reached(c, f, FoldNext(c, f, s), size, k - 1)
  }

  /** Where a stopped look leaves off: the state it last had whole, and how many blocks of the next cluster it read. */
  function Last(c: Config, f: Source, s: State, look: Look): (State, nat)
    requires ValidSource(f) && look.Stopped?
  {
    var found := if s.done then NotYet else if s.started then At(s.cursor) else FirstCluster(f, f.segStart, look.size);
    if !found.At? then (s, 0)
    else
      var r := Reached(c, f, s.(started := true, cursor := found.off), look.size, look.clusters);
      (r, if WholeNext(f, r, look.size) then Min(look.blocks, |f.elements[r.cursor].blocks|) else 0)
  }

  function After(c: Config, f: Source, s: State, look: Look): State
    requires ValidSource(f)
  {
    match look
    case Whole(size) => Scan(c, f, s, size).s
    case Stopped(size, _, _) =>
      var (r, n) := Last(c, f, s, look);
      if n == 0 then r else HalfFolded(c, r, f.elements[r.cursor].blocks, n)
  }

  function AfterAll(c: Config, f: Source, s: State, looks: seq<Look>): State
    requires ValidSource(f)
  {
    if looks == [] then s else After(c, f, AfterAll(c, f, s, looks[..|looks|-1]), looks[|looks|-1])
  }

  // ---- when a half-read cluster leaves no trace ----

  predicate NoAudio(c: Config, blocks: seq<Block>) { forall i :: 0 <= i < |blocks| ==> blocks[i].track !in c.audio }

  /** The first n blocks can be folded in twice: none is audio; and of the video's, none, or frames that leave a first time
      and a lead which come to the same twice. */
  predicate Refolds(c: Config, s: State, blocks: seq<Block>, n: nat)
    requires n <= |blocks|
  {
    var pre, post := Videos(c, blocks[..n]), Videos(c, blocks[n..]);
    && NoAudio(c, blocks[..n])
    && (pre == [] || LeadFrom(LeadFrom(s.lead, pre), pre + post) == LeadFrom(LeadFrom(s.lead, pre), post))
    && (pre == [] || s.head.done || First(ScanBlocks(c, s, blocks[..n], s.cursor).head, c.video) >= 0)
  }

  /** A stopped look leaves no trace: it folded nothing in by halves, or blocks that can be folded in twice. */
  predicate Harmless(c: Config, f: Source, s: State, look: Look)
    requires ValidSource(f)
  {
    look.Stopped? ==>
      var (r, n) := Last(c, f, s, look);
      n == 0 || (r.head.done && r.lead.done) || Refolds(c, r, f.elements[r.cursor].blocks, n)
  }

  predicate AllHarmless(c: Config, f: Source, s: State, looks: seq<Look>)
    requires ValidSource(f)
  {
    looks == [] || (
      var init := looks[..|looks|-1];
      AllHarmless(c, f, s, init) && Harmless(c, f, AfterAll(c, f, s, init), looks[|looks|-1]))
  }

  // ---- a cluster folded in after half of it ----

  lemma {:induction false} BlocksAppend(c: Config, s: State, a: seq<Block>, b: seq<Block>, start: nat)
    ensures ScanBlocks(c, s, a + b, start) == ScanBlocks(c, ScanBlocks(c, s, a, start), b, start)
  {
    if b == [] {
      assert a + b == a;
    } else {
      BlocksAppend(c, s, a, b[..|b|-1], start);
      assert (a + b)[..|a + b| - 1] == a + b[..|b|-1];
    }
  }

  lemma {:induction false} VideosAppend(c: Config, a: seq<Block>, b: seq<Block>)
    ensures Videos(c, a + b) == Videos(c, a) + Videos(c, b)
  {
    if b == [] {
      assert a + b == a;
    } else {
      VideosAppend(c, a, b[..|b|-1]);
      assert (a + b)[..|a + b| - 1] == a + b[..|b|-1];
    }
  }

  lemma {:induction false} KeysAppend(c: Config, a: seq<Block>, b: seq<Block>)
    ensures Keys(c, a + b) == Keys(c, a) + Keys(c, b)
  {
    if b == [] {
      assert a + b == a;
    } else {
      KeysAppend(c, a, b[..|b|-1]);
      assert (a + b)[..|a + b| - 1] == a + b[..|b|-1];
    }
  }

  lemma {:induction false} RecordAppend(c: Config, k: Cuts, a: seq<int>, b: seq<int>, start: nat)
    ensures RecordKeys(c, k, a + b, start) == RecordKeys(c, RecordKeys(c, k, a, start), b, start)
  {
    if b == [] {
      assert a + b == a;
    } else {
      RecordAppend(c, k, a, b[..|b|-1], start);
      assert (a + b)[..|a + b| - 1] == a + b[..|b|-1];
    }
  }

  /** No keyframe recorded cuts again. */
  predicate Spent(c: Config, k: Cuts, keys: seq<int>) {
    keys != [] ==> k.haveFirstKF && forall i :: 0 <= i < |keys| ==> keys[i] < k.kfLast + c.segMs
  }

  lemma {:induction false} RecordedAreSpent(c: Config, k: Cuts, keys: seq<int>, start: nat)
    requires c.segMs >= 1
    ensures Spent(c, RecordKeys(c, k, keys, start), keys)
  {
    if keys != [] {
      var init := keys[..|keys|-1];
      RecordedAreSpent(c, k, init, start);
      assert forall i :: 0 <= i < |init| ==> keys[i] == init[i];
    }
  }

  lemma {:induction false} SpentRecordsNothing(c: Config, k: Cuts, keys: seq<int>, start: nat)
    requires Spent(c, k, keys)
    ensures RecordKeys(c, k, keys, start) == k
  {
    if keys != [] { SpentRecordsNothing(c, k, keys[..|keys|-1], start); }
  }

  lemma CutsTwice(c: Config, s: State, blocks: seq<Block>, n: nat, start: nat)
    requires c.segMs >= 1 && n <= |blocks|
    ensures ScanBlocks(c, ScanBlocks(c, s, blocks[..n], start), blocks, start).cuts == ScanBlocks(c, s, blocks, start).cuts
  {
    var pre, post := blocks[..n], blocks[n..];
    assert blocks == pre + post;
    CutsByKeys(c, s, blocks, start);
    CutsByKeys(c, s, pre, start);
    CutsByKeys(c, ScanBlocks(c, s, pre, start), blocks, start);
    KeysAppend(c, pre, post);
    var k := RecordKeys(c, s.cuts, Keys(c, pre), start);
    RecordAppend(c, s.cuts, Keys(c, pre), Keys(c, post), start);
    RecordAppend(c, k, Keys(c, pre), Keys(c, post), start);
    RecordedAreSpent(c, s.cuts, Keys(c, pre), start);
    SpentRecordsNothing(c, k, Keys(c, pre), start);
  }

  lemma LeadTwice(c: Config, s: State, blocks: seq<Block>, n: nat, start: nat)
    requires n <= |blocks|
    ensures var pre, post := Videos(c, blocks[..n]), Videos(c, blocks[n..]);
      && ScanBlocks(c, ScanBlocks(c, s, blocks[..n], start), blocks, start).lead == LeadFrom(LeadFrom(s.lead, pre), pre + post)
      && ScanBlocks(c, s, blocks, start).lead == LeadFrom(LeadFrom(s.lead, pre), post)
  {
    hide LeadFrom;
    assert blocks == blocks[..n] + blocks[n..];
    VideosAppend(c, blocks[..n], blocks[n..]);
    BlocksLead(c, s, blocks[..n], start);
    BlocksLead(c, ScanBlocks(c, s, blocks[..n], start), blocks, start);
    BlocksLead(c, s, blocks, start);
    LeadAppend(s.lead, Videos(c, blocks[..n]), Videos(c, blocks[n..]));
  }

  function Count(blocks: seq<Block>, t: Track): nat {
    if blocks == [] then 0 else Count(blocks[..|blocks|-1], t) + if blocks[|blocks|-1].track == t then 1 else 0
  }

  lemma {:induction false} MetCounts(c: Config, s: State, blocks: seq<Block>, start: nat, t: Track)
    requires t in c.audio
    ensures |Get(ScanBlocks(c, s, blocks, start).grid.met, t)| == |Get(s.grid.met, t)| + Count(blocks, t)
  {
    if blocks != [] { MetCounts(c, s, blocks[..|blocks|-1], start, t); }
  }

  lemma {:induction false} CountPositive(blocks: seq<Block>, i: nat)
    requires i < |blocks|
    ensures Count(blocks, blocks[i].track) > 0
  {
    if i < |blocks| - 1 { CountPositive(blocks[..|blocks|-1], i); }
  }

  lemma {:induction false} NoAudioNoGrid(c: Config, s: State, blocks: seq<Block>, start: nat)
    requires NoAudio(c, blocks)
    ensures ScanBlocks(c, s, blocks, start).grid == s.grid
  {
    if blocks != [] { NoAudioNoGrid(c, s, blocks[..|blocks|-1], start); }
  }

  lemma GridOfBlocks(c: Config, s: State, s': State, blocks: seq<Block>, start: nat)
    requires s.grid == s'.grid
    ensures ScanBlocks(c, s, blocks, start).grid == ScanBlocks(c, s', blocks, start).grid
  {
    GridByAudio(c, s, blocks, start);
    GridByAudio(c, s', blocks, start);
  }

  // ---- the head ----

  ghost predicate SameHead(s: State, s': State, less: int) { s'.head == s.head.(need := s.head.need - less) }

  lemma NeedStep(c: Config, s: State, s': State, less: int, b: Block, start: nat)
    requires SameHead(s, s', less)
    ensures SameHead(ScanBlock(c, s, b, start), ScanBlock(c, s', b, start), less)
  {
  }

  /** The need a head starts with shows in nothing but the need it ends with. */
  lemma {:induction false} NeedShifts(c: Config, s: State, s': State, less: int, blocks: seq<Block>, start: nat)
    requires SameHead(s, s', less)
    ensures SameHead(ScanBlocks(c, s, blocks, start), ScanBlocks(c, s', blocks, start), less)
  {
    hide ScanBlock, SameHead;
    if blocks != [] {
      var init, b := blocks[..|blocks|-1], blocks[|blocks|-1];
      NeedShifts(c, s, s', less, init, start);
      NeedStep(c, ScanBlocks(c, s, init, start), ScanBlocks(c, s', init, start), less, b, start);
    }
  }

  /** Without audio, a head that is resolved or has the video's first time, or meets no video, is left alone. */
  lemma {:induction false} HeadLeft(c: Config, s: State, blocks: seq<Block>, start: nat)
    requires NoAudio(c, blocks) && c.video !in s.head.probes
    requires s.head.done || First(s.head, c.video) >= 0 || Videos(c, blocks) == []
    ensures ScanBlocks(c, s, blocks, start).head == s.head
  {
    if blocks != [] { HeadLeft(c, s, blocks[..|blocks|-1], start); }
  }

  ghost predicate Negative(video: seq<Block>) { forall i :: 0 <= i < |video| ==> video[i].pts < 0 }

  /** A video whose first time is still negative has only met negative ones. */
  lemma {:induction false} StillNegative(c: Config, s: State, blocks: seq<Block>, start: nat)
    requires NoAudio(c, blocks) && c.video !in s.head.probes && !s.head.done
    requires First(ScanBlocks(c, s, blocks, start).head, c.video) < 0
    ensures First(s.head, c.video) < 0 && Negative(Videos(c, blocks))
    ensures !ScanBlocks(c, s, blocks, start).head.done && c.video !in ScanBlocks(c, s, blocks, start).head.probes
  {
    if blocks != [] {
      var init := blocks[..|blocks|-1];
      if First(ScanBlocks(c, s, init, start).head, c.video) < 0 {
        StillNegative(c, s, init, start);
      } else {
        HeadLeftNext(c, s, blocks, start);
      }
    }
  }

  lemma {:induction false} HeadLeftNext(c: Config, s: State, blocks: seq<Block>, start: nat)
    requires NoAudio(c, blocks) && c.video !in s.head.probes && blocks != []
    requires First(ScanBlocks(c, s, blocks[..|blocks|-1], start).head, c.video) >= 0
    ensures First(ScanBlocks(c, s, blocks, start).head, c.video) >= 0
  {
  }

  lemma NegativeStep(c: Config, s: State, b: Block, start: nat)
    requires b.track !in c.audio && c.video !in s.head.probes && !s.head.done
    requires First(s.head, c.video) < 0
    ensures ScanBlock(c, s, b, start).head ==
      if b.track == c.video then s.head.(need := s.head.need - 1, firstPts := s.head.firstPts[c.video := b.pts]) else s.head
  {
  }

  function FirstsAfter(c: Config, firsts: map<Track, int>, blocks: seq<Block>): map<Track, int> {
    if blocks == [] then firsts
    else
      var n := |blocks| - 1;
      var m := FirstsAfter(c, firsts, blocks[..n]);
      if blocks[n].track == c.video then m[c.video := blocks[n].pts] else m
  }

  lemma {:induction false} FirstsOnce(c: Config, m: map<Track, int>, blocks: seq<Block>)
    ensures var v := Videos(c, blocks); FirstsAfter(c, m, blocks) == if v == [] then m else m[c.video := v[|v|-1].pts]
  {
    if blocks != [] { FirstsOnce(c, m, blocks[..|blocks|-1]); }
  }

  /** Each negative time takes one from the need. */
  lemma {:induction false} NegativeNeed(c: Config, s: State, blocks: seq<Block>, start: nat)
    requires NoAudio(c, blocks) && c.video !in s.head.probes && !s.head.done
    requires First(s.head, c.video) < 0 && Negative(Videos(c, blocks))
    ensures var h := ScanBlocks(c, s, blocks, start).head;
      && First(h, c.video) < 0
      && h == s.head.(need := s.head.need - |Videos(c, blocks)|, firstPts := FirstsAfter(c, s.head.firstPts, blocks))
  {
    hide ScanBlock, ExtendHead;
    if blocks != [] {
      var init, b := blocks[..|blocks|-1], blocks[|blocks|-1];
      var v, w := Videos(c, blocks), Videos(c, init);
      assert v == w + if b.track == c.video then [b] else [];
      assert Negative(w) by { assert forall i :: 0 <= i < |w| ==> v[i] == w[i]; }
      assert b.track == c.video ==> v[|w|] == b;
      NegativeNeed(c, s, init, start);
      NegativeStep(c, ScanBlocks(c, s, init, start), b, start);
    }
  }

  /** Folded in again after a half, a head comes to the same exactly when the half had a first time to give the video, or
      none of it. */
  lemma HeadTwice(c: Config, s: State, blocks: seq<Block>, n: nat, start: nat)
    requires n <= |blocks| && NoAudio(c, blocks[..n]) && c.video !in s.head.probes
    ensures var t := ScanBlocks(c, s, blocks[..n], start);
      var a, b := ScanBlocks(c, s, blocks, start).head, ScanBlocks(c, t, blocks, start).head;
      if Videos(c, blocks[..n]) == [] || s.head.done || First(t.head, c.video) >= 0 then b == a else b.need < a.need
  {
    hide ScanBlock, ExtendHead;
    var pre, post := blocks[..n], blocks[n..];
    var t := ScanBlocks(c, s, pre, start);
    var t2 := ScanBlocks(c, t, pre, start);
    assert blocks == pre + post;
    BlocksAppend(c, s, pre, post, start);
    BlocksAppend(c, t, pre, post, start);
    if Videos(c, pre) == [] || s.head.done {
      HeadLeft(c, s, pre, start);
      HeadLeft(c, t, pre, start);
      NeedShifts(c, t, t2, 0, post, start);
    } else if First(t.head, c.video) >= 0 {
      ProbesLeft(c, s, pre, start);
      HeadLeft(c, t, pre, start);
      NeedShifts(c, t, t2, 0, post, start);
    } else {
      StillNegative(c, s, pre, start);
      NegativeNeed(c, s, pre, start);
      NegativeNeed(c, t, pre, start);
      FirstsOnce(c, s.head.firstPts, pre);
      FirstsOnce(c, t.head.firstPts, pre);
      NeedShifts(c, t, t2, |Videos(c, pre)|, post, start);
    }
  }

  lemma {:induction false} ProbesLeft(c: Config, s: State, blocks: seq<Block>, start: nat)
    requires NoAudio(c, blocks) && c.video !in s.head.probes
    ensures ScanBlocks(c, s, blocks, start).head.probes == s.head.probes
  {
    if blocks != [] { ProbesLeft(c, s, blocks[..|blocks|-1], start); }
  }

  // ---- the cluster ----

  lemma PlaceTwice(c: Config, s: State, blocks: seq<Block>, n: nat, start: nat)
    requires n <= |blocks|
    ensures var a, b := ScanBlocks(c, s, blocks, start), ScanBlocks(c, ScanBlocks(c, s, blocks[..n], start), blocks, start);
      SamePlace(a, b) && b.published == a.published && b.segCount == a.segCount
  {
    ScanBlocksKeepPlace(c, s, blocks, start);
    ScanBlocksKeepPlace(c, s, blocks[..n], start);
    ScanBlocksKeepPlace(c, ScanBlocks(c, s, blocks[..n], start), blocks, start);
    CountsLeft(c, s, blocks, start);
    CountsLeft(c, s, blocks[..n], start);
    CountsLeft(c, ScanBlocks(c, s, blocks[..n], start), blocks, start);
  }

  lemma {:induction false} CountsLeft(c: Config, s: State, blocks: seq<Block>, start: nat)
    ensures ScanBlocks(c, s, blocks, start).published == s.published && ScanBlocks(c, s, blocks, start).segCount == s.segCount
  {
    if blocks != [] { CountsLeft(c, s, blocks[..|blocks|-1], start); }
  }

  /** Folding a cluster in after its first n blocks comes to what folding it in once does exactly when these can be folded
      in twice. */
  lemma BlocksTwiceIff(c: Config, s: State, blocks: seq<Block>, n: nat)
    requires ValidConfig(c) && n <= |blocks| && c.video !in s.head.probes
    ensures var t := ScanBlocks(c, s, blocks[..n], s.cursor);
      var a, b := ScanBlocks(c, s, blocks, s.cursor), ScanBlocks(c, t, blocks, s.cursor);
      if Refolds(c, s, blocks, n) then b == a
      else b.lead != a.lead || b.head.need != a.head.need || b.grid.met != a.grid.met
  {
    hide ScanBlocks, LeadFrom, Videos, First;
    var start, pre := s.cursor, blocks[..n];
    var t := ScanBlocks(c, s, pre, start);
    CutsTwice(c, s, blocks, n, start);
    LeadTwice(c, s, blocks, n, start);
    PlaceTwice(c, s, blocks, n, start);
    if NoAudio(c, pre) {
      HeadTwice(c, s, blocks, n, start);
      NoAudioNoGrid(c, s, pre, start);
      GridOfBlocks(c, s, t, blocks, start);
      if Videos(c, pre) == [] { NoVideoSame(c, s.lead, blocks, n); }
    } else {
      var i :| 0 <= i < |pre| && pre[i].track in c.audio;
      CountPositive(pre, i);
      MetCounts(c, s, pre, start, pre[i].track);
      MetCounts(c, s, blocks, start, pre[i].track);
      MetCounts(c, t, blocks, start, pre[i].track);
    }
  }

  lemma NoVideoSame(c: Config, l: Lead, blocks: seq<Block>, n: nat)
    requires n <= |blocks| && Videos(c, blocks[..n]) == []
    ensures var post := Videos(c, blocks[n..]);
      LeadFrom(LeadFrom(l, Videos(c, blocks[..n])), Videos(c, blocks[..n]) + post) == LeadFrom(LeadFrom(l, Videos(c, blocks[..n])), post)
  {
    assert [] + Videos(c, blocks[n..]) == Videos(c, blocks[n..]);
  }

  lemma LockedOrBatch(c: Config, s: State, blocks: seq<Block>, start: nat)
    ensures ScanCluster(c, s, blocks, start) == ScanClusterLocked(c, s, blocks, start)
  {
    if s.head.done && s.lead.done { BatchIsPerBlock(c, s, blocks, start); }
  }

  lemma UpdateKeeps(c: Config, s: State)
    ensures var s' := UpdateSegCount(c, s); s'.lead == s.lead && s'.head == s.head && s'.grid.met == s.grid.met
  {
    PublishKeepsMet(c, s.head, s.cuts.bounds, s.grid);
  }

  lemma {:induction false} PublishKeepsMet(c: Config, h: Head, bounds: seq<int>, g: Grid)
    ensures PublishSettled(c, h, bounds, g).met == g.met
    decreases |bounds| - g.win
  {
    if g.win + 1 < |bounds| && Settled(c, h, bounds, g.pts, g.win) { PublishKeepsMet(c, h, bounds, DropWindow(c, h, bounds, g)); }
  }

  /** A look stopped n blocks into a cluster, before head and lead were resolved: the next one, which folds the whole cluster
      in, comes to what it would have without it if and only if those blocks can be folded in twice. */
  lemma RefoldIff(c: Config, s: State, blocks: seq<Block>, n: nat)
    requires ValidConfig(c) && n <= |blocks| && c.video !in s.head.probes && !(s.head.done && s.lead.done)
    ensures ScanCluster(c, HalfFolded(c, s, blocks, n), blocks, s.cursor) == ScanCluster(c, s, blocks, s.cursor)
      <==> Refolds(c, s, blocks, n)
  {
    hide ScanBlocks, ScanCluster, Refolds, UpdateSegCount;
    var t := HalfFolded(c, s, blocks, n);
    LockedOrBatch(c, s, blocks, s.cursor);
    LockedOrBatch(c, t, blocks, s.cursor);
    BlocksTwiceIff(c, s, blocks, n);
    var a, b := ScanBlocks(c, s, blocks, s.cursor), ScanBlocks(c, t, blocks, s.cursor);
    UpdateKeeps(c, a.(head := ResolveReady(c, a.head)));
    UpdateKeeps(c, b.(head := ResolveReady(c, b.head)));
  }

  /** The lead comes to the same twice, for pictures stored apart that present at different times, exactly when the half
      settled it, or the next picture past the half settles it where the first one folded in again does. */
  lemma LeadRefoldIff(l: Lead, pre: seq<Block>, post: seq<Block>)
    requires pre != [] && (post != [] ==> post[0].pts != pre[0].pts)
    ensures var half := LeadFrom(l, pre);
      LeadFrom(half, pre + post) == LeadFrom(half, post) <==>
        half.done || (post != [] && (|half.pts| >= FragTiming.COMPOSITION_PREFIX || (pre[0].key && post[0].key)))
  {
    hide LeadFrom;
    var half := LeadFrom(l, pre);
    if half.done {
      DoneStays(half, pre + post);
      DoneStays(half, post);
    } else {
      HalfCollects(l, pre);
      var again := pre + post;
      FirstThen(half, again);
      assert again[0] == pre[0];
      if post == [] {
        NoneFolded(half);
      } else {
        FirstThen(half, post);
        var n, a, b := |half.pts|, LeadFrom(half, post), LeadFrom(half, again);
        if half.pts + [post[0].pts] <= a.pts { assert a.pts[n] == (half.pts + [post[0].pts])[n] == post[0].pts; }
        if half.pts + [pre[0].pts] <= b.pts { assert b.pts[n] == (half.pts + [pre[0].pts])[n] == pre[0].pts; }
      }
    }
  }

  lemma NoneFolded(l: Lead)
    ensures LeadFrom(l, []) == l
  {
  }

  lemma {:induction false} HalfCollects(l: Lead, pre: seq<Block>)
    requires pre != [] && !LeadFrom(l, pre).done
    ensures LeadFrom(l, pre).pts != []
  {
  }

  /** A lead not settled, extended: settled at once, or by one frame longer and more. */
  lemma {:induction false} FirstThen(l: Lead, v: seq<Block>)
    requires v != [] && !l.done && l.pts != []
    ensures var r := LeadFrom(l, v);
      if v[0].key || |l.pts| >= FragTiming.COMPOSITION_PREFIX then r == l.(done := true)
      else l.pts + [v[0].pts] <= r.pts
  {
    var one := [v[0]];
    assert v == one + v[1..] && one[..0] == [];
    LeadAppend(l, one, v[1..]);
    var l1 := LeadFrom(l, one);
    assert l1 == ExtendLead(l, v[0]);
    if l1.done { DoneStays(l1, v[1..]); } else { LeadGrows(l1, v[1..]); }
  }

  lemma {:induction false} LeadGrows(l: Lead, v: seq<Block>)
    ensures l.pts <= LeadFrom(l, v).pts
  {
    if v != [] { LeadGrows(l, v[..|v|-1]); }
  }

  // ---- schedules with stops ----

  /** Only audio tracks are probed. */
  predicate ProbesAudio(c: Config, s: State) { c.video !in s.head.probes }

  lemma {:induction false} BlocksProbe(c: Config, s: State, blocks: seq<Block>, start: nat)
    requires ProbesAudio(c, s)
    ensures ProbesAudio(c, ScanBlocks(c, s, blocks, start))
  {
    if blocks != [] { BlocksProbe(c, s, blocks[..|blocks|-1], start); }
  }

  lemma ClusterProbes(c: Config, s: State, blocks: seq<Block>, start: nat)
    requires ProbesAudio(c, s)
    ensures ProbesAudio(c, ScanCluster(c, s, blocks, start))
  {
    hide ScanBlocks, ScanCluster, UpdateSegCount;
    LockedOrBatch(c, s, blocks, start);
    BlocksProbe(c, s, blocks, start);
    var s1 := ScanBlocks(c, s, blocks, start);
    UpdateKeeps(c, s1.(head := ResolveReady(c, s1.head)));
  }

  lemma {:induction false} ClustersProbe(c: Config, f: Source, s: State, size: nat)
    requires ValidSource(f) && ProbesAudio(c, s)
    ensures ProbesAudio(c, ScanClusters(c, f, s, size).s)
    decreases if size >= s.cursor then size - s.cursor else 0
  {
    hide ScanCluster;
    ScanClustersStep(c, f, s, size);
    if WholeNext(f, s, size) {
      ClusterProbes(c, s, f.elements[s.cursor].blocks, s.cursor);
      ScanClusterKeepsPlace(c, s, f.elements[s.cursor].blocks, s.cursor);
      ClustersProbe(c, f, FoldNext(c, f, s), size);
    }
  }

  lemma {:induction false} ReachedProbes(c: Config, f: Source, s: State, size: nat, k: nat)
    requires ProbesAudio(c, s)
    ensures ProbesAudio(c, Reached(c, f, s, size, k))
    decreases k
  {
    if k > 0 && WholeNext(f, s, size) {
      ClusterProbes(c, s, f.elements[s.cursor].blocks, s.cursor);
      ReachedProbes(c, f, FoldNext(c, f, s), size, k - 1);
    }
  }

  lemma AfterProbes(c: Config, f: Source, s: State, look: Look)
    requires ValidSource(f) && ProbesAudio(c, s)
    ensures ProbesAudio(c, After(c, f, s, look))
  {
    hide ScanClusters, Reached, ScanBlocks;
    match look
    case Whole(size) =>
      var found := if s.started then At(s.cursor) else FirstCluster(f, f.segStart, size);
      if !s.done && found.At? { ClustersProbe(c, f, s.(started := true, cursor := found.off), size); }
    case Stopped(size, k, _) =>
      var found := if s.done then NotYet else if s.started then At(s.cursor) else FirstCluster(f, f.segStart, size);
      if found.At? {
        ReachedProbes(c, f, s.(started := true, cursor := found.off), size, k);
        var (r, n) := Last(c, f, s, look);
        if n > 0 { BlocksProbe(c, r, f.elements[r.cursor].blocks[..n], r.cursor); }
      }
  }

  /** Folding whole clusters ahead of a scan changes nothing. */
  lemma {:induction false} ReachedScan(c: Config, f: Source, s: State, size1: nat, size2: nat, k: nat)
    requires ValidSource(f) && size1 <= size2
    ensures ScanClusters(c, f, Reached(c, f, s, size1, k), size2) == ScanClusters(c, f, s, size2)
    ensures Reached(c, f, s, size1, k).started == s.started && Reached(c, f, s, size1, k).done == s.done
    decreases k
  {
    hide ScanClusters, ScanCluster;
    if k > 0 && WholeNext(f, s, size1) {
      ScanClusterKeepsPlace(c, s, f.elements[s.cursor].blocks, s.cursor);
      ScanClustersStep(c, f, s, size2);
      ReachedScan(c, f, FoldNext(c, f, s), size1, size2, k - 1);
    }
  }

  /** A stopped look that leaves no trace: what comes after it comes to what it would have without it. */
  lemma HarmlessScan(c: Config, f: Source, s: State, look: Look, size: nat)
    requires ValidConfig(c) && ValidSource(f) && ClustersInside(f) && ProbesAudio(c, s)
    requires look.size <= size && Harmless(c, f, s, look)
    ensures Scan(c, f, After(c, f, s, look), size) == Scan(c, f, s, size)
  {
    hide ScanClusters, ScanCluster, Refolds, ScanBlocks, Reached;
    if look.Whole? {
      ScanTwice(c, f, s, look.size, size);
    } else if !s.done {
      if !s.started { FirstClusterStays(f, f.segStart, look.size, size); }
      var found := if s.started then At(s.cursor) else FirstCluster(f, f.segStart, look.size);
      if found.At? {
        var s0 := s.(started := true, cursor := found.off);
        var (r, n) := Last(c, f, s, look);
        ReachedScan(c, f, s0, look.size, size, look.clusters);
        if n > 0 {
          ReachedProbes(c, f, s0, look.size, look.clusters);
          HalfThenScan(c, f, r, n, size);
        } else {
          SameStart(c, f, r, s0, size);
        }
        var t := After(c, f, s, look);
        SameStart(c, f, t, s0, size);
      }
    }
  }

  lemma HalfThenScan(c: Config, f: Source, r: State, n: nat, size: nat)
    requires ValidConfig(c) && ValidSource(f) && ProbesAudio(c, r) && WholeNext(f, r, size) && n <= |f.elements[r.cursor].blocks|
    requires (r.head.done && r.lead.done) || Refolds(c, r, f.elements[r.cursor].blocks, n)
    ensures var t := HalfFolded(c, r, f.elements[r.cursor].blocks, n);
      SamePlace(r, t) && ScanClusters(c, f, t, size) == ScanClusters(c, f, r, size)
  {
    hide ScanClusters, ScanCluster, Refolds, ScanBlocks;
    var blocks := f.elements[r.cursor].blocks;
    if !(r.head.done && r.lead.done) {
      ScanBlocksKeepPlace(c, r, blocks[..n], r.cursor);
      RefoldIff(c, r, blocks, n);
      ScanClustersStep(c, f, r, size);
      ScanClustersStep(c, f, HalfFolded(c, r, blocks, n), size);
    }
  }

  lemma SameStart(c: Config, f: Source, t: State, s0: State, size: nat)
    requires ValidSource(f) && t.started && s0.started && !t.done && !s0.done
    requires ScanClusters(c, f, t, size) == ScanClusters(c, f, s0, size)
    ensures Scan(c, f, t, size) == Scan(c, f, s0, size)
  {
    assert t.(started := true, cursor := t.cursor) == t && s0.(started := true, cursor := s0.cursor) == s0;
  }

  lemma {:induction false} AllProbe(c: Config, f: Source, s: State, looks: seq<Look>)
    requires ValidSource(f) && ProbesAudio(c, s)
    ensures ProbesAudio(c, AfterAll(c, f, s, looks))
  {
    hide After;
    if looks != [] {
      AllProbe(c, f, s, looks[..|looks|-1]);
      AfterProbes(c, f, AfterAll(c, f, s, looks[..|looks|-1]), looks[|looks|-1]);
    }
  }

  /** Schedules stay confluent through looks that fail or are cancelled, as long as each leaves no trace: a scan at the end
      comes to what it alone would have. */
  lemma {:induction false} StopsConfluent(c: Config, f: Source, s: State, looks: seq<Look>, size: nat)
    requires ValidConfig(c) && ValidSource(f) && ClustersInside(f) && ProbesAudio(c, s)
    requires AllHarmless(c, f, s, looks) && forall i :: 0 <= i < |looks| ==> looks[i].size <= size
    ensures Scan(c, f, AfterAll(c, f, s, looks), size) == Scan(c, f, s, size)
  {
    hide After, Harmless, Scan;
    if looks != [] {
      var n := |looks| - 1;
      StopsConfluent(c, f, s, looks[..n], size);
      AllProbe(c, f, s, looks[..n]);
      HarmlessScan(c, f, AfterAll(c, f, s, looks[..n]), looks[n], size);
    }
  }

  /** Once head and lead are resolved, a stop anywhere leaves no trace. */
  lemma ResolvedIsHarmless(c: Config, f: Source, s: State, look: Look)
    requires ValidSource(f) && s.head.done && s.lead.done
    ensures Harmless(c, f, s, look)
  {
    if look.Stopped? {
      var found := if s.done then NotYet else if s.started then At(s.cursor) else FirstCluster(f, f.segStart, look.size);
      if found.At? { StayResolved(c, f, s.(started := true, cursor := found.off), look.size, look.clusters); }
    }
  }

  lemma {:induction false} StayResolved(c: Config, f: Source, s: State, size: nat, k: nat)
    requires s.head.done && s.lead.done
    ensures var r := Reached(c, f, s, size, k); r.head.done && r.lead.done
    decreases k
  {
    if k > 0 && WholeNext(f, s, size) {
      var e := f.elements[s.cursor];
      UpdateKeeps(c, s.(cuts := RecordKeys(c, s.cuts, Keys(c, e.blocks), s.cursor), grid := MeetAll(s.grid, Audio(c, e.blocks))));
      StayResolved(c, f, FoldNext(c, f, s), size, k - 1);
    }
  }

  // ---- what every look keeps, stopped or not ----

  lemma HalfOk(c: Config, s: State, blocks: seq<Block>, n: nat)
    requires StateOk(c, s) && !s.done && n <= |blocks| && forall b :: b in blocks ==> b.ms < MAX_INT64
    ensures StateOk(c, HalfFolded(c, s, blocks, n)) && Extends(s, HalfFolded(c, s, blocks, n))
  {
    hide ScanBlocks, GridOk, CutsOk, RecordKeys, Audio, Keys;
    if !(s.head.done && s.lead.done) {
      var pre, t := blocks[..n], HalfFolded(c, s, blocks, n);
      var audio := Audio(c, pre);
      CutsByKeys(c, s, pre, s.cursor);
      GridByAudio(c, s, pre, s.cursor);
      BlocksExtend(c, s, pre, s.cursor);
      ScanBlocksKeepPlace(c, s, pre, s.cursor);
      AudioOk(c, pre);
      RecordKeysOk(c, s.cuts, Keys(c, pre), s.cursor);
      GridGrows(c, s.head, s.cuts.bounds, t.cuts.bounds, s.grid, audio);
      forall x ensures Get(s.grid.met, x) <= Get(t.grid.met, x) { MergeGet(s.grid.met, audio, x); }
      if !s.head.done { BeforeHeadOk(c, s, t); }
    }
  }

  /** Before the head is resolved nothing is published, so what it learns changes no kept window. */
  lemma BeforeHeadOk(c: Config, s: State, t: State)
    requires StateOk(c, s) && !s.head.done && !s.done && t.done == s.done && t.published == s.published
    requires t.grid.win == s.grid.win && CutsOk(c, t.cuts) && GridOk(c, s.head, t.cuts.bounds, t.grid)
    ensures StateOk(c, t)
  {
    forall x | x in c.audio && x !in t.grid.behind
      ensures TrackKept(c, t.head, t.cuts.bounds, Get(t.grid.pts, x), Get(t.grid.met, x), x, 0)
    {
      TrackBeforeHead(c, s.head, t.head, t.cuts.bounds, Get(t.grid.pts, x), Get(t.grid.met, x), x);
    }
  }

  lemma {:induction false} ReachedOk(c: Config, f: Source, s: State, size: nat, k: nat)
    requires ValidSource(f) && TimesInRange(f) && StateOk(c, s)
    ensures StateOk(c, Reached(c, f, s, size, k)) && Extends(s, Reached(c, f, s, size, k))
    decreases k
  {
    hide StateOk, Extends;
    if k > 0 && WholeNext(f, s, size) {
      FoldOk(c, f, s, size);
      ReachedOk(c, f, FoldNext(c, f, s), size, k - 1);
      ExtendsTrans(s, FoldNext(c, f, s), Reached(c, f, s, size, k));
    } else {
      ExtendsSelf(s);
    }
  }

  lemma ExtendsSelf(s: State)
    ensures Extends(s, s)
  {
  }

  /** Every look, to its end or stopped anywhere, keeps the plan's invariant and takes nothing back. */
  lemma AfterOk(c: Config, f: Source, s: State, look: Look)
    requires ValidSource(f) && TimesInRange(f) && StateOk(c, s)
    ensures StateOk(c, After(c, f, s, look)) && Extends(s, After(c, f, s, look))
  {
    hide Scan, Reached, HalfFolded, StateOk, Extends;
    match look
    case Whole(size) => ScanOk(c, f, s, size);
    case Stopped(size, k, _) =>
      var found := if s.done then NotYet else if s.started then At(s.cursor) else FirstCluster(f, f.segStart, size);
      if found.At? {
        var s0 := s.(started := true, cursor := found.off);
        StartedOk(c, s, s0);
        ReachedOk(c, f, s0, size, k);
        var (r, n) := Last(c, f, s, look);
        ExtendsTrans(s, s0, r);
        if n > 0 {
          var blocks := f.elements[r.cursor].blocks;
          HalfOk(c, r, blocks, n);
          ExtendsTrans(s, r, HalfFolded(c, r, blocks, n));
        }
      } else {
        ExtendsSelf(s);
      }
  }

  lemma StartedOk(c: Config, s: State, s0: State)
    requires StateOk(c, s) && !s.done && s0 == s.(started := s0.started, cursor := s0.cursor)
    ensures StateOk(c, s0) && Extends(s, s0)
  {
  }

  lemma {:induction false} AllOk(c: Config, f: Source, s: State, looks: seq<Look>)
    requires ValidSource(f) && TimesInRange(f) && StateOk(c, s)
    ensures StateOk(c, AfterAll(c, f, s, looks)) && Extends(s, AfterAll(c, f, s, looks))
  {
    hide After, StateOk, Extends;
    if looks == [] {
      ExtendsSelf(s);
    } else {
      var t := AfterAll(c, f, s, looks[..|looks|-1]);
      AllOk(c, f, s, looks[..|looks|-1]);
      AfterOk(c, f, t, looks[|looks|-1]);
      ExtendsTrans(s, t, AfterAll(c, f, s, looks));
    }
  }

  /** No published entry ever changes or is withdrawn, whatever looks fail or are cancelled on the way. */
  lemma StopsTakeNothingBack(c: Config, f: Source, s: State, looks: seq<Look>, endMs: int, endMs': int)
    requires ValidSource(f) && TimesInRange(f) && StateOk(c, s) && !s.done
    ensures var s' := AfterAll(c, f, s, looks);
      && s.published <= |s.cuts.bounds| == |s.cuts.offsets|
      && s'.published <= |s'.cuts.bounds| == |s'.cuts.offsets|
      && Entries(s, endMs) <= Entries(s', endMs')
  {
    hide AfterAll, Extends;
    AllOk(c, f, s, looks);
    EntriesPrefix(c, s, AfterAll(c, f, s, looks), endMs, endMs');
  }
}
