/** When a grid-timed window is timed for good while its file still grows (mp4/growinghls.go, gridSettledLocked). */
module GridFinality {
  import opened Arith
  import opened GridWindow
  import Seqs

  /** The frames of window m and of the windows after it. */
  function FromWindow(pts: seq<int>, bounds: seq<int>, m: nat): seq<int>
    requires m == 0 || m < |bounds|
  {
    if m == 0 then pts
    else
      var r := FromWindow(pts, bounds, m - 1);
      r[Under(r, bounds[m])..]
  }

  /** What gridSettledLocked asks of one grid-timed track, pts opening on window m. */
  predicate TrackSettled(pts: seq<int>, bounds: seq<int>, m: nat, slot: int -> int)
    requires m + 1 < |bounds|
  {
    var to := Under(pts, bounds[m+1]);
    if to == |pts| then m + 2 < |bounds|
    else if to == 0 then true
    else if ColdEnd(pts[..to], slot) <= slot(pts[to]) then true
    else if m + 2 >= |bounds| then false
    else !(Under(pts[to..], bounds[m+2]) == |pts| - to && m + 3 >= |bounds|)
  }

  /** A frame is met past window m and, when the window's own numbering runs past that frame's slot, either one past window
      m+1 too or, among those met, one that already leaves the grid. */
  predicate MetPast(pts: seq<int>, bounds: seq<int>, m: nat, slot: int -> int)
    requires m + 1 < |bounds|
  {
    var to := Under(pts, bounds[m+1]);
    && to < |pts|
    && (to > 0 && ColdEnd(pts[..to], slot) > slot(pts[to]) && m + 2 < |bounds| ==>
          Under(pts[to..], bounds[m+2]) < |pts| - to || Jitter(pts[to..], slot))
  }

  /** Settled without a fallback: a condition frames and bounds still to come cannot undo. */
  predicate SettledByFrames(pts: seq<int>, bounds: seq<int>, m: nat, slot: int -> int)
    requires m + 1 < |bounds|
  {
    TrackSettled(pts, bounds, m, slot) && MetPast(pts, bounds, m, slot)
  }

  lemma {:induction false} UnderAppend(pts: seq<int>, more: seq<int>, limit: int)
    requires Under(pts, limit) < |pts|
    ensures Under(pts + more, limit) == Under(pts, limit)
  {
    if pts[0] < limit {
      assert (pts + more)[1..] == pts[1..] + more;
      UnderAppend(pts[1..], more, limit);
    }
  }

  lemma {:induction false} UnderGrows(pts: seq<int>, more: seq<int>, limit: int)
    ensures Under(pts + more, limit) >= Under(pts, limit)
  {
    if pts != [] && pts[0] < limit {
      assert (pts + more)[1..] == pts[1..] + more;
      UnderGrows(pts[1..], more, limit);
    }
  }

  lemma {:induction false} RawAppend(pts: seq<int>, more: seq<int>, slot: int -> int, i: nat)
    requires i < |pts|
    ensures Raw(pts + more, slot, i) == Raw(pts, slot, i)
  {
    if i > 0 { RawAppend(pts, more, slot, i - 1); }
  }

  /** Frames that leave the grid do so whatever follows. */
  lemma JitterStays(pts: seq<int>, more: seq<int>, slot: int -> int)
    requires Jitter(pts, slot)
    ensures Jitter(pts + more, slot)
  {
    var i: nat :| 0 < i < |pts| && pts[i] != pts[i-1] && slot(pts[i]) != Raw(pts, slot, i - 1) + 1;
    RawAppend(pts, more, slot, i - 1);
    assert (pts + more)[i] == pts[i] && (pts + more)[i-1] == pts[i-1];
  }

  /** Window m's frames and those past it, once some are met, only gain frames at their end. */
  lemma {:induction false} FromWindowAppend(pts: seq<int>, more: seq<int>, bounds: seq<int>, moreBounds: seq<int>, m: nat)
    requires m == 0 || m < |bounds|
    requires m == 0 || FromWindow(pts, bounds, m) != []
    ensures FromWindow(pts + more, bounds + moreBounds, m) == FromWindow(pts, bounds, m) + more
  {
    if m > 0 {
      var r := FromWindow(pts, bounds, m - 1);
      FromWindowAppend(pts, more, bounds, moreBounds, m - 1);
      UnderAppend(r, more, bounds[m]);
      Seqs.DropAppend(r, more, Under(r, bounds[m]));
    }
  }

  lemma {:induction false} FromWindowShrinks(pts: seq<int>, bounds: seq<int>, q: nat, m: nat)
    requires q <= m && (m == 0 || m < |bounds|)
    ensures |FromWindow(pts, bounds, m)| <= |FromWindow(pts, bounds, q)|
    decreases m
  {
    if q < m { FromWindowShrinks(pts, bounds, q, m - 1); }
  }

  /** Window k and those after it, cut from its own frames on. */
  lemma {:induction false} CutFrom(pts: seq<int>, bounds: seq<int>, k: nat)
    requires k < |bounds|
    ensures Cut(pts, bounds, 0)[k..] == Cut(FromWindow(pts, bounds, k), bounds, k)
    ensures var r := FromWindow(pts, bounds, k); Cut(pts, bounds, 0)[k] == r[..Under(r, SegEnd(bounds, k))]
  {
    if k > 0 {
      CutFrom(pts, bounds, k - 1);
      var wins := Cut(pts, bounds, 0);
      assert wins[k..] == wins[k-1..][1..];
      assert wins[k] == wins[k..][0];
    }
  }

  /** Where a window ends looks at nothing before it. */
  lemma {:induction false} ClosingOfTail(wins: seq<seq<int>>, slot: int -> int, m: nat, k: nat)
    requires m <= k < |wins|
    ensures Closing(wins, slot, k) == Closing(wins[m..], slot, k - m)
    decreases |wins| - k
  {
    if k + 1 < |wins| { ClosingOfTail(wins, slot, m, k + 1); }
  }

  /** The first frame past a window opens on its own slot unless the window's own numbering runs past it. */
  lemma {:induction false} NextFrameOpens(w: seq<int>, r: seq<int>, bounds: seq<int>, slot: int -> int, k: nat)
    requires r != [] && r[0] < MAX_INT64 && k < |bounds| && slot(r[0]) >= 0
    requires w == [] || ColdEnd(w, slot) <= slot(r[0])
    ensures Closing([w] + Cut(r, bounds, k), slot, 0) == slot(r[0])
    decreases |bounds| - k
  {
    var wins := [w] + Cut(r, bounds, k);
    var n := Under(r, SegEnd(bounds, k));
    assert wins[1] == r[..n] && wins[0] == w;
    if n == 0 {
      NextFrameOpens([], r, bounds, slot, k + 1);
      assert wins[1..] == [[]] + Cut(r, bounds, k + 1);
      ClosingOfTail(wins, slot, 1, 1);
    }
  }

  /** Where window m ends, read off its own frames and those past it. */
  function ClosingBy(r: seq<int>, bounds: seq<int>, m: nat, slot: int -> int): int
    requires m + 1 < |bounds| && SettledByFrames(r, bounds, m, slot)
  {
    var to := Under(r, bounds[m+1]);
    if to == 0 || ColdEnd(r[..to], slot) <= slot(r[to]) then slot(r[to])
    else
      var n := Under(r[to..], bounds[m+2]);
      if n == 0 then slot(r[to]) else Open(r[to..][..n], slot, ColdEnd(r[..to], slot))
  }

  lemma {:induction false} ClosingOfFrames(r: seq<int>, bounds: seq<int>, m: nat, slot: int -> int)
    requires m + 1 < |bounds| && SettledByFrames(r, bounds, m, slot)
    requires forall ms :: slot(ms) >= 0
    requires forall x :: x in r ==> x < MAX_INT64
    ensures Closing(Cut(r, bounds, m), slot, 0) == ClosingBy(r, bounds, m, slot)
  {
    var to := Under(r, bounds[m+1]);
    var w, rest := r[..to], r[to..];
    assert rest[0] == r[to] && r[to] in r;
    var wins := [w] + Cut(rest, bounds, m + 1);
    assert Cut(r, bounds, m) == wins;
    if to == 0 || ColdEnd(w, slot) <= slot(r[to]) {
      NextFrameOpens(w, rest, bounds, slot, m + 1);
    } else {
      var n := Under(rest, bounds[m+2]);
      var tail := Cut(rest[n..], bounds, m + 2);
      assert wins == [w] + ([rest[..n]] + tail);
      if n == 0 {
        NextFrameOpens([], rest, bounds, slot, m + 2);
        assert wins[1..] == [[]] + tail;
        ClosingOfTail(wins, slot, 1, 1);
      }
    }
  }

  lemma {:induction false} ClosingIsBy(pts: seq<int>, bounds: seq<int>, m: nat, slot: int -> int)
    requires m + 1 < |bounds| && SettledByFrames(FromWindow(pts, bounds, m), bounds, m, slot)
    requires forall ms :: slot(ms) >= 0
    requires forall x :: x in FromWindow(pts, bounds, m) ==> x < MAX_INT64
    ensures Closing(Cut(pts, bounds, 0), slot, m) == ClosingBy(FromWindow(pts, bounds, m), bounds, m, slot)
  {
    CutFrom(pts, bounds, m);
    ClosingOfTail(Cut(pts, bounds, 0), slot, m, m);
    ClosingOfFrames(FromWindow(pts, bounds, m), bounds, m, slot);
  }

  /** Where the window of the frames under a limit opens does not change, once a frame is met past it or one leaves the grid. */
  lemma NextOpenStays(rest: seq<int>, more: seq<int>, limit: int, slot: int -> int, prevEnd: int)
    requires rest != [] && prevEnd > slot(rest[0])
    requires Under(rest, limit) < |rest| || Jitter(rest, slot)
    ensures Under(rest, limit) < |rest| ==> Under(rest + more, limit) < |rest + more|
    ensures Jitter(rest, slot) ==> Jitter(rest + more, slot)
    ensures var n, n' := Under(rest, limit), Under(rest + more, limit);
      (n == 0 <==> n' == 0) && (n > 0 ==> Open(rest[..n], slot, prevEnd) == Open((rest + more)[..n'], slot, prevEnd))
  {
    var n, n' := Under(rest, limit), Under(rest + more, limit);
    if Jitter(rest, slot) { JitterStays(rest, more, slot); }
    if n < |rest| {
      UnderAppend(rest, more, limit);
      assert (rest + more)[..n] == rest[..n];
    } else {
      UnderGrows(rest, more, limit);
      assert rest[..n] == rest && (rest + more)[..n'] == rest + more[..n' - n];
      JitterStays(rest, more[..n' - n], slot);
    }
  }

  /** Frames and bounds still to come leave a window settled by frames as it was. */
  lemma {:induction false} SettledStays(r: seq<int>, more: seq<int>, bounds: seq<int>, moreBounds: seq<int>, m: nat, slot: int -> int)
    requires m + 1 < |bounds| && SettledByFrames(r, bounds, m, slot)
    ensures SettledByFrames(r + more, bounds + moreBounds, m, slot)
    ensures ClosingBy(r + more, bounds + moreBounds, m, slot) == ClosingBy(r, bounds, m, slot)
    ensures Under(r + more, bounds[m+1]) == Under(r, bounds[m+1])
  {
    var to := Under(r, bounds[m+1]);
    UnderAppend(r, more, bounds[m+1]);
    assert (r + more)[..to] == r[..to] && (r + more)[to..] == r[to..] + more;
    if to > 0 && ColdEnd(r[..to], slot) > slot(r[to]) { NextOpenStays(r[to..], more, bounds[m+2], slot, ColdEnd(r[..to], slot)); }
  }

  /** Settled means final: whatever frames and bounds follow, the full pass gives window m the frames, decode times
      and durations it gives them now. */
  lemma {:induction false} SettledIsFinal(pts: seq<int>, more: seq<int>, bounds: seq<int>, moreBounds: seq<int>, m: nat,
                       slot: int -> int, gridTS: int)
    requires m + 1 < |bounds| && SettledByFrames(FromWindow(pts, bounds, m), bounds, m, slot)
    requires forall ms :: slot(ms) >= 0
    requires forall x :: x in FromWindow(pts, bounds, m) || x in more ==> x < MAX_INT64
    ensures var wins, wins' := Cut(pts, bounds, 0), Cut(pts + more, bounds + moreBounds, 0);
      && wins'[m] == wins[m]
      && WindowDts(wins', slot, gridTS, m) == WindowDts(wins, slot, gridTS, m)
      && WindowDur(wins', slot, gridTS, m) == WindowDur(wins, slot, gridTS, m)
  {
    var r, bounds' := FromWindow(pts, bounds, m), bounds + moreBounds;
    FromWindowAppend(pts, more, bounds, moreBounds, m);
    SettledStays(r, more, bounds, moreBounds, m, slot);
    ClosingIsBy(pts, bounds, m, slot);
    ClosingIsBy(pts + more, bounds', m, slot);
    WindowStays(pts, more, bounds, moreBounds, m, m);
    if m > 0 {
      WindowStays(pts, more, bounds, moreBounds, m - 1, m);
    }
  }

  /** A window with a frame met past it keeps its frames. */
  lemma {:induction false} WindowStays(pts: seq<int>, more: seq<int>, bounds: seq<int>, moreBounds: seq<int>, q: nat, m: nat)
    requires q <= m && m + 1 < |bounds|
    requires Under(FromWindow(pts, bounds, m), bounds[m+1]) < |FromWindow(pts, bounds, m)|
    ensures Cut(pts + more, bounds + moreBounds, 0)[q] == Cut(pts, bounds, 0)[q]
  {
    var r, n := FromWindow(pts, bounds, q), Under(FromWindow(pts, bounds, q), bounds[q+1]);
    FromWindowShrinks(pts, bounds, q, m);
    if q < m { FromWindowShrinks(pts, bounds, q + 1, m); }
    FromWindowAppend(pts, more, bounds, moreBounds, q);
    UnderAppend(r, more, bounds[q+1]);
    Seqs.DropAppend(r, more, n);
    CutAt(pts, bounds, q);
    CutAt(pts + more, bounds + moreBounds, q);
  }

  lemma {:induction false} CutAt(pts: seq<int>, bounds: seq<int>, q: nat)
    requires q + 1 < |bounds|
    ensures var r := FromWindow(pts, bounds, q); Cut(pts, bounds, 0)[q] == r[..Under(r, bounds[q+1])]
  {
    CutFrom(pts, bounds, q);
  }

  // ---- exactly which settled windows are final ----

  /** Frames and bounds that follow leave window m, whose frames and those past it are r, its frames and its end. */
  ghost predicate SameWindow(r: seq<int>, more: seq<int>, bounds: seq<int>, moreBounds: seq<int>, m: nat, slot: int -> int)
    requires m < |bounds|
  {
    var w, w' := Cut(r, bounds, m), Cut(r + more, bounds + moreBounds, m);
    w'[0] == w[0] && Closing(w', slot, 0) == Closing(w, slot, 0)
  }

  ghost predicate InRange(pts: seq<int>) { forall x :: x in pts ==> x < MAX_INT64 }

  ghost predicate Final(r: seq<int>, bounds: seq<int>, m: nat, slot: int -> int)
    requires m < |bounds|
  {
    forall more: seq<int>, moreBounds: seq<int> :: InRange(more) ==> SameWindow(r, more, bounds, moreBounds, m, slot)
  }

  /** No frame of more comes before the one ahead of it. */
  ghost predicate InOrder(r: seq<int>, more: seq<int>) {
    forall i, j :: 0 <= i < j < |r + more| && i >= |r| - 1 ==> (r + more)[i] <= (r + more)[j]
  }

  ghost predicate FinalInOrder(r: seq<int>, bounds: seq<int>, m: nat, slot: int -> int)
    requires m < |bounds|
  {
    forall more: seq<int>, moreBounds: seq<int> ::
      InRange(more) && InOrder(r, more) ==> SameWindow(r, more, bounds, moreBounds, m, slot)
  }

  /** No timecode is left between the last frame met and the end of the window after m. */
  predicate NextWindowFull(r: seq<int>, bounds: seq<int>, m: nat) {
    r != [] && m + 2 < |bounds| && r[|r|-1] + 1 >= bounds[m+2]
  }

  /** Only the second fallback settles the window: the next one's frames are all met, and none of them leaves the grid yet. */
  predicate BySecondFallback(r: seq<int>, bounds: seq<int>, m: nat, slot: int -> int)
    requires m + 1 < |bounds|
  {
    var to := Under(r, bounds[m+1]);
    && m + 2 < |bounds| && 0 < to < |r| && ColdEnd(r[..to], slot) > slot(r[to])
    && Under(r[to..], bounds[m+2]) == |r| - to && !Jitter(r[to..], slot)
  }

  lemma WhichFallback(r: seq<int>, bounds: seq<int>, m: nat, slot: int -> int)
    requires m + 1 < |bounds| && TrackSettled(r, bounds, m, slot)
    ensures !MetPast(r, bounds, m, slot) <==> Under(r, bounds[m+1]) == |r| || BySecondFallback(r, bounds, m, slot)
  {
  }

  /** A settled window is final, whatever frames and bounds follow, if and only if it is decided by frames: the two
      fallbacks alone settle windows that a later frame can still change. */
  lemma FinalIff(r: seq<int>, bounds: seq<int>, m: nat, slot: int -> int)
    requires m + 1 < |bounds| && TrackSettled(r, bounds, m, slot)
    requires (forall ms :: slot(ms) >= 0) && InRange(r)
    ensures Final(r, bounds, m, slot) <==> MetPast(r, bounds, m, slot)
  {
    hide SameWindow, MetPast, TrackSettled, BySecondFallback, InOrder;
    WhichFallback(r, bounds, m, slot);
    if MetPast(r, bounds, m, slot) {
      forall more: seq<int>, moreBounds: seq<int> | InRange(more) ensures SameWindow(r, more, bounds, moreBounds, m, slot) {
        DecidedIsSame(r, more, bounds, moreBounds, m, slot);
      }
    } else if Under(r, bounds[m+1]) == |r| {
      var x := OneMore(r, bounds, m, slot);
      assert !SameWindow(r, [x], bounds, [], m, slot);
    } else {
      LastUnder(r, bounds, m, slot);
      var more := LeavesGrid(r, bounds, m, slot, r[|r|-1] - 1);
      assert !SameWindow(r, more, bounds, [], m, slot);
    }
  }

  /** When the frames that follow come in order, the second fallback also settles for good a window behind which no later
      timecode is left to the next one. */
  lemma FinalInOrderIff(r: seq<int>, bounds: seq<int>, m: nat, slot: int -> int)
    requires m + 1 < |bounds| && TrackSettled(r, bounds, m, slot)
    requires (forall ms :: slot(ms) >= 0) && InRange(r) && forall b :: b in bounds ==> b <= MAX_INT64
    ensures FinalInOrder(r, bounds, m, slot) <==>
      MetPast(r, bounds, m, slot) || (Under(r, bounds[m+1]) < |r| && NextWindowFull(r, bounds, m))
  {
    hide SameWindow, MetPast, TrackSettled, BySecondFallback, InOrder;
    WhichFallback(r, bounds, m, slot);
    if MetPast(r, bounds, m, slot) {
      FinalIff(r, bounds, m, slot);
    } else if Under(r, bounds[m+1]) == |r| {
      var x := OneMore(r, bounds, m, slot);
      assert !SameWindow(r, [x], bounds, [], m, slot);
    } else if NextWindowFull(r, bounds, m) {
      forall more: seq<int>, moreBounds: seq<int> | InRange(more) && InOrder(r, more)
        ensures SameWindow(r, more, bounds, moreBounds, m, slot)
      {
        FullIsSame(r, more, bounds, moreBounds, m, slot);
      }
    } else {
      LastUnder(r, bounds, m, slot);
      var more := LeavesGrid(r, bounds, m, slot, r[|r|-1] + 1);
      LaterInOrder(r, more);
      assert !SameWindow(r, more, bounds, [], m, slot);
    }
  }

  lemma LastUnder(r: seq<int>, bounds: seq<int>, m: nat, slot: int -> int)
    requires m + 1 < |bounds| && BySecondFallback(r, bounds, m, slot) && InRange(r)
    ensures r != [] && m + 2 < |bounds| && r[|r|-1] < bounds[m+2] && r[|r|-1] < MAX_INT64
    ensures bounds[m+2] in bounds
  {
    var rest := r[Under(r, bounds[m+1])..];
    UnderCovers(rest, bounds[m+2]);
    assert rest[|rest|-1] == r[|r|-1] && r[|r|-1] in r;
  }

  lemma LaterInOrder(r: seq<int>, more: seq<int>)
    requires r != [] && (more == [r[|r|-1] + 1] || more == [r[|r|-1], r[|r|-1] + 1])
    ensures InOrder(r, more)
  {
  }

  lemma DecidedIsSame(r: seq<int>, more: seq<int>, bounds: seq<int>, moreBounds: seq<int>, m: nat, slot: int -> int)
    requires m + 1 < |bounds| && SettledByFrames(r, bounds, m, slot)
    requires (forall ms :: slot(ms) >= 0) && InRange(r) && InRange(more)
    ensures SameWindow(r, more, bounds, moreBounds, m, slot)
  {
    hide SettledByFrames, ClosingBy;
    var to := Under(r, bounds[m+1]);
    SettledStays(r, more, bounds, moreBounds, m, slot);
    ClosingOfFrames(r, bounds, m, slot);
    ClosingOfFrames(r + more, bounds + moreBounds, m, slot);
    assert (r + more)[..to] == r[..to];
  }

  lemma {:induction false} UnderCovers(pts: seq<int>, limit: int)
    ensures Under(pts, limit) == |pts| <==> forall i :: 0 <= i < |pts| ==> pts[i] < limit
  {
    if pts != [] && pts[0] < limit {
      UnderCovers(pts[1..], limit);
      assert forall i :: 0 < i < |pts| ==> pts[i] == pts[1..][i-1];
    }
  }

  /** The first fallback: a frame the silent track still has for the window joins it. */
  lemma OneMore(r: seq<int>, bounds: seq<int>, m: nat, slot: int -> int) returns (x: int)
    requires m + 1 < |bounds| && Under(r, bounds[m+1]) == |r| && InRange(r)
    ensures InRange([x]) && InOrder(r, [x]) && !SameWindow(r, [x], bounds, [], m, slot)
  {
    x := Min(bounds[m+1], MAX_INT64) - 1;
    UnderCovers(r, bounds[m+1]);
    UnderCovers(r + [x], bounds[m+1]);
    assert r != [] ==> r[|r|-1] in r;
    assert bounds + [] == bounds;
  }

  /** The second fallback: a frame off the grid, alone or behind one more of the last block's lace, opens the next window
      where this one's numbering ends. */
  lemma LeavesGrid(r: seq<int>, bounds: seq<int>, m: nat, slot: int -> int, x: int) returns (more: seq<int>)
    requires m + 1 < |bounds| && BySecondFallback(r, bounds, m, slot)
    requires x != r[|r|-1] < MAX_INT64 && x < bounds[m+2] && x < MAX_INT64
    ensures more == [x] || more == [r[|r|-1], x]
    ensures InRange(more) && !SameWindow(r, more, bounds, [], m, slot)
  {
    hide Jitter, ColdEnd, Raw, Under;
    var to := Under(r, bounds[m+1]);
    var rest, last := r[to..], r[|r|-1];
    assert rest[|rest|-1] == last;
    UnderCovers(rest, bounds[m+2]);
    more := if slot(x) != Raw(rest, slot, |rest| - 1) + 1 then [x] else [last, x];
    LeftGrid(rest, slot, more, x);
    UnderCovers(rest + more, bounds[m+2]);
    NextOpens(r, more, bounds, [], m, slot);
    NextOpens(r, [], bounds, [], m, slot);
    assert r + [] == r && bounds + [] == bounds && rest + [] == rest;
    var all := rest + more;
    assert forall i :: 0 <= i < |all| ==> all[i] < bounds[m+2];
    assert rest[..|rest|] == rest && all[..|all|] == all && all[0] == rest[0] == r[to];
    assert Closing(Cut(r + more, bounds, m), slot, 0) == Open(all, slot, ColdEnd(r[..to], slot));
    assert Closing(Cut(r, bounds, m), slot, 0) == Open(rest, slot, ColdEnd(r[..to], slot));
  }

  lemma LeftGrid(rest: seq<int>, slot: int -> int, more: seq<int>, x: int)
    requires rest != [] && x != rest[|rest|-1]
    requires more == if slot(x) != Raw(rest, slot, |rest| - 1) + 1 then [x] else [rest[|rest|-1], x]
    ensures Jitter(rest + more, slot)
  {
    var n, all := |rest|, rest + more;
    RawAppend(rest, more, slot, n - 1);
    assert all[n-1] == rest[n-1];
    if more == [x] {
      assert all[n] == x;
    } else {
      assert all[n] == all[n-1] && Raw(all, slot, n) == Raw(rest, slot, n - 1) + 1;
      assert all[n+1] == x && slot(x) != Raw(all, slot, n) + 1;
    }
  }

  /** Where window m ends when its own numbering runs past the next window's first frame, more frames and bounds behind. */
  lemma NextOpens(r: seq<int>, more: seq<int>, bounds: seq<int>, moreBounds: seq<int>, m: nat, slot: int -> int)
    requires m + 1 < |bounds| && BySecondFallback(r, bounds, m, slot)
    ensures var to := Under(r, bounds[m+1]); var rest := r[to..] + more; var n := Under(rest, bounds[m+2]);
      && n > 0 && Cut(r + more, bounds + moreBounds, m)[0] == r[..to]
      && Closing(Cut(r + more, bounds + moreBounds, m), slot, 0) == Open(rest[..n], slot, ColdEnd(r[..to], slot))
  {
    hide Jitter, ColdEnd;
    var to, r', bounds' := Under(r, bounds[m+1]), r + more, bounds + moreBounds;
    var rest := r[to..] + more;
    UnderAppend(r, more, bounds[m+1]);
    UnderGrows(r[to..], more, bounds[m+2]);
    var n := Under(rest, bounds[m+2]);
    assert r'[..to] == r[..to] && r'[to..] == rest;
    assert Cut(r', bounds', m) == [r[..to]] + Cut(rest, bounds', m + 1);
    assert Cut(rest, bounds', m + 1) == [rest[..n]] + Cut(rest[n..], bounds', m + 2);
    assert Cut(r', bounds', m)[1] == rest[..n];
  }

  lemma FullIsSame(r: seq<int>, more: seq<int>, bounds: seq<int>, moreBounds: seq<int>, m: nat, slot: int -> int)
    requires m + 1 < |bounds| && BySecondFallback(r, bounds, m, slot) && NextWindowFull(r, bounds, m) && InOrder(r, more)
    ensures SameWindow(r, more, bounds, moreBounds, m, slot)
  {
    hide Jitter, ColdEnd, Cut, Closing;
    var to := Under(r, bounds[m+1]);
    var rest, last := r[to..], r[|r|-1];
    var n' := Under(rest + more, bounds[m+2]);
    UnderGrows(rest, more, bounds[m+2]);
    var lace := more[..n' - |rest|];
    UnderPrefix(rest + more, bounds[m+2]);
    forall i | 0 <= i < |lace| ensures lace[i] == last {
      assert lace[i] == (rest + more)[|rest| + i] == (r + more)[|r| + i];
      assert (r + more)[|r|-1] == last;
    }
    assert (rest + more)[..n'] == rest + lace;
    assert rest[|rest|-1] == last && rest[..|rest|] == rest;
    SameBlock(rest, slot, lace);
    NextOpens(r, more, bounds, moreBounds, m, slot);
    NextOpens(r, [], bounds, [], m, slot);
    assert r + [] == r && bounds + [] == bounds && rest + [] == rest;
  }

  lemma {:induction false} UnderPrefix(pts: seq<int>, limit: int)
    ensures forall i :: 0 <= i < Under(pts, limit) ==> pts[i] < limit
  {
    if pts != [] && pts[0] < limit { UnderPrefix(pts[1..], limit); }
  }

  /** More frames of the last block stay on the grid. */
  lemma SameBlock(rest: seq<int>, slot: int -> int, lace: seq<int>)
    requires rest != [] && !Jitter(rest, slot) && forall i :: 0 <= i < |lace| ==> lace[i] == rest[|rest|-1]
    ensures !Jitter(rest + lace, slot)
  {
    var all := rest + lace;
    forall i: nat | 0 < i < |all| && all[i] != all[i-1] ensures slot(all[i]) == Raw(all, slot, i - 1) + 1 {
      assert i < |rest|;
      RawAppend(rest, lace, slot, i - 1);
      assert rest[i] == all[i] && rest[i-1] == all[i-1];
    }
  }

  lemma {:induction false} SameTotals(w: seq<int>, slot: int -> int, gridTS: int, open: int, end: int, end': int, n: nat)
    requires w != [] && n <= |w| && DurList(w, slot, gridTS, open, end) == DurList(w, slot, gridTS, open, end')
    ensures TotalDur(w, slot, gridTS, open, end, n) == TotalDur(w, slot, gridTS, open, end', n)
  {
    hide Dts, EndOf;
    if n > 0 {
      SameTotals(w, slot, gridTS, open, end, end', n - 1);
      assert DurList(w, slot, gridTS, open, end)[n-1] == Dur(w, slot, gridTS, open, end, n - 1);
      assert DurList(w, slot, gridTS, open, end')[n-1] == Dur(w, slot, gridTS, open, end', n - 1);
    }
  }

  /** A window that ends elsewhere has other durations, where its first frame fits. */
  lemma EndShows(w: seq<int>, slot: int -> int, gridTS: int, open: int, end: int, end': int)
    requires w != [] && gridTS >= 1 && end >= 0 && end' >= 0 && end != end'
    requires Fits(Num(w, slot, open, 0), Natural(w, slot, open), end, gridTS)
    requires Fits(Num(w, slot, open, 0), Natural(w, slot, open), end', gridTS)
    ensures DurList(w, slot, gridTS, open, end) != DurList(w, slot, gridTS, open, end')
  {
    hide DurList, Fits, Natural;
    WindowTiles(w, slot, gridTS, open, end);
    WindowTiles(w, slot, gridTS, open, end');
    if DurList(w, slot, gridTS, open, end) == DurList(w, slot, gridTS, open, end') {
      SameTotals(w, slot, gridTS, open, end, end', |w|);
      var first := Num(w, slot, open, 0);
      assert (end - first) * gridTS == (end' - first) * gridTS;
      if end < end' { MulLt(end - first, end' - first, gridTS); } else { MulLt(end' - first, end - first, gridTS); }
    }
  }

  /** The second fallback at work: three frames of one block run past a block on the grid; one more block off it, and the
      first window ends two slots later. */
  lemma SecondFallbackIsNotFinal()
    ensures var pts, more, bounds, slot := [9, 9, 9, 10], [15], [0, 10, 20, 30], (ms: int) => if ms < 0 then 0 else ms;
      && TrackSettled(FromWindow(pts, bounds, 0), bounds, 0, slot)
      && WindowDur(Cut(pts, bounds, 0), slot, 10, 0) != WindowDur(Cut(pts + more, bounds, 0), slot, 10, 0)
  {
    hide TrackSettled, BySecondFallback, Cut, Under, ColdEnd, Open, Num, Natural;
    var pts, more, bounds, slot := [9, 9, 9, 10], [15], [0, 10, 20, 30], (ms: int) => if ms < 0 then 0 else ms;
    var w := [9, 9, 9];
    TwoBlocks(slot);
    NextOpens(pts, [], bounds, [], 0, slot);
    NextOpens(pts, more, bounds, [], 0, slot);
    assert pts + [] == pts && bounds + [] == bounds && pts[..3] == w && pts[3..] == [10] && [10] + [] == [10] && [10] + more == [10, 15];
    assert [10, 15][..2] == [10, 15] && [10][..1] == [10];
    NextOpening(slot);
    EndShows(w, slot, 10, Opening(Cut(pts, bounds, 0), slot, 0), 10, 12);
  }

  lemma TwoBlocks(slot: int -> int)
    requires slot(9) == 9 && slot(10) == 10
    ensures var pts, bounds := [9, 9, 9, 10], [0, 10, 20, 30];
      TrackSettled(pts, bounds, 0, slot) && BySecondFallback(pts, bounds, 0, slot) && Under(pts, 10) == 3
    ensures Under([10], 20) == 1 && Under([10, 15], 20) == 2
  {
    hide ColdEnd, TrackSettled;
    var pts, bounds := [9, 9, 9, 10], [0, 10, 20, 30];
    assert pts[1..] == [9, 9, 10] && pts[1..][1..] == [9, 10] && [9, 10][1..] == [10] && [10][1..] == [] && [10, 15][1..] == [15];
    assert Under([10], 10) == 0 && Under([9, 10], 10) == 1 && Under(pts[1..], 10) == 2 && Under(pts, 10) == 3;
    assert Under([10], 20) == 1 && Under([15], 20) == 1;
    assert pts[..3] == [9, 9, 9] && pts[3..] == [10];
    NextOpening(slot);
    assert TrackSettled(pts, bounds, 0, slot) by { SettledAt(pts, bounds, slot); }
  }

  lemma SettledAt(pts: seq<int>, bounds: seq<int>, slot: int -> int)
    requires |bounds| == 4 && 0 < Under(pts, bounds[1]) < |pts|
    ensures TrackSettled(pts, bounds, 0, slot)
  {
  }

  lemma NextOpening(slot: int -> int)
    requires slot(9) == 9 && slot(10) == 10
    ensures ColdEnd([9, 9, 9], slot) == Natural([9, 9, 9], slot, 9) == 12 && Num([9, 9, 9], slot, 9, 0) == 9
    ensures Open([9, 9, 9], slot, -1) == 9 && Open([10], slot, 12) == 10 && !Jitter([10], slot)
    ensures slot(15) == 15 ==> Open([10, 15], slot, 12) == 12
  {
    var w, late := [9, 9, 9], [10, 15];
    assert Num(w, slot, -1, 1) == 10 && Num(w, slot, -1, 2) == 11;
    assert Num(w, slot, 9, 1) == 10 && Num(w, slot, 9, 2) == 11;
    assert slot(15) == 15 ==> late[1] != late[0] && slot(late[1]) != Raw(late, slot, 0) + 1;
  }

  /** The first: a window settled because the video went a whole window past a silent track is timed anew once the track
      sounds again. */
  lemma FirstFallbackIsNotFinal()
    ensures var pts, more, bounds, slot := [0], [25], [0, 10, 20], (ms: int) => if ms < 0 then 0 else ms;
      && TrackSettled(FromWindow(pts, bounds, 0), bounds, 0, slot)
      && WindowDur(Cut(pts, bounds, 0), slot, 1, 0) != WindowDur(Cut(pts + more, bounds, 0), slot, 1, 0)
  {
    var pts, more, bounds, slot := [0], [25], [0, 10, 20], (ms: int) => if ms < 0 then 0 else ms;
    assert pts[1..] == [] && (pts + more)[1..] == more;
    assert Under(pts, 10) == 1 && Under(pts + more, 10) == 1 + Under(more, 10) == 1;
    LastWindow([], bounds);
    LastWindow(more, bounds);
    var wins, wins' := Cut(pts, bounds, 0), Cut(pts + more, bounds, 0);
    assert pts[..1] == pts && (pts + more)[..1] == pts;
    assert wins == [pts] + Cut([], bounds, 1) && wins' == [pts] + Cut(more, bounds, 1);
    OneFrame(wins, slot, -1);
    OneFrame(wins', slot, 25);
  }

  lemma {:induction false} LastWindow(pts: seq<int>, bounds: seq<int>)
    requires bounds == [0, 10, 20] && (pts == [] || pts == [25])
    ensures Cut(pts, bounds, 1) == [[], pts]
  {
    assert Under(pts, 20) == 0 && pts[0..] == pts;
    assert Under(pts, MAX_INT64) == |pts| by { if pts != [] { assert pts[1..] == []; } }
    assert pts[..|pts|] == pts;
    assert Cut(pts, bounds, 2) == [pts] + Cut(pts[|pts|..], bounds, 3) == [pts] + [];
    assert Cut(pts, bounds, 1) == [pts[..0]] + Cut(pts[0..], bounds, 2) == [[]] + [pts];
  }

  lemma OneFrame(wins: seq<seq<int>>, slot: int -> int, closing: int)
    requires |wins| == 3 && wins[0] == [0] && wins[1] == [] && slot(0) == 0
    requires closing == if wins[2] == [] then -1 else 25
    requires wins[2] == [] || (wins[2] == [25] && slot(25) == 25)
    ensures WindowDur(wins, slot, 1, 0) == [if closing < 0 then 1 else 25]
  {
    assert Closing(wins, slot, 2) == -1;
    assert Closing(wins, slot, 1) == closing && Closing(wins, slot, 0) == closing;
    assert DtsList(wins[0], slot, 1, 0, closing) == [0];
  }
}
