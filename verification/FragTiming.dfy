/** Decode times, durations and composition offsets of a fragmented track (mp4/fragment.go, fillFragTimingTS off the audio
    grid): decode times are the sorted presentation times, offsets are pushed up until none is negative. */
module FragTiming {
  import opened Arith
  import opened Bytes

  // ---- sorting ----

  predicate Sorted(s: seq<int>) {
    forall i, j :: 0 <= i < j < |s| ==> s[i] <= s[j]
  }

  predicate StrictlyUp(s: seq<int>) {
    forall i, j :: 0 <= i < j < |s| ==> s[i] < s[j]
  }

  /** Where x goes among sorted values. */
  function Place(s: seq<int>, x: int): (k: nat)
    ensures k <= |s| && (forall i :: 0 <= i < k ==> s[i] <= x) && (k < |s| ==> x < s[k])
  {
    if s == [] || x < s[0] then 0 else 1 + Place(s[1..], x)
  }

  function Insert(s: seq<int>, x: int): seq<int> {
    var k := Place(s, x);
    s[..k] + [x] + s[k..]
  }

  /** The values in ascending order: what a sort leaves. */
  function Sort(s: seq<int>): (r: seq<int>)
    ensures |r| == |s|
  {
    if s == [] then [] else Insert(Sort(s[..|s|-1]), s[|s|-1])
  }

  lemma InsertSorted(s: seq<int>, x: int)
    requires Sorted(s)
    ensures Sorted(Insert(s, x)) && multiset(Insert(s, x)) == multiset(s + [x])
    ensures forall i :: 0 <= i < |s| ==> Insert(s, x)[i] <= s[i]
  {
    var k := Place(s, x);
    InsertedSorted(s, x, k);
    InsertedOnce(s, x, k);
  }

  lemma InsertedSorted(s: seq<int>, x: int, k: nat)
    requires Sorted(s) && k <= |s| && (forall i :: 0 <= i < k ==> s[i] <= x) && (k < |s| ==> x < s[k])
    ensures Sorted(s[..k] + [x] + s[k..])
    ensures forall i :: 0 <= i < |s| ==> (s[..k] + [x] + s[k..])[i] <= s[i]
  {
    var r := s[..k] + [x] + s[k..];
    assert forall i :: 0 <= i < |r| ==> r[i] == if i < k then s[i] else if i == k then x else s[i-1];
  }

  lemma InsertedOnce(s: seq<int>, x: int, k: nat)
    requires k <= |s|
    ensures multiset(s[..k] + [x] + s[k..]) == multiset(s + [x])
  {
    assert s == s[..k] + s[k..];
  }

  lemma {:induction false} SortSorts(s: seq<int>)
    ensures Sorted(Sort(s)) && multiset(Sort(s)) == multiset(s)
  {
    if s != [] {
      var init := s[..|s|-1];
      SortSorts(init);
      InsertSorted(Sort(init), s[|s|-1]);
      assert s == init + [s[|s|-1]];
    }
  }

  /** More values only bring the k-th smallest down. */
  lemma {:induction false} KthSmallest(s: seq<int>, m: nat, k: nat)
    requires k < m <= |s|
    ensures Sort(s)[k] <= Sort(s[..m])[k]
    decreases |s|
  {
    if m == |s| {
      assert s[..m] == s;
    } else {
      var init := s[..|s|-1];
      SortSorts(init);
      InsertSorted(Sort(init), s[|s|-1]);
      KthSmallest(init, m, k);
      assert init[..m] == s[..m];
    }
  }

  predicate Distinct(s: seq<int>) {
    forall i, j :: 0 <= i < j < |s| ==> s[i] != s[j]
  }

  lemma {:induction false} DistinctOnce(s: seq<int>, x: int)
    requires Distinct(s)
    ensures multiset(s)[x] <= 1
  {
    if s != [] {
      var init := s[..|s|-1];
      DistinctOnce(init, x);
      assert s == init + [s[|s|-1]];
      if x == s[|s|-1] { assert x !in init; }
    }
  }

  lemma TwiceCounted(s: seq<int>, i: nat, j: nat)
    requires i < j < |s| && s[i] == s[j]
    ensures multiset(s)[s[i]] >= 2
  {
    assert s == s[..j] + s[j..] && s[i] in s[..j] && s[j] in s[j..];
  }

  lemma {:induction false} SortedDistinct(s: seq<int>)
    requires Distinct(s)
    ensures StrictlyUp(Sort(s))
  {
    SortSorts(s);
    var r := Sort(s);
    forall i, j | 0 <= i < j < |r| ensures r[i] < r[j] {
      if r[i] == r[j] {
        TwiceCounted(r, i, j);
        DistinctOnce(s, r[i]);
      }
    }
  }

  // ---- strictly increasing ----

  /** A time that does not pass the one before moves one tick past it. */
  function Bumped(s: seq<int>): (r: seq<int>)
    ensures |r| == |s|
  {
    if |s| <= 1 then s
    else
      var r := Bumped(s[..|s|-1]);
      r + [Max(s[|s|-1], r[|r|-1] + 1)]
  }

  /** The least strictly increasing times not before the given ones, and the given ones if they already are. */
  lemma {:induction false} BumpedIsLeast(s: seq<int>, t: seq<int>)
    requires |t| == |s| && StrictlyUp(t) && forall i :: 0 <= i < |s| ==> s[i] <= t[i]
    ensures StrictlyUp(Bumped(s)) && forall i :: 0 <= i < |s| ==> s[i] <= Bumped(s)[i] <= t[i]
  {
    if |s| > 1 { BumpedIsLeast(s[..|s|-1], t[..|t|-1]); }
  }

  lemma {:induction false} BumpedUp(s: seq<int>)
    ensures StrictlyUp(Bumped(s)) && forall i :: 0 <= i < |s| ==> s[i] <= Bumped(s)[i]
  {
    if |s| > 1 { BumpedUp(s[..|s|-1]); }
  }

  lemma {:induction false} BumpedSame(s: seq<int>)
    requires StrictlyUp(s)
    ensures Bumped(s) == s
  {
    BumpedIsLeast(s, s);
  }

  /** Sorted times move by at most one tick for each time before them. */
  lemma {:induction false} BumpedNear(s: seq<int>)
    requires Sorted(s)
    ensures forall i :: 0 <= i < |s| ==> Bumped(s)[i] <= s[i] + i
  {
    if |s| > 1 { BumpedNear(s[..|s|-1]); }
  }

  method StrictlyIncreasing(dts: array<int>)
    modifies dts
    ensures dts[..] == Bumped(old(dts[..]))
  {
    ghost var s := dts[..];
    assert s == s[..dts.Length];
    if dts.Length > 0 { BumpedFirst(s); }
    var i := 1;
    while i < dts.Length
      invariant dts.Length == 0 || (1 <= i <= dts.Length && dts[..i] == Bumped(s[..i]))
      invariant forall x {:trigger dts[x]} :: i <= x < dts.Length ==> dts[x] == s[x]
    {
      BumpedNext(s, i);
      assert dts[i-1] == dts[..i][i-1];
      if dts[i] <= dts[i-1] {
        dts[i] := dts[i-1] + 1;
      }
      assert dts[..i+1] == dts[..i] + [dts[i]];
      i := i + 1;
    }
  }

  lemma BumpedFirst(s: seq<int>)
    requires s != []
    ensures Bumped(s[..1]) == s[..1]
  {
  }

  lemma BumpedNext(s: seq<int>, i: nat)
    requires 0 < i < |s|
    ensures Bumped(s[..i+1]) == Bumped(s[..i]) + [Max(s[i], Bumped(s[..i])[i-1] + 1)]
  {
    assert s[..i+1][..i] == s[..i];
  }

  // ---- the composition shift ----

  const COMPOSITION_PREFIX := 24

  /** n is where the first group of pictures ends: at the second keyframe, or the cap. */
  predicate IsPrefixLen(sync: seq<bool>, n: nat) {
    && n <= |sync| && n <= COMPOSITION_PREFIX
    && (forall i :: 0 < i < n ==> !sync[i])
    && (n < |sync| && n < COMPOSITION_PREFIX ==> n > 0 && sync[n])
  }

  /** The one such place. */
  function PrefixLen(sync: seq<bool>): (n: nat)
    ensures IsPrefixLen(sync, n)
  {
    PrefixFrom(sync, 1)
  }

  function PrefixFrom(sync: seq<bool>, i: nat): (n: nat)
    requires i > 0
    ensures n <= |sync| && n <= COMPOSITION_PREFIX && (forall j :: i <= j < n ==> !sync[j])
    ensures n < |sync| && n < COMPOSITION_PREFIX ==> n >= i && sync[n]
    decreases |sync| - i
  {
    if i >= |sync| || i >= COMPOSITION_PREFIX then if |sync| < COMPOSITION_PREFIX then |sync| else COMPOSITION_PREFIX
    else if sync[i] then i
    else PrefixFrom(sync, i + 1)
  }

  method CompositionPrefixLen(sync: seq<bool>) returns (n: nat)
    ensures IsPrefixLen(sync, n) && n == PrefixLen(sync)
  {
    n := |sync|;
    if n > COMPOSITION_PREFIX {
      n := COMPOSITION_PREFIX;
    }
    var i := 1;
    while i < n
      invariant 1 <= i && (i <= n || n < 2)
      invariant forall x :: 0 < x < i && x < n ==> !sync[x]
    {
      if sync[i] {
        return i;
      }
      i := i + 1;
    }
  }

  /** How far the sorted times run ahead of the stored ones among the first k, at least 0. */
  function Lead(sorted: seq<int>, pts: seq<int>, k: nat): (d: nat)
    requires k <= |pts| == |sorted|
  {
    if k == 0 then 0 else Max(Lead(sorted, pts, k - 1), sorted[k-1] - pts[k-1])
  }

  lemma {:induction false} LeadCovers(sorted: seq<int>, pts: seq<int>, k: nat, i: nat)
    requires i < k <= |pts| == |sorted|
    ensures sorted[i] - pts[i] <= Lead(sorted, pts, k)
    decreases k
  {
    if i < k - 1 { LeadCovers(sorted, pts, k - 1, i); }
  }

  /** How far the composition times must be shifted: what the sorted times of the first group of pictures run ahead by. */
  function Shift(pts: seq<int>, sync: seq<bool>): nat
    requires |pts| == |sync|
  {
    var m := PrefixLen(sync);
    Lead(Sort(pts[..m]), pts[..m], m)
  }

  method CompositionShift(pts: seq<int>, sync: seq<bool>) returns (shift: nat)
    requires |pts| == |sync|
    ensures shift == Shift(pts, sync)
  {
    var n := CompositionPrefixLen(sync);
    if n < 2 {
      var p := pts[..n];
      assert Sort(p) == p by { if n == 1 { assert p[..0] == []; } }
      assert n == 1 ==> Lead(p, p, n) == Max(Lead(p, p, 0), 0);
      return 0;
    }
    var dts := Sort(pts[..n]);
    shift := 0;
    for i := 0 to n
      invariant shift == Lead(dts, pts[..n], i)
    {
      var d := dts[i] - pts[i];
      if d > shift {
        shift := d;
      }
    }
  }

  // ---- the samples ----

  datatype FragSample = FragSample(ptsMs: int, sync: bool, dts: int, dur: int, cts: int)

  /** A millisecond time in the media timescale. */
  function Scale(ms: int, mts: nat): int { if mts == 1000 then ms else Quo(ms * mts, 1000) }

  /** What Go's conversion to int32 leaves of v. */
  function Int32(v: int): int { Signed(Unsigned(v, P32), P32) }

  lemma Int32Keeps(v: nat)
    ensures Int32(v) == v <==> v < 0x8000_0000
  {
    if v < 0x8000_0000 { SignedOfUnsigned(v, P32); }
  }

  /** The presentation times: the track's own ticks where it has them, else its scaled milliseconds. */
  function Pts(samples: seq<FragSample>, ptsTS: Option<seq<int>>, mts: nat): (p: seq<int>)
    requires ptsTS.Some? ==> |ptsTS.value| == |samples|
    ensures |p| == |samples|
  {
    match ptsTS
    case Some(v) => v
    case None => seq(|samples|, i requires 0 <= i < |samples| => Scale(samples[i].ptsMs, mts))
  }

  /** Decode times before they are rebased. */
  function Decode(pts: seq<int>): (d: seq<int>)
    ensures |d| == |pts|
  {
    Bumped(Sort(pts))
  }

  /** A sample's duration: up to the next decode time; the last one's is given. */
  function Duration(d: seq<int>, last: int, i: nat): int
    requires i < |d|
  {
    if i + 1 < |d| then d[i+1] - d[i] else last
  }

  /** A composition offset, never below zero. */
  function Offset(pts: seq<int>, d: seq<int>, shift: int, i: nat): int
    requires i < |d| == |pts|
  {
    Max(0, pts[i] - d[i] + shift)
  }

  function LastDuration(d: seq<int>, lastDurMs: int, mts: nat): int
    requires d != []
  {
    if lastDurMs > 0 then Scale(lastDurMs, mts) else if |d| > 1 then d[|d|-1] - d[|d|-2] else 1
  }

  function SumDurations(d: seq<int>, last: int, n: nat): int
    requires n <= |d|
  {
    if n == 0 then 0 else SumDurations(d, last, n - 1) + Duration(d, last, n - 1)
  }

  function Timed(s: FragSample, pts: seq<int>, d: seq<int>, shift: int, last: int, i: nat): FragSample
    requires i < |d| == |pts|
  {
    s.(dts := d[i] - d[0], dur := Duration(d, last, i), cts := Int32(Offset(pts, d, shift, i)))
  }

  /** The field a sample's offset is stored in keeps it exactly when it fits there. */
  lemma CtsStoredIff(s: FragSample, pts: seq<int>, d: seq<int>, shift: int, last: int, i: nat)
    requires i < |d| == |pts|
    ensures Timed(s, pts, d, shift, last, i).cts == Offset(pts, d, shift, i) <==> Offset(pts, d, shift, i) < 0x8000_0000
  {
    Int32Keeps(Offset(pts, d, shift, i));
  }

  /** Times the samples in place: decode times from the sorted presentation times, the durations between them, and offsets
      shifted by what the first group of pictures needs. */
  method FillFragTimingTS(samples: array<FragSample>, ptsTS: Option<seq<int>>, lastDur: int, mts: nat)
    returns (offsetMs: int, hasCTS: bool, totalTS: int, ctsShiftTS: nat)
    requires ptsTS.Some? ==> |ptsTS.value| == samples.Length
    modifies samples
    ensures samples.Length == 0 ==> offsetMs == 0 && !hasCTS && totalTS == 0 && ctsShiftTS == 0
    ensures samples.Length > 0 ==>
      var was := old(samples[..]);
      var pts := Pts(was, ptsTS, mts);
      var d := Decode(pts);
      var last := LastDuration(d, if ptsTS.Some? then 0 else lastDur, mts);
      var sync := seq(|was|, i requires 0 <= i < |was| => was[i].sync);
      && ctsShiftTS == Shift(pts, sync)
      && (forall i: nat {:trigger samples[i]} :: i < samples.Length ==> samples[i] == Timed(was[i], pts, d, ctsShiftTS, last, i))
      && totalTS == SumDurations(d, last, |d|)
      && (hasCTS <==> exists i: nat :: i < |d| && Offset(pts, d, ctsShiftTS, i) != 0)
      && (forall i :: 0 <= i < |was| ==> offsetMs <= was[i].ptsMs) && (exists i :: 0 <= i < |was| && offsetMs == was[i].ptsMs)
  {
    var n := samples.Length;
    if n == 0 {
      return 0, false, 0, 0;
    }
    var was := samples[..];
    var pts := Pts(was, ptsTS, mts);
    var dts := new int[n](i requires 0 <= i < n => Sort(pts)[i]);
    assert dts[..] == Sort(pts);
    StrictlyIncreasing(dts);
    var d := dts[..];
    var sync := seq(n, i requires 0 <= i < n => was[i].sync);
    ctsShiftTS := FirstShift(pts, sync);
    var last := LastDuration(d, if ptsTS.Some? then 0 else lastDur, mts);
    offsetMs, hasCTS, totalTS := Write(samples, pts, d, ctsShiftTS, last);
  }

  /** The shift, measured over no more than the first COMPOSITION_PREFIX samples. */
  method FirstShift(pts: seq<int>, sync: seq<bool>) returns (shift: nat)
    requires |pts| == |sync|
    ensures shift == Shift(pts, sync)
  {
    var k := if |pts| < COMPOSITION_PREFIX then |pts| else COMPOSITION_PREFIX;
    shift := CompositionShift(pts[..k], sync[..k]);
    PrefixLenOfPrefix(sync, k);
    assert pts[..k][..PrefixLen(sync)] == pts[..PrefixLen(sync)];
  }

  lemma PrefixLenOfPrefix(sync: seq<bool>, k: nat)
    requires k == if |sync| < COMPOSITION_PREFIX then |sync| else COMPOSITION_PREFIX
    ensures PrefixLen(sync[..k]) == PrefixLen(sync)
  {
    assert forall i :: 0 <= i < k ==> sync[..k][i] == sync[i];
    var n, m := PrefixLen(sync[..k]), PrefixLen(sync);
    assert IsPrefixLen(sync, n);
  }

  method Write(samples: array<FragSample>, pts: seq<int>, d: seq<int>, shift: int, last: int)
    returns (offsetMs: int, hasCTS: bool, totalTS: int)
    requires samples.Length == |d| == |pts| > 0
    modifies samples
    ensures forall i: nat {:trigger samples[i]} :: i < samples.Length ==>
      samples[i] == Timed(old(samples[i]), pts, d, shift, last, i)
    ensures totalTS == SumDurations(d, last, |d|)
    ensures hasCTS <==> exists i: nat :: i < |d| && Offset(pts, d, shift, i) != 0
    ensures forall i :: 0 <= i < |d| ==> offsetMs <= old(samples[i].ptsMs)
    ensures exists i :: 0 <= i < |d| && offsetMs == old(samples[i].ptsMs)
  {
    offsetMs, hasCTS, totalTS := samples[0].ptsMs, false, 0;
    ghost var was := samples[..];
    for i := 0 to samples.Length
      invariant forall x: nat {:trigger samples[x]} :: x < samples.Length ==>
        samples[x] == if x < i then Timed(was[x], pts, d, shift, last, x) else was[x]
      invariant totalTS == SumDurations(d, last, i)
      invariant hasCTS <==> exists x: nat :: x < i && Offset(pts, d, shift, x) != 0
      invariant forall x :: 0 <= x < i ==> offsetMs <= was[x].ptsMs
      invariant exists x :: 0 <= x < |d| && offsetMs == was[x].ptsMs
    {
      if samples[i].ptsMs < offsetMs {
        offsetMs := samples[i].ptsMs;
      }
      var off := pts[i] - d[i] + shift;
      if off < 0 {
        off := 0;
      }
      if off != 0 {
        hasCTS := true;
      }
      totalTS := totalTS + Duration(d, last, i);
      samples[i] := samples[i].(dts := d[i] - d[0], dur := Duration(d, last, i), cts := Int32(off));
    }
  }

  // ---- what the timing keeps ----

  /** Decode times start at 0, strictly increase and telescope with the durations, which are all positive but perhaps the
      last; the total runs from the first decode time to the end of the last sample. */
  lemma {:induction false} TimesTelescope(pts: seq<int>, last: int, n: nat)
    requires 0 < n <= |pts|
    ensures var d := Decode(pts);
      && StrictlyUp(d)
      && SumDurations(d, last, n) == d[n-1] - d[0] + Duration(d, last, n - 1)
      && (n < |d| ==> SumDurations(d, last, n) == d[n] - d[0] && Duration(d, last, n - 1) >= 1)
  {
    BumpedUp(Sort(pts));
    if n > 1 { TimesTelescope(pts, last, n - 1); }
  }

  /** What a reader presents sample i at: its decode time and offset, the edit list's shift taken back. */
  function Presented(pts: seq<int>, shift: int, i: nat): int
    requires i < |pts|
  {
    Decode(pts)[i] + Offset(pts, Decode(pts), shift, i) - shift
  }

  /** The lead is the least bound on how far the sorted times run ahead. */
  lemma {:induction false} LeadLeast(sorted: seq<int>, pts: seq<int>, k: nat, b: nat)
    requires k <= |pts| == |sorted| && forall i: nat :: i < k ==> sorted[i] - pts[i] <= b
    ensures Lead(sorted, pts, k) <= b
  {
    if k > 0 { LeadLeast(sorted, pts, k - 1, b); }
  }

  /** Every sample of the measured prefix presents exactly when it is stored if and only if the decode times run no further
      ahead of the stored ones there than the sorted times did when the shift was measured. */
  lemma PrefixPresentsIff(pts: seq<int>, m: nat)
    requires m <= |pts|
    ensures var shift := Lead(Sort(pts[..m]), pts[..m], m);
      (forall i: nat :: i < m ==> Presented(pts, shift, i) == pts[i]) <==> Lead(Decode(pts)[..m], pts[..m], m) <= shift
  {
    hide Decode, Lead, Sort;
    var d, shift := Decode(pts), Lead(Sort(pts[..m]), pts[..m], m);
    if Lead(d[..m], pts[..m], m) <= shift {
      forall i: nat | i < m ensures Presented(pts, shift, i) == pts[i] { LeadCovers(d[..m], pts[..m], m, i); }
    }
    if forall i: nat :: i < m ==> Presented(pts, shift, i) == pts[i] {
      forall i: nat | i < m ensures d[..m][i] - pts[..m][i] <= shift { assert Presented(pts, shift, i) == pts[i]; }
      LeadLeast(d[..m], pts[..m], m, shift);
    }
  }

  /** With distinct presentation times no sample of the measured prefix is clamped: every one presents exactly when it is
      stored. */
  lemma {:induction false} PrefixPresentsExactly(pts: seq<int>, m: nat)
    requires m <= |pts| && Distinct(pts)
    ensures var shift := Lead(Sort(pts[..m]), pts[..m], m);
      forall i: nat :: i < m ==> Presented(pts, shift, i) == pts[i]
  {
    hide Sort, Bumped;
    var shift := Lead(Sort(pts[..m]), pts[..m], m);
    SortedDistinct(pts);
    BumpedSame(Sort(pts));
    forall i: nat | i < m ensures Decode(pts)[..m][i] - pts[..m][i] <= shift {
      KthSmallest(pts, m, i);
      LeadCovers(Sort(pts[..m]), pts[..m], m, i);
    }
    LeadLeast(Decode(pts)[..m], pts[..m], m, shift);
    PrefixPresentsIff(pts, m);
  }

  /** Whatever the presentation times, a prefix sample is late by at most one tick for each sample before it. */
  lemma {:induction false} PrefixPresentsNear(pts: seq<int>, m: nat, i: nat)
    requires i < m <= |pts|
    ensures pts[i] <= Presented(pts, Lead(Sort(pts[..m]), pts[..m], m), i) <= pts[i] + i
  {
    SortSorts(pts);
    BumpedNear(Sort(pts));
    KthSmallest(pts, m, i);
    LeadCovers(Sort(pts[..m]), pts[..m], m, i);
  }

  /** Two blocks stamped alike can clamp: of these two, the second presents a tick late. */
  lemma EqualTimesClamp()
    ensures var pts := [0, 0]; Presented(pts, Lead(Sort(pts[..2]), pts[..2], 2), 1) == pts[1] + 1
  {
    var pts := [0, 0];
    assert pts[..1] == [0] && pts[..2] == pts && [0][..0] == [];
    assert Sort([0]) == [0];
    assert Sort(pts) == [0, 0];
  }

  /** And need not: where a reordered picture has left room, equal times present exactly. */
  lemma EqualTimesMayFit()
    ensures var pts := [2, 0, 0]; !Distinct(pts) && forall i: nat :: i < 3 ==> Presented(pts, Lead(Sort(pts[..3]), pts[..3], 3), i) == pts[i]
  {
    hide Sort, Decode, Offset, Presented;
    var pts := [2, 0, 0];
    assert pts[1] == pts[2] && pts[..3] == pts;
    RoomSorted();
    RoomDecodes();
    assert [0, 1, 2][..3] == [0, 1, 2];
    RoomLeads();
    PrefixPresentsIff(pts, 3);
  }

  lemma RoomLeads()
    ensures Lead([0, 0, 2], [2, 0, 0], 3) == 2 && Lead([0, 1, 2], [2, 0, 0], 3) == 2
  {
    assert Lead([0, 0, 2], [2, 0, 0], 1) == 0;
    assert Lead([0, 1, 2], [2, 0, 0], 1) == 0;
  }

  lemma RoomSorted()
    ensures Sort([2, 0, 0]) == [0, 0, 2]
  {
    assert [2, 0, 0][..2] == [2, 0] && [2, 0][..1] == [2] && [2][..0] == [];
    assert Sort([2]) == [2] && Sort([2, 0]) == [0, 2];
  }

  lemma RoomDecodes()
    ensures Decode([2, 0, 0]) == [0, 1, 2]
  {
    hide Sort;
    RoomSorted();
    assert [0, 0, 2][..2] == [0, 0] && [0, 0][..1] == [0];
    assert Bumped([0, 0]) == [0, 1];
  }

  /** A decode order that is the presentation order is written without offsets. */
  lemma {:induction false} InOrderNeedsNoOffsets(pts: seq<int>, m: nat, i: nat)
    requires i < |pts| && m <= |pts| && StrictlyUp(pts)
    ensures Lead(Sort(pts[..m]), pts[..m], m) == 0 && Offset(pts, Decode(pts), 0, i) == 0
  {
    SortOfSorted(pts);
    SortOfSorted(pts[..m]);
    BumpedSame(pts);
    NoLead(pts[..m], m);
  }

  lemma {:induction false} SortOfSorted(s: seq<int>)
    requires Sorted(s)
    ensures Sort(s) == s
  {
    if s != [] {
      SortOfSorted(s[..|s|-1]);
      var k := Place(s[..|s|-1], s[|s|-1]);
      assert s[..|s|-1][k..] == [];
    }
  }

  lemma {:induction false} NoLead(s: seq<int>, k: nat)
    requires k <= |s|
    ensures Lead(s, s, k) == 0
  {
    if k > 0 { NoLead(s, k - 1); }
  }
}
