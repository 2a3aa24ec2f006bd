/** Grid-timed audio, one segment window at a time (mp4/gridwindow.go).

    A window is the list of the block timecodes of its frames. `slot` maps a timecode to its
    place on the grid and stays arbitrary. */
module GridWindow {
  import opened Arith
  import Seqs

  /** A frame's own slot: its block's, plus one for every frame before it in the lace. */
  function Raw(pts: seq<int>, slot: int -> int, i: nat): int
    requires i < |pts|
  {
    if i == 0 || pts[i] != pts[i-1] then slot(pts[i]) else Raw(pts, slot, i - 1) + 1
  }

  /** The number a frame gets when the window opens on `open` (its first frame's own slot when negative). */
  function Num(pts: seq<int>, slot: int -> int, open: int, i: nat): int
    requires i < |pts|
  {
    if i == 0 then if open >= 0 then open else slot(pts[0])
    else if pts[i] != pts[i-1] then Max(slot(pts[i]), Num(pts, slot, open, i - 1) + 1)
    else Num(pts, slot, open, i - 1) + 1
  }

  /** The index past the last frame, as numbered. */
  function Natural(pts: seq<int>, slot: int -> int, open: int): int {
    if pts == [] then 1 else Num(pts, slot, open, |pts| - 1) + 1
  }

  /** The first of the window's first i frames held later than its own slot, |pts| when none is. */
  function FirstLate(pts: seq<int>, slot: int -> int, open: int, i: nat): nat
    requires i <= |pts|
  {
    if i == 0 then |pts|
    else
      var late := FirstLate(pts, slot, open, i - 1);
      if late == |pts| && Num(pts, slot, open, i - 1) > Raw(pts, slot, i - 1) then i - 1 else late
  }

  lemma {:induction false} FirstLateIsFirst(pts: seq<int>, slot: int -> int, open: int, i: nat)
    requires i <= |pts|
    ensures var late := FirstLate(pts, slot, open, i);
      && (late < i || late == |pts|)
      && (forall j: nat :: j < i && j < late ==> Num(pts, slot, open, j) <= Raw(pts, slot, j))
      && (late < |pts| ==> Num(pts, slot, open, late) > Raw(pts, slot, late))
  {
    if i > 0 { FirstLateIsFirst(pts, slot, open, i - 1); }
  }

  method GridFrames(pts: seq<int>, slot: int -> int, open: int, ks: array<int>) returns (end: int, late: nat)
    requires ks.Length == |pts|
    modifies ks
    ensures forall i: nat {:trigger ks[i]} :: i < |pts| ==> ks[i] == Num(pts, slot, open, i)
    ensures end == Natural(pts, slot, open)
    ensures late == FirstLate(pts, slot, open, |pts|)
  {
    var n := |pts|;
    late := n;
    var k, raw := 0, 0;
    var i := 0;
    while i < n
      invariant 0 <= i <= n
      invariant forall j: nat {:trigger ks[j]} :: j < i ==> ks[j] == Num(pts, slot, open, j)
      invariant i > 0 ==> k == Num(pts, slot, open, i - 1) && raw == Raw(pts, slot, i - 1)
      invariant i == 0 ==> k == 0
      invariant late == FirstLate(pts, slot, open, i)
    {
      if i == 0 {
        raw := slot(pts[0]);
        k := raw;
        if open >= 0 {
          k := open;
        }
      } else if pts[i] != pts[i-1] {
        raw := slot(pts[i]);
        k := Max(raw, k + 1);
      } else {
        raw := raw + 1;
        k := k + 1;
      }
      ks[i] := k;
      if k > raw && late == n {
        late := i;
      }
      i := i + 1;
    }
    end := k + 1;
  }

  /** Numbers never step back and advance by at least one a frame. */
  lemma {:induction false} NumAdvances(pts: seq<int>, slot: int -> int, open: int, i: nat, j: nat)
    requires i <= j < |pts|
    ensures Num(pts, slot, open, j) >= Num(pts, slot, open, i) + (j - i)
    decreases j
  {
    if i < j { NumAdvances(pts, slot, open, i, j - 1); }
  }

  function ColdEnd(pts: seq<int>, slot: int -> int): int { Natural(pts, slot, -1) }

  method GridColdEnd(pts: seq<int>, slot: int -> int) returns (end: int)
    ensures end == ColdEnd(pts, slot)
  {
    var ks := new int[|pts|];
    var late;
    end, late := GridFrames(pts, slot, -1, ks);
  }

  /** Some block does not sit on the slot right after the frame before it. */
  predicate Jitter(pts: seq<int>, slot: int -> int) {
    exists i: nat :: 0 < i < |pts| && pts[i] != pts[i-1] && slot(pts[i]) != Raw(pts, slot, i - 1) + 1
  }

  method GridJitter(pts: seq<int>, slot: int -> int) returns (jitter: bool)
    ensures jitter == Jitter(pts, slot)
  {
    var k := 0;
    for i := 0 to |pts|
      invariant i > 0 ==> k == Raw(pts, slot, i - 1)
      invariant forall j: nat :: 0 < j < i && pts[j] != pts[j-1] ==> slot(pts[j]) == Raw(pts, slot, j - 1) + 1
    {
      if i == 0 {
        k := slot(pts[0]);
      } else if pts[i] != pts[i-1] {
        var raw := slot(pts[i]);
        if raw != k + 1 {
          return true;
        }
        k := raw;
      } else {
        k := k + 1;
      }
    }
    return false;
  }

  /** A window leaves the grid exactly when its frames' own slots are not consecutive. */
  lemma {:induction false} NoJitterIsConsecutive(pts: seq<int>, slot: int -> int)
    requires pts != []
    ensures !Jitter(pts, slot) <==> forall i: nat :: i < |pts| ==> Raw(pts, slot, i) == slot(pts[0]) + i
  {
    if !Jitter(pts, slot) {
      forall i: nat | i < |pts| ensures Raw(pts, slot, i) == slot(pts[0]) + i {
        ConsecutiveUpTo(pts, slot, i);
      }
    } else {
      var i: nat :| 0 < i < |pts| && pts[i] != pts[i-1] && slot(pts[i]) != Raw(pts, slot, i - 1) + 1;
      assert Raw(pts, slot, i) == slot(pts[i]) && Raw(pts, slot, i - 1) + 1 != Raw(pts, slot, i);
    }
  }

  lemma {:induction false} ConsecutiveUpTo(pts: seq<int>, slot: int -> int, i: nat)
    requires i < |pts| && !Jitter(pts, slot)
    ensures Raw(pts, slot, i) == slot(pts[0]) + i
  {
    if i > 0 { ConsecutiveUpTo(pts, slot, i - 1); }
  }

  function Open(pts: seq<int>, slot: int -> int, prevEnd: int): int
    requires pts != []
  {
    if prevEnd > slot(pts[0]) && Jitter(pts, slot) then prevEnd else slot(pts[0])
  }

  method GridOpen(pts: seq<int>, slot: int -> int, prevEnd: int) returns (open: int)
    requires pts != []
    ensures open == Open(pts, slot, prevEnd)
  {
    open := slot(pts[0]);
    if prevEnd > open {
      var jitter := GridJitter(pts, slot);
      if jitter {
        open := prevEnd;
      }
    }
  }

  /** How many frames share the last frame's block timecode, counted back from it. */
  function TrailingRun(pts: seq<int>): nat {
    if pts == [] then 0
    else if |pts| == 1 || pts[|pts|-2] != pts[|pts|-1] then 1
    else 1 + TrailingRun(pts[..|pts|-1])
  }

  function TrackEnd(pts: seq<int>, slot: int -> int): int
    requires pts != []
  {
    slot(pts[|pts|-1]) + TrailingRun(pts)
  }

  method GridTrackEnd(pts: seq<int>, slot: int -> int) returns (end: int)
    requires pts != []
    ensures end == TrackEnd(pts, slot)
  {
    var last := pts[|pts|-1];
    var frames := 0;
    var i := |pts| - 1;
    assert pts[..i+1] == pts;
    while i >= 0 && pts[i] == last
      invariant -1 <= i < |pts| && frames == |pts| - 1 - i
      invariant forall j :: i < j < |pts| ==> pts[j] == last
      invariant TrailingRun(pts) == frames + if i < 0 || pts[i] != last then 0 else TrailingRun(pts[..i+1])
    {
      assert i >= 1 ==> pts[..i+1][..i] == pts[..i];
      frames := frames + 1;
      i := i - 1;
    }
    end := slot(last) + frames;
  }

  function EndOf(pts: seq<int>, slot: int -> int, spanEnd: int): int
    requires pts != []
  {
    if spanEnd < 0 then TrackEnd(pts, slot) else spanEnd
  }

  /** Frames numbered k and up have room before end: a tick each at least, whatever the rescaling. */
  predicate Fits(k: int, natural: int, end: int, gridTS: int) {
    end > k && (end - k) * gridTS >= natural - k
  }

  /** The frame the excess is given back from: the last one at or before j that fits, 0 when none does. */
  function Anchor(pts: seq<int>, slot: int -> int, open: int, end: int, gridTS: int, j: nat): nat
    requires j < |pts|
    ensures Anchor(pts, slot, open, end, gridTS, j) <= j
  {
    if j == 0 || Fits(Num(pts, slot, open, j), Natural(pts, slot, open), end, gridTS) then j
    else Anchor(pts, slot, open, end, gridTS, j - 1)
  }

  function SearchFrom(pts: seq<int>, slot: int -> int, open: int): nat
    requires pts != []
    ensures SearchFrom(pts, slot, open) < |pts|
  {
    var late := FirstLate(pts, slot, open, |pts|);
    if late < |pts| then late else |pts| - 1
  }

  /** x slots past k0, scaled from natural - k0 slots into end - k0. */
  function Rescale(k0: int, x: int, natural: int, end: int, gridTS: int): int
    requires natural > k0
  {
    k0 * gridTS + x * gridTS * (end - k0) / (natural - k0)
  }

  /** The decode time of frame i of a window opening on `open` and lasting up to `spanEnd`. */
  function Dts(pts: seq<int>, slot: int -> int, gridTS: int, open: int, spanEnd: int, i: nat): int
    requires i < |pts|
  {
    var end, natural := EndOf(pts, slot, spanEnd), Natural(pts, slot, open);
    var k := Num(pts, slot, open, i);
    if natural <= end then k * gridTS
    else
      var j := Anchor(pts, slot, open, end, gridTS, SearchFrom(pts, slot, open));
      var k0 := Num(pts, slot, open, j);
      if Fits(k0, natural, end, gridTS) && i >= j then Rescale(k0, k - k0, natural, end, gridTS)
      else k * gridTS
  }

  function Dur(pts: seq<int>, slot: int -> int, gridTS: int, open: int, spanEnd: int, i: nat): int
    requires i < |pts|
  {
    var d := Dts(pts, slot, gridTS, open, spanEnd, i);
    if i < |pts| - 1 then Dts(pts, slot, gridTS, open, spanEnd, i + 1) - d
    else Max(EndOf(pts, slot, spanEnd) * gridTS - d, 1)
  }

  /** The decode times of the window's frames. */
  method DecodeTimes(pts: seq<int>, slot: int -> int, gridTS: int, open: int, spanEnd: int, end: int) returns (dts: array<int>)
    requires pts != [] && end == EndOf(pts, slot, spanEnd)
    ensures fresh(dts) && dts.Length == |pts|
    ensures forall i: nat {:trigger dts[i]} :: i < |pts| ==> dts[i] == Dts(pts, slot, gridTS, open, spanEnd, i)
  {
    var n := |pts|;
    var ks := new int[n];
    var natural, late := GridFrames(pts, slot, open, ks);
    dts := new int[n];
    for i := 0 to n
      modifies dts
      invariant forall x: nat {:trigger dts[x]} :: x < i ==> dts[x] == ks[x] * gridTS
    {
      dts[i] := ks[i] * gridTS;
    }
    if natural > end {
      var j := if late < n then late else n - 1;
      while j > 0 && !Fits(ks[j], natural, end, gridTS)
        invariant 0 <= j < n
        invariant Anchor(pts, slot, open, end, gridTS, j)
          == Anchor(pts, slot, open, end, gridTS, SearchFrom(pts, slot, open))
      {
        j := j - 1;
      }
      var k0 := ks[j];
      if Fits(k0, natural, end, gridTS) {
        RescaleFrom(dts, ks, j, natural, end, gridTS);
      }
    }
  }

  /** Rescales the decode times of frame j and those after it. */
  method RescaleFrom(dts: array<int>, ks: array<int>, j: nat, natural: int, end: int, gridTS: int)
    requires j < ks.Length == dts.Length && dts != ks && natural > ks[j]
    modifies dts
    ensures forall x: nat {:trigger dts[x]} :: j <= x < dts.Length ==>
      dts[x] == Rescale(ks[j], ks[x] - ks[j], natural, end, gridTS)
    ensures forall x: nat {:trigger dts[x]} :: x < j ==> dts[x] == old(dts[x])
  {
    var k0 := ks[j];
    for i := j to ks.Length
      invariant forall x: nat {:trigger dts[x]} :: j <= x < i ==> dts[x] == Rescale(k0, ks[x] - k0, natural, end, gridTS)
      invariant forall x: nat {:trigger dts[x]} :: x < j ==> dts[x] == old(dts[x])
    {
      dts[i] := k0 * gridTS + (ks[i] - k0) * gridTS * (end - k0) / (natural - k0);
    }
  }

  function DtsList(pts: seq<int>, slot: int -> int, gridTS: int, open: int, spanEnd: int): (times: seq<int>)
    ensures |times| == |pts|
  {
    seq(|pts|, i requires 0 <= i < |pts| => Dts(pts, slot, gridTS, open, spanEnd, i))
  }

  /** How long each of the frames decoding at `times` lasts, the last one up to endTime and at least a tick. */
  function Lasting(times: seq<int>, endTime: int): (durs: seq<int>)
    ensures |durs| == |times|
  {
    seq(|times|, i requires 0 <= i < |times| =>
      if i + 1 < |times| then times[i+1] - times[i] else Max(endTime - times[i], 1))
  }

  function DurList(pts: seq<int>, slot: int -> int, gridTS: int, open: int, spanEnd: int): (durs: seq<int>)
    ensures |durs| == |pts|
  {
    if pts == [] then []
    else Lasting(DtsList(pts, slot, gridTS, open, spanEnd), EndOf(pts, slot, spanEnd) * gridTS)
  }

  method StoreTimes(dts: array<int>, endTime: int, from: nat, dtsTS: array<int>, durTS: array<int>)
    requires dts.Length > 0 && dtsTS != durTS && dts != dtsTS && dts != durTS
    requires from + dts.Length <= dtsTS.Length && dtsTS.Length == durTS.Length
    modifies dtsTS, durTS
    ensures dtsTS[..] == old(dtsTS[..from]) + dts[..] + old(dtsTS[from + dts.Length..])
    ensures durTS[..] == old(durTS[..from]) + Lasting(dts[..], endTime) + old(durTS[from + dts.Length..])
  {
    var n := dts.Length;
    for i := 0 to n - 1
      modifies dtsTS, durTS
      invariant forall x {:trigger dtsTS[x]} {:trigger durTS[x]} :: 0 <= x < dtsTS.Length ==>
        if from <= x < from + i then dtsTS[x] == dts[x-from] && durTS[x] == dts[x-from+1] - dts[x-from]
        else dtsTS[x] == old(dtsTS[x]) && durTS[x] == old(durTS[x])
    {
      dtsTS[from + i], durTS[from + i] := dts[i], dts[i+1] - dts[i];
    }
    dtsTS[from + n - 1], durTS[from + n - 1] := dts[n-1], Max(endTime - dts[n-1], 1);
  }

  /** Times the window's frames into dtsTS and durTS from index `from` on, and nothing else of them. */
  method GridTime(pts: seq<int>, slot: int -> int, gridTS: int, open: int, spanEnd: int,
                  from: nat, dtsTS: array<int>, durTS: array<int>)
    requires pts != [] && dtsTS != durTS
    requires from + |pts| <= dtsTS.Length && dtsTS.Length == durTS.Length
    modifies dtsTS, durTS
    ensures dtsTS[..] == old(dtsTS[..from]) + DtsList(pts, slot, gridTS, open, spanEnd) + old(dtsTS[from + |pts|..])
    ensures durTS[..] == old(durTS[..from]) + DurList(pts, slot, gridTS, open, spanEnd) + old(durTS[from + |pts|..])
  {
    var end := spanEnd;
    if end < 0 {
      end := GridTrackEnd(pts, slot);
    }
    var dts := DecodeTimes(pts, slot, gridTS, open, spanEnd, end);
    assert dts[..] == DtsList(pts, slot, gridTS, open, spanEnd);
    StoreTimes(dts, end * gridTS, from, dtsTS, durTS);
  }

  // ---- the search for a frame with room ----

  /** A later frame that fits leaves room for every earlier one. */
  lemma FitsEarlier(k: int, k': int, natural: int, end: int, gridTS: int)
    requires gridTS >= 1 && k <= k' && Fits(k', natural, end, gridTS)
    ensures Fits(k, natural, end, gridTS)
  {
    Distribute(end - k', k' - k, gridTS);
    MulLe(1, gridTS, k' - k);
  }

  /** The backward search finds a fitting frame exactly when the first frame fits, and then the last one at or
      before where it started. */
  lemma {:induction false} AnchorFits(pts: seq<int>, slot: int -> int, open: int, end: int, gridTS: int, j: nat)
    requires j < |pts| && gridTS >= 1
    ensures var a := Anchor(pts, slot, open, end, gridTS, j);
      && a <= j
      && (Fits(Num(pts, slot, open, a), Natural(pts, slot, open), end, gridTS)
          <==> Fits(Num(pts, slot, open, 0), Natural(pts, slot, open), end, gridTS))
      && forall i: nat :: a < i <= j ==> !Fits(Num(pts, slot, open, i), Natural(pts, slot, open), end, gridTS)
  {
    var natural := Natural(pts, slot, open);
    if Fits(Num(pts, slot, open, j), natural, end, gridTS) {
      NumAdvances(pts, slot, open, 0, j);
      FitsEarlier(Num(pts, slot, open, 0), Num(pts, slot, open, j), natural, end, gridTS);
    } else if j > 0 {
      AnchorFits(pts, slot, open, end, gridTS, j - 1);
    }
  }

  // ---- rescaling ----

  /** Rescaled times strictly increase and come no later than the natural ones. */
  lemma RescaleSpreads(k0: int, x: int, y: int, natural: int, end: int, gridTS: int)
    requires gridTS >= 1 && natural > k0 && Fits(k0, natural, end, gridTS)
    requires 0 <= x < y
    ensures Rescale(k0, x, natural, end, gridTS) < Rescale(k0, y, natural, end, gridTS)
  {
    var d, m := natural - k0, (end - k0) * gridTS;
    MulMul(x, gridTS, end - k0); MulMul(y, gridTS, end - k0);
    MulLt(x, y, m);
    DivStep(x * m, y * m, d);
  }

  lemma RescaleNotLater(k0: int, x: int, natural: int, end: int, gridTS: int)
    requires gridTS >= 1 && natural > k0 && natural >= end > k0 && x >= 0
    ensures Rescale(k0, x, natural, end, gridTS) <= (k0 + x) * gridTS
  {
    var d, m := natural - k0, end - k0;
    MulPos(x, gridTS);
    MulLe(m, d, x * gridTS);
    DivLe(x * gridTS * m, x * gridTS, d);
    Distribute(k0, x, gridTS);
  }

  /** Scaling all the slots left lands on the window's end. */
  lemma RescaleLands(k0: int, natural: int, end: int, gridTS: int)
    requires natural > k0
    ensures Rescale(k0, 0, natural, end, gridTS) == k0 * gridTS
    ensures Rescale(k0, natural - k0, natural, end, gridTS) == end * gridTS
  {
    var d, m := natural - k0, (end - k0) * gridTS;
    MulRotate(d, gridTS, end - k0);
    DivExact(m, d);
    Distribute(end, k0, gridTS);
    MulRotate(0, gridTS, end - k0);
    DivExact(0, d);
  }

  // ---- tiling ----

  ghost function TotalDur(pts: seq<int>, slot: int -> int, gridTS: int, open: int, spanEnd: int, upTo: nat): int
    requires upTo <= |pts|
  {
    if upTo == 0 then 0
    else TotalDur(pts, slot, gridTS, open, spanEnd, upTo - 1) + Dur(pts, slot, gridTS, open, spanEnd, upTo - 1)
  }

  lemma {:induction false} TotalTelescopes(pts: seq<int>, slot: int -> int, gridTS: int, open: int, spanEnd: int, upTo: nat)
    requires upTo < |pts|
    ensures TotalDur(pts, slot, gridTS, open, spanEnd, upTo)
      == Dts(pts, slot, gridTS, open, spanEnd, upTo) - Dts(pts, slot, gridTS, open, spanEnd, 0)
  {
    if upTo > 0 { TotalTelescopes(pts, slot, gridTS, open, spanEnd, upTo - 1); }
  }

  /** What the excess is given back with: the anchor frame's number, and whether it fits. */
  function AnchorNum(pts: seq<int>, slot: int -> int, open: int, end: int, gridTS: int): int
    requires pts != []
  {
    Num(pts, slot, open, Anchor(pts, slot, open, end, gridTS, SearchFrom(pts, slot, open)))
  }

  lemma {:induction false} AnchorNumFits(pts: seq<int>, slot: int -> int, open: int, end: int, gridTS: int)
    requires pts != [] && gridTS >= 1
    ensures var k0 := AnchorNum(pts, slot, open, end, gridTS);
      && Num(pts, slot, open, 0) <= k0 < Natural(pts, slot, open)
      && (Fits(k0, Natural(pts, slot, open), end, gridTS)
          <==> Fits(Num(pts, slot, open, 0), Natural(pts, slot, open), end, gridTS))
  {
    var s := SearchFrom(pts, slot, open);
    var j := Anchor(pts, slot, open, end, gridTS, s);
    AnchorFits(pts, slot, open, end, gridTS, s);
    NumAdvances(pts, slot, open, 0, j);
    NumAdvances(pts, slot, open, j, |pts| - 1);
  }

  /** The decode time of slot number k in a window whose excess, if any, is given back from k0 on. */
  function TimeOf(k: int, k0: int, natural: int, end: int, gridTS: int): int
    requires k0 < natural
  {
    if natural > end && Fits(k0, natural, end, gridTS) && k >= k0 then Rescale(k0, k - k0, natural, end, gridTS)
    else k * gridTS
  }

  lemma {:induction false} DtsIsTimeOf(pts: seq<int>, slot: int -> int, gridTS: int, open: int, spanEnd: int, i: nat)
    requires i < |pts| && gridTS >= 1
    ensures var end := EndOf(pts, slot, spanEnd);
      var k0 := AnchorNum(pts, slot, open, end, gridTS);
      && k0 < Natural(pts, slot, open)
      && Dts(pts, slot, gridTS, open, spanEnd, i)
         == TimeOf(Num(pts, slot, open, i), k0, Natural(pts, slot, open), end, gridTS)
  {
    var end := EndOf(pts, slot, spanEnd);
    var j := Anchor(pts, slot, open, end, gridTS, SearchFrom(pts, slot, open));
    AnchorNumFits(pts, slot, open, end, gridTS);
    if i >= j { NumAdvances(pts, slot, open, j, i); } else { NumAdvances(pts, slot, open, i, j); }
  }

  lemma TimeOfIncreases(k: int, k': int, k0: int, natural: int, end: int, gridTS: int)
    requires gridTS >= 1 && k0 < natural && k < k'
    ensures TimeOf(k, k0, natural, end, gridTS) < TimeOf(k', k0, natural, end, gridTS)
  {
    MulLt(k, k', gridTS);
    if natural > end && Fits(k0, natural, end, gridTS) && k' >= k0 {
      RescaleLands(k0, natural, end, gridTS);
      if k >= k0 {
        RescaleSpreads(k0, k - k0, k' - k0, natural, end, gridTS);
      } else {
        MulLt(k, k0, gridTS);
        if k' > k0 { RescaleSpreads(k0, 0, k' - k0, natural, end, gridTS); }
      }
    }
  }

  lemma TimeOfNotLater(k: int, k0: int, natural: int, end: int, gridTS: int)
    requires gridTS >= 1 && k0 < natural
    ensures TimeOf(k, k0, natural, end, gridTS) <= k * gridTS
  {
    if natural > end && Fits(k0, natural, end, gridTS) && k >= k0 {
      RescaleNotLater(k0, k - k0, natural, end, gridTS);
    }
  }

  /** The last slot's time is before the end exactly when the anchor frame fits. */
  lemma TimeOfLast(k0: int, natural: int, end: int, gridTS: int)
    requires gridTS >= 1 && k0 < natural
    ensures Fits(k0, natural, end, gridTS)
      <==> TimeOf(natural - 1, k0, natural, end, gridTS) < end * gridTS
  {
    if natural <= end {
      MulLt(natural - 1, end, gridTS);
      MulLe(1, gridTS, end - k0);
    } else if Fits(k0, natural, end, gridTS) {
      RescaleSpreads(k0, natural - 1 - k0, natural - k0, natural, end, gridTS);
      RescaleLands(k0, natural, end, gridTS);
    } else {
      MulLe(end, natural - 1, gridTS);
    }
  }

  /** Decode times strictly increase, and the last one is before the window's end exactly when the first frame fits. */
  lemma DtsSteps(pts: seq<int>, slot: int -> int, gridTS: int, open: int, spanEnd: int, i: nat)
    requires i < |pts| && gridTS >= 1
    ensures i + 1 < |pts| ==> Dts(pts, slot, gridTS, open, spanEnd, i) < Dts(pts, slot, gridTS, open, spanEnd, i + 1)
  {
    var n, end, natural := |pts|, EndOf(pts, slot, spanEnd), Natural(pts, slot, open);
    if i + 1 < n {
      var k0 := AnchorNum(pts, slot, open, end, gridTS);
      DtsIsTimeOf(pts, slot, gridTS, open, spanEnd, i);
      DtsIsTimeOf(pts, slot, gridTS, open, spanEnd, i + 1);
      NumAdvances(pts, slot, open, i, i + 1);
      TimeOfIncreases(Num(pts, slot, open, i), Num(pts, slot, open, i + 1), k0, natural, end, gridTS);
    }
  }

  lemma {:induction false} DtsEnds(pts: seq<int>, slot: int -> int, gridTS: int, open: int, spanEnd: int)
    requires pts != [] && gridTS >= 1
    ensures Fits(Num(pts, slot, open, 0), Natural(pts, slot, open), EndOf(pts, slot, spanEnd), gridTS)
      <==> Dts(pts, slot, gridTS, open, spanEnd, |pts| - 1) < EndOf(pts, slot, spanEnd) * gridTS
    ensures Dts(pts, slot, gridTS, open, spanEnd, 0) == Num(pts, slot, open, 0) * gridTS
  {
    var n, end, natural := |pts|, EndOf(pts, slot, spanEnd), Natural(pts, slot, open);
    var k0 := AnchorNum(pts, slot, open, end, gridTS);
    AnchorNumFits(pts, slot, open, end, gridTS);
    DtsIsTimeOf(pts, slot, gridTS, open, spanEnd, n - 1);
    DtsIsTimeOf(pts, slot, gridTS, open, spanEnd, 0);
    TimeOfLast(k0, natural, end, gridTS);
    RescaleLands(k0, natural, end, gridTS);
  }

  /** Every frame lasts a tick at least and decode times strictly increase; the durations sum to exactly the span
      from the window's first frame to where the next one opens if and only if the first frame fits. */
  lemma {:induction false} WindowTiles(pts: seq<int>, slot: int -> int, gridTS: int, open: int, spanEnd: int)
    requires pts != [] && gridTS >= 1
    ensures forall i: nat :: i < |pts| ==> Dur(pts, slot, gridTS, open, spanEnd, i) >= 1
    ensures forall i: nat :: i + 1 < |pts| ==>
      Dts(pts, slot, gridTS, open, spanEnd, i) < Dts(pts, slot, gridTS, open, spanEnd, i + 1)
    ensures var first, end := Num(pts, slot, open, 0), EndOf(pts, slot, spanEnd);
      TotalDur(pts, slot, gridTS, open, spanEnd, |pts|) == (end - first) * gridTS
      <==> Fits(first, Natural(pts, slot, open), end, gridTS)
  {
    forall i: nat | i < |pts|
      ensures Dur(pts, slot, gridTS, open, spanEnd, i) >= 1
      ensures i + 1 < |pts| ==>
        Dts(pts, slot, gridTS, open, spanEnd, i) < Dts(pts, slot, gridTS, open, spanEnd, i + 1)
    {
      DtsSteps(pts, slot, gridTS, open, spanEnd, i);
    }
    DtsEnds(pts, slot, gridTS, open, spanEnd);
    TotalTelescopes(pts, slot, gridTS, open, spanEnd, |pts| - 1);
    Distribute(EndOf(pts, slot, spanEnd), Num(pts, slot, open, 0), gridTS);
  }

  /** Frames ahead of the one the excess is given back from keep their natural times; none is ever moved later. */
  lemma {:induction false} ExcessGivenBackLate(pts: seq<int>, slot: int -> int, gridTS: int, open: int, spanEnd: int, i: nat)
    requires i < |pts| && gridTS >= 1
    ensures Dts(pts, slot, gridTS, open, spanEnd, i) <= Num(pts, slot, open, i) * gridTS
    ensures Natural(pts, slot, open) <= EndOf(pts, slot, spanEnd)
      || i < Anchor(pts, slot, open, EndOf(pts, slot, spanEnd), gridTS, SearchFrom(pts, slot, open))
      ==> Dts(pts, slot, gridTS, open, spanEnd, i) == Num(pts, slot, open, i) * gridTS
  {
    var end := EndOf(pts, slot, spanEnd);
    DtsIsTimeOf(pts, slot, gridTS, open, spanEnd, i);
    TimeOfNotLater(Num(pts, slot, open, i), AnchorNum(pts, slot, open, end, gridTS),
                   Natural(pts, slot, open), end, gridTS);
  }

  /** No product GridTime forms leaves int64 when the numbers involved stay within b and b*b*gridTS within int64. */
  lemma {:induction false} ProductsFitInt64(pts: seq<int>, slot: int -> int, gridTS: int, open: int, spanEnd: int, b: int, i: nat, j: nat)
    requires i < |pts| && j <= i && gridTS >= 1 && Num(pts, slot, open, 0) >= 0
    requires Natural(pts, slot, open) <= b && 0 <= EndOf(pts, slot, spanEnd) <= b && b * b * gridTS <= MAX_INT64
    ensures var k, k0, end := Num(pts, slot, open, i), Num(pts, slot, open, j), EndOf(pts, slot, spanEnd);
      && 0 <= k * gridTS <= MAX_INT64 && 0 <= end * gridTS <= MAX_INT64
      && (end > k0 ==> 0 <= (k - k0) * gridTS * (end - k0) <= MAX_INT64)
  {
    NumAdvances(pts, slot, open, 0, j);
    NumAdvances(pts, slot, open, j, i);
    NumAdvances(pts, slot, open, i, |pts| - 1);
    ProductsWithin(Num(pts, slot, open, i), Num(pts, slot, open, j), EndOf(pts, slot, spanEnd), gridTS, b);
  }

  lemma ProductsWithin(k: int, k0: int, end: int, gridTS: int, b: int)
    requires 0 <= k0 <= k < b && 0 <= end <= b && gridTS >= 1 && b * b * gridTS <= MAX_INT64
    ensures 0 <= k * gridTS <= MAX_INT64 && 0 <= end * gridTS <= MAX_INT64
    ensures end > k0 ==> 0 <= (k - k0) * gridTS * (end - k0) <= MAX_INT64
  {
    MulLe(1, b, b);
    MulLe(b, b * b, gridTS);
    MulLe(0, k, gridTS); MulLe(k, b, gridTS);
    MulLe(0, end, gridTS); MulLe(end, b, gridTS);
    if end > k0 {
      var x, y := k - k0, end - k0;
      MulMul(x, gridTS, y);
      MulLe(0, x, y); MulLe(x, b, y); MulLe(y, b, b);
      assert x * y <= b * b;
      MulLe(0, x * y, gridTS); MulLe(x * y, b * b, gridTS);
    }
  }

  // ---- a whole track, window by window ----

  function SegEnd(bounds: seq<int>, k: nat): int {
    if k + 1 < |bounds| then bounds[k+1] else MAX_INT64
  }

  /** How many frames come before the first whose timecode reaches limit. */
  function Under(pts: seq<int>, limit: int): (n: nat)
    ensures n <= |pts|
  {
    if pts != [] && pts[0] < limit then 1 + Under(pts[1..], limit) else 0
  }

  /** The frames of windows k, k+1, ..., the windows cut at bounds: a frame belongs to the window its timecode is under. */
  function Cut(pts: seq<int>, bounds: seq<int>, k: nat): (wins: seq<seq<int>>)
    ensures |wins| == if k < |bounds| then |bounds| - k else 0
    decreases |bounds| - k
  {
    if k >= |bounds| then []
    else
      var n := Under(pts, SegEnd(bounds, k));
      [pts[..n]] + Cut(pts[n..], bounds, k + 1)
  }

  /** How many frames windows k, k+1, ... hold. */
  function Held(wins: seq<seq<int>>, k: nat): nat
    requires k <= |wins|
    decreases |wins| - k
  {
    if k == |wins| then 0 else |wins[k]| + Held(wins, k + 1)
  }

  function PrevEnd(wins: seq<seq<int>>, slot: int -> int, k: nat): int
    requires k < |wins|
  {
    if k > 0 && wins[k-1] != [] then ColdEnd(wins[k-1], slot) else -1
  }

  /** Where window k opens: a function of it and the window before it. */
  function Opening(wins: seq<seq<int>>, slot: int -> int, k: nat): int
    requires k < |wins|
  {
    if wins[k] == [] then -1 else Open(wins[k], slot, PrevEnd(wins, slot, k))
  }

  /** Where window k ends: the opening of the next window with a frame, -1 for the last. */
  function Closing(wins: seq<seq<int>>, slot: int -> int, k: nat): int
    requires k < |wins|
    decreases |wins| - k
  {
    if k + 1 == |wins| then -1
    else if wins[k+1] != [] then Opening(wins, slot, k + 1)
    else Closing(wins, slot, k + 1)
  }

  /** Window k's decode times. */
  function WindowDts(wins: seq<seq<int>>, slot: int -> int, gridTS: int, k: nat): (times: seq<int>)
    requires k < |wins|
    ensures |times| == |wins[k]|
  {
    DtsList(wins[k], slot, gridTS, Opening(wins, slot, k), Closing(wins, slot, k))
  }

  function WindowDur(wins: seq<seq<int>>, slot: int -> int, gridTS: int, k: nat): (durs: seq<int>)
    requires k < |wins|
    ensures |durs| == |wins[k]|
  {
    DurList(wins[k], slot, gridTS, Opening(wins, slot, k), Closing(wins, slot, k))
  }

  /** The track's decode times from window k on, and its durations. */
  function TrackDts(wins: seq<seq<int>>, slot: int -> int, gridTS: int, k: nat): (times: seq<int>)
    requires k <= |wins|
    ensures |times| == Held(wins, k)
    decreases |wins| - k
  {
    if k == |wins| then [] else WindowDts(wins, slot, gridTS, k) + TrackDts(wins, slot, gridTS, k + 1)
  }

  function TrackDur(wins: seq<seq<int>>, slot: int -> int, gridTS: int, k: nat): (durs: seq<int>)
    requires k <= |wins|
    ensures |durs| == Held(wins, k)
    decreases |wins| - k
  {
    if k == |wins| then [] else WindowDur(wins, slot, gridTS, k) + TrackDur(wins, slot, gridTS, k + 1)
  }

  /** Window q's frames as an index range of the track. */
  datatype Span = Span(from: int, to: int)

  /** span is window q's index range, the windows holding the first `held` frames of the track. */
  ghost predicate IsSpan(pts: seq<int>, wins: seq<seq<int>>, q: nat, span: Span, held: nat)
    requires q < |wins|
  {
    && span.from + Held(wins, q) == held && span.to + Held(wins, q + 1) == held
    && 0 <= span.from <= span.to <= |pts| && pts[span.from..span.to] == wins[q]
  }

  ghost predicate Spans(pts: seq<int>, wins: seq<seq<int>>, spans: seq<Span>, held: nat) {
    && |spans| <= |wins|
    && forall q: nat {:trigger spans[q]} :: q < |spans| ==> IsSpan(pts, wins, q, spans[q], held)
  }

  method EndOfWindow(pts: seq<int>, from: nat, segEnd: int) returns (to: nat)
    requires from <= |pts|
    ensures to == from + Under(pts[from..], segEnd) <= |pts|
  {
    to := from;
    while to < |pts| && pts[to] < segEnd
      invariant from <= to <= |pts|
      invariant Under(pts[from..], segEnd) == to - from + Under(pts[to..], segEnd)
    {
      assert pts[to..][1..] == pts[to+1..];
      to := to + 1;
    }
  }

  /** Windows k and on are what the frames from index j on are cut into. */
  ghost predicate CutSoFar(pts: seq<int>, bounds: seq<int>, wins: seq<seq<int>>, k: nat, j: nat, held: nat) {
    && k <= |wins| == |bounds| && j <= held <= |pts|
    && wins[k..] == Cut(pts[j..], bounds, k)
    && j + Held(wins, k) == held
  }

  lemma CutStep(pts: seq<int>, bounds: seq<int>, wins: seq<seq<int>>, k: nat, from: nat, to: nat, held: nat)
    requires CutSoFar(pts, bounds, wins, k, from, held) && k < |bounds|
    requires to == from + Under(pts[from..], SegEnd(bounds, k))
    ensures from <= to <= |pts| && pts[from..to] == wins[k]
    ensures CutSoFar(pts, bounds, wins, k + 1, to, held)
  {
    var rest := pts[from..];
    Seqs.DropDrop(pts, from, to - from);
    assert wins[k..] == [rest[..to-from]] + Cut(rest[to-from..], bounds, k + 1);
    assert wins[k] == wins[k..][0] && wins[k+1..] == wins[k..][1..];
  }

  lemma {:induction false} CutHeld(pts: seq<int>, bounds: seq<int>, wins: seq<seq<int>>, k: nat, j: nat)
    requires k <= |wins| == |bounds| && j <= |pts| && wins[k..] == Cut(pts[j..], bounds, k)
    ensures j + Held(wins, k) <= |pts|
    decreases |wins| - k
  {
    if k < |wins| {
      var n := Under(pts[j..], SegEnd(bounds, k));
      Seqs.DropDrop(pts, j, n);
      assert wins[k] == wins[k..][0] && wins[k+1..] == wins[k..][1..];
      CutHeld(pts, bounds, wins, k + 1, j + n);
    }
  }

  method CutWindows(pts: seq<int>, bounds: seq<int>) returns (spans: seq<Span>)
    ensures var wins := Cut(pts, bounds, 0);
      |spans| == |wins| && Held(wins, 0) <= |pts| && Spans(pts, wins, spans, Held(wins, 0))
  {
    spans := [];
    ghost var wins := Cut(pts, bounds, 0);
    ghost var held := Held(wins, 0);
    var j := 0;
    assert pts[0..] == pts && wins[0..] == wins;
    CutHeld(pts, bounds, wins, 0, 0);
    for k := 0 to |bounds|
      invariant CutSoFar(pts, bounds, wins, k, j, held) && |spans| == k
      invariant Spans(pts, wins, spans, held)
    {
      var segEnd := MAX_INT64;
      if k + 1 < |bounds| {
        segEnd := bounds[k+1];
      }
      var from := j;
      j := EndOfWindow(pts, from, segEnd);
      CutStep(pts, bounds, wins, k, from, j, held);
      spans := spans + [Span(from, j)];
    }
  }

  method OpenWindows(pts: seq<int>, slot: int -> int, ghost wins: seq<seq<int>>, spans: seq<Span>, ghost held: nat) returns (open: seq<int>)
    requires |spans| == |wins| && Spans(pts, wins, spans, held)
    ensures |open| == |wins|
    ensures forall q: nat {:trigger open[q]} :: q < |wins| ==> open[q] == Opening(wins, slot, q)
  {
    open := [];
    for k := 0 to |spans|
      invariant |open| == k
      invariant forall q: nat {:trigger open[q]} :: q < k ==> open[q] == Opening(wins, slot, q)
    {
      var w := spans[k];
      var opening := -1;
      if w.to != w.from {
        var prevEnd := -1;
        if k > 0 && spans[k-1].to > spans[k-1].from {
          var pw := spans[k-1];
          prevEnd := GridColdEnd(pts[pw.from..pw.to], slot);
        }
        opening := GridOpen(pts[w.from..w.to], slot, prevEnd);
      }
      open := open + [opening];
    }
  }

  /** Times window k, when it has a frame, and returns where the window before it ends. */
  method TimeOneWindow(pts: seq<int>, ghost wins: seq<seq<int>>, k: nat, w: Span, slot: int -> int, gridTS: int,
                       open: int, end: int, dtsTS: array<int>, durTS: array<int>) returns (end': int)
    requires k < |wins| && 0 <= w.from <= w.to <= |pts| && pts[w.from..w.to] == wins[k]
    requires open == Opening(wins, slot, k) && end == Closing(wins, slot, k)
    requires dtsTS != durTS && dtsTS.Length == durTS.Length == |pts|
    modifies dtsTS, durTS
    ensures dtsTS[..] == old(dtsTS[..w.from]) + WindowDts(wins, slot, gridTS, k) + old(dtsTS[w.to..])
    ensures durTS[..] == old(durTS[..w.from]) + WindowDur(wins, slot, gridTS, k) + old(durTS[w.to..])
    ensures k > 0 ==> end' == Closing(wins, slot, k - 1)
  {
    end' := end;
    if w.to != w.from {
      GridTime(pts[w.from..w.to], slot, gridTS, open, end, w.from, dtsTS, durTS);
      end' := open;
    }
  }

  /** Times every window of a track, last window first, each up to where the one after it opens; a frame no window
      holds keeps what it had. */
  method GridTimeWindows(pts: seq<int>, bounds: seq<int>, slot: int -> int, gridTS: int,
                         dtsTS: array<int>, durTS: array<int>)
    requires dtsTS != durTS && dtsTS.Length == durTS.Length == |pts|
    modifies dtsTS, durTS
    ensures var wins := Cut(pts, bounds, 0);
      && Held(wins, 0) <= |pts|
      && dtsTS[..] == TrackDts(wins, slot, gridTS, 0) + old(dtsTS[..])[Held(wins, 0)..]
      && durTS[..] == TrackDur(wins, slot, gridTS, 0) + old(durTS[..])[Held(wins, 0)..]
  {
    ghost var wins := Cut(pts, bounds, 0);
    ghost var held := Held(wins, 0);
    var spans := CutWindows(pts, bounds);
    var open := OpenWindows(pts, slot, wins, spans, held);
    var end := -1;
    var k := |spans| - 1;
    ghost var restDts, restDur := dtsTS[..][held..], durTS[..][held..];
    assert dtsTS[..][held..] == [] + restDts && durTS[..][held..] == [] + restDur;
    while k >= 0
      invariant -1 <= k < |spans| && Held(wins, k + 1) <= held
      invariant k >= 0 ==> end == Closing(wins, slot, k)
      invariant Landed(dtsTS[..], held - Held(wins, k + 1), TrackDts(wins, slot, gridTS, k + 1), restDts)
      invariant Landed(durTS[..], held - Held(wins, k + 1), TrackDur(wins, slot, gridTS, k + 1), restDur)
    {
      var w := spans[k];
      ghost var dts0, dur0 := dtsTS[..], durTS[..];
      end := TimeOneWindow(pts, wins, k, w, slot, gridTS, open[k], end, dtsTS, durTS);
      LandStep(dts0, dtsTS[..], w.from, w.to, WindowDts(wins, slot, gridTS, k), TrackDts(wins, slot, gridTS, k + 1), restDts);
      LandStep(dur0, durTS[..], w.from, w.to, WindowDur(wins, slot, gridTS, k), TrackDur(wins, slot, gridTS, k + 1), restDur);
      k := k - 1;
    }
  }

  ghost predicate Landed(times: seq<int>, at: nat, track: seq<int>, rest: seq<int>) {
    at <= |times| && times[at..] == track + rest
  }

  lemma LandStep(before: seq<int>, after: seq<int>, from: nat, to: nat, mid: seq<int>, track: seq<int>, rest: seq<int>)
    requires from <= to && Landed(before, to, track, rest)
    requires after == before[..from] + mid + before[to..]
    ensures Landed(after, from, mid + track, rest)
  {
  }

  /** Windows abut: when window k's first frame fits before its closing, its last frame ends exactly where the first
      frame of the next window decodes. */
  lemma WindowsAbut(wins: seq<seq<int>>, slot: int -> int, gridTS: int, k: nat)
    requires k < |wins| && gridTS >= 1 && wins[k] != [] && Closing(wins, slot, k) >= 0
    requires Fits(Num(wins[k], slot, Opening(wins, slot, k), 0), Natural(wins[k], slot, Opening(wins, slot, k)),
                  Closing(wins, slot, k), gridTS)
    ensures var q, n := NextWindow(wins, k), |wins[k]|;
      && k < q < |wins| && wins[q] != [] && Held(wins, q) == Held(wins, k + 1)
      && WindowDts(wins, slot, gridTS, k)[n-1] + WindowDur(wins, slot, gridTS, k)[n-1]
         == WindowDts(wins, slot, gridTS, q)[0]
  {
    NextWindowCloses(wins, slot, k);
    var w, open, end := wins[k], Opening(wins, slot, k), Closing(wins, slot, k);
    DtsEnds(w, slot, gridTS, open, end);
    var q := NextWindow(wins, k);
    DtsEnds(wins[q], slot, gridTS, end, Closing(wins, slot, q));
  }

  function NextWindow(wins: seq<seq<int>>, k: nat): nat
    decreases |wins| - k
  {
    if k + 1 >= |wins| || wins[k+1] != [] then k + 1 else NextWindow(wins, k + 1)
  }

  lemma {:induction false} NextWindowCloses(wins: seq<seq<int>>, slot: int -> int, k: nat)
    requires k < |wins| && Closing(wins, slot, k) >= 0
    ensures var q := NextWindow(wins, k);
      && k < q < |wins| && wins[q] != [] && Held(wins, q) == Held(wins, k + 1)
      && Opening(wins, slot, q) == Closing(wins, slot, k)
    decreases |wins| - k
  {
    if wins[k+1] == [] { NextWindowCloses(wins, slot, k + 1); }
  }
}
