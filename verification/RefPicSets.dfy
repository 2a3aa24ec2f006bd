/** Short-term reference picture sets (mp4/cenc_slice.go, parseSTRPS; section 7.4.8 of ITU-T H.265): picture order counts
    relative to the current picture, those before it nearest first, then those after it nearest first. */
module RefPicSets {
  import opened Bytes
  import opened NalReading

  /** A set: the earlier pictures, the later ones, and of each whether the current picture refers to it. */
  datatype RefSet = RefSet(s0: seq<int>, used0: seq<bool>, s1: seq<int>, used1: seq<bool>)

  function NumDeltaPocs(r: RefSet): nat { |r.s0| + |r.s1| }

  predicate Down(s: seq<int>) {
    forall i, j :: 0 <= i < j < |s| ==> s[i] > s[j]
  }

  predicate Up(s: seq<int>) {
    forall i, j :: 0 <= i < j < |s| ==> s[i] < s[j]
  }

  /** Earlier pictures strictly decreasing below zero, later ones strictly increasing above it, a flag for each. */
  predicate Ordered(r: RefSet) {
    && |r.used0| == |r.s0| && |r.used1| == |r.s1|
    && Down(r.s0) && Up(r.s1)
    && (forall i :: 0 <= i < |r.s0| ==> r.s0[i] < 0)
    && (forall i :: 0 <= i < |r.s1| ==> r.s1[i] > 0)
  }

  predicate Bounded(r: RefSet, m: nat) {
    && (forall i :: 0 <= i < |r.s0| ==> r.s0[i] + m >= 0)
    && (forall i :: 0 <= i < |r.s1| ==> r.s1[i] <= m)
  }

  /** What the idx-th set of a list satisfies: in order, at most 32 pictures, and no further away than the longest chain of
      predictions before it reaches, far inside an int32. */
  predicate Accepted(r: RefSet, idx: nat) {
    Ordered(r) && NumDeltaPocs(r) <= 32 && Bounded(r, Reach(idx))
  }

  function Reach(idx: nat): nat { (16 + idx) * 0x8000 }

  lemma ReachFitsInt32(idx: nat)
    requires idx <= 64
    ensures Reach(idx) + 0x8000 < 0x8000_0000
  {
  }

  // ---- prediction ----

  /** A picture an earlier set leads to: its distance, whether it is used and whether it is kept. */
  datatype Candidate = Candidate(d: int, used: bool, use: bool)

  /** Every candidate of a prediction from ref, the furthest after the current picture first: ref's later pictures, the
      current picture's own place in ref, and ref's earlier pictures, all moved by delta. */
  function Candidates(ref: RefSet, delta: int, used: seq<bool>, use: seq<bool>): (c: seq<Candidate>)
    requires |used| == |use| == NumDeltaPocs(ref) + 1
    ensures |c| == NumDeltaPocs(ref) + 1
  {
    seq(NumDeltaPocs(ref) + 1, p requires 0 <= p < NumDeltaPocs(ref) + 1 =>
      if p < |ref.s1| then var j := |ref.s1| - 1 - p; Candidate(ref.s1[j] + delta, used[|ref.s0| + j], use[|ref.s0| + j])
      else if p == |ref.s1| then Candidate(delta, used[NumDeltaPocs(ref)], use[NumDeltaPocs(ref)])
      else var j := p - |ref.s1| - 1; Candidate(ref.s0[j] + delta, used[j], use[j]))
  }

  predicate Descending(c: seq<Candidate>) {
    forall i, j :: 0 <= i < j < |c| ==> c[i].d > c[j].d
  }

  lemma CandidatesDescend(ref: RefSet, delta: int, used: seq<bool>, use: seq<bool>)
    requires |used| == |use| == NumDeltaPocs(ref) + 1 && Ordered(ref)
    ensures Descending(Candidates(ref, delta, used, use))
  {
  }

  predicate Before(c: Candidate) { c.use && c.d < 0 }

  predicate After(c: Candidate) { c.use && c.d > 0 }

  /** The first n candidates that lie before the current picture, in order. */
  function Earlier(c: seq<Candidate>, n: nat): seq<Candidate>
    requires n <= |c|
  {
    if n == 0 then [] else if Before(c[n-1]) then Earlier(c, n - 1) + [c[n-1]] else Earlier(c, n - 1)
  }

  /** The last n candidates that lie after it, from the end. */
  function Later(c: seq<Candidate>, n: nat): seq<Candidate>
    requires n <= |c|
  {
    if n == 0 then [] else if After(c[|c|-n]) then Later(c, n - 1) + [c[|c|-n]] else Later(c, n - 1)
  }

  function Distances(c: seq<Candidate>): seq<int> { seq(|c|, i requires 0 <= i < |c| => c[i].d) }

  function Flags(c: seq<Candidate>): seq<bool> { seq(|c|, i requires 0 <= i < |c| => c[i].used) }

  /** The set predicted from these candidates. */
  function Predicted(c: seq<Candidate>): RefSet {
    var (e, l) := (Earlier(c, |c|), Later(c, |c|));
    RefSet(Distances(e), Flags(e), Distances(l), Flags(l))
  }

  lemma {:induction false} EarlierDescends(c: seq<Candidate>, n: nat)
    requires n <= |c| && Descending(c)
    ensures var e := Earlier(c, n);
      && |e| <= n
      && (forall i :: 0 <= i < |e| ==> Before(e[i]) && e[i] in c[..n])
      && (forall i, j :: 0 <= i < j < |e| ==> e[i].d > e[j].d)
    ensures forall k :: 0 <= k < n && Before(c[k]) ==> c[k] in Earlier(c, n)
  {
    if n > 0 {
      EarlierDescends(c, n - 1);
      assert c[..n] == c[..n-1] + [c[n-1]];
      forall x | x in c[..n-1] ensures x.d > c[n-1].d { }
    }
  }

  lemma {:induction false} LaterAscends(c: seq<Candidate>, n: nat)
    requires n <= |c| && Descending(c)
    ensures var l := Later(c, n);
      && |l| <= n
      && (forall i :: 0 <= i < |l| ==> After(l[i]) && l[i] in c[|c|-n..])
      && (forall i, j :: 0 <= i < j < |l| ==> l[i].d < l[j].d)
    ensures forall k :: |c| - n <= k < |c| && After(c[k]) ==> c[k] in Later(c, n)
  {
    if n > 0 {
      LaterAscends(c, n - 1);
      assert c[|c|-n..] == [c[|c|-n]] + c[|c|-(n-1)..];
      forall x | x in c[|c|-(n-1)..] ensures x.d < c[|c|-n].d { }
    }
  }

  /** A set predicted from an ordered one is ordered, no further than its reference moved by delta. */
  lemma PredictedOrdered(ref: RefSet, delta: int, used: seq<bool>, use: seq<bool>, m: nat)
    requires |used| == |use| == NumDeltaPocs(ref) + 1 && Ordered(ref) && Bounded(ref, m) && -0x8000 <= delta <= 0x8000
    ensures var r := Predicted(Candidates(ref, delta, used, use)); Ordered(r) && Bounded(r, m + 0x8000)
  {
    CandidatesDescend(ref, delta, used, use);
    CandidatesBounded(ref, delta, used, use, m);
    KeptOrdered(Candidates(ref, delta, used, use), m + 0x8000);
  }

  ghost predicate AllWithin(c: seq<Candidate>, m: nat) {
    forall x :: x in c ==> 0 <= x.d + m && x.d <= m
  }

  lemma KeptOrdered(c: seq<Candidate>, m: nat)
    requires Descending(c) && AllWithin(c, m)
    ensures Ordered(Predicted(c)) && Bounded(Predicted(c), m)
  {
    EarlierDescends(c, |c|);
    LaterAscends(c, |c|);
    assert c[..|c|] == c && c[0..] == c;
  }

  /** And it holds exactly the kept candidates, each on its side. */
  lemma PredictedMembers(c: seq<Candidate>, d: int)
    requires Descending(c)
    ensures d in Predicted(c).s0 <==> exists k :: 0 <= k < |c| && Before(c[k]) && c[k].d == d
    ensures d in Predicted(c).s1 <==> exists k :: 0 <= k < |c| && After(c[k]) && c[k].d == d
  {
    EarlierDescends(c, |c|);
    LaterAscends(c, |c|);
    assert c[..|c|] == c && c[0..] == c;
    InDistances(Earlier(c, |c|));
    InDistances(Later(c, |c|));
  }

  lemma InDistances(c: seq<Candidate>)
    ensures forall d: int :: d in Distances(c) <==> exists x :: x in c && x.d == d
  {
    forall x | x in c ensures x.d in Distances(c) {
      var i :| 0 <= i < |c| && c[i] == x;
      assert Distances(c)[i] == x.d;
    }
    forall d: int | d in Distances(c) ensures exists x :: x in c && x.d == d {
      var i :| 0 <= i < |c| && Distances(c)[i] == d;
      assert c[i] in c;
    }
  }

  lemma CandidatesBounded(ref: RefSet, delta: int, used: seq<bool>, use: seq<bool>, m: nat)
    requires |used| == |use| == NumDeltaPocs(ref) + 1 && Ordered(ref) && Bounded(ref, m) && -0x8000 <= delta <= 0x8000
    ensures AllWithin(Candidates(ref, delta, used, use), m + 0x8000)
  {
  }

  // ---- the syntax ----

  /** The flag at p of n bits, and where they go on; None past their end. */
  ghost function FlagFrom(bits: nat -> bit, n: nat, p: nat): Option<(bool, nat)> {
    if p < n then Some((bits(p) == 1, p + 1)) else None
  }

  /** Of each of k candidates from p on whether it is used and, where that is not said to be so, whether it is kept. */
  ghost function UsesFrom(bits: nat -> bit, n: nat, p: nat, k: nat): (r: Option<(seq<bool>, seq<bool>, nat)>)
    ensures r.Some? ==> |r.value.0| == |r.value.1| == k
  {
    if k == 0 then Some(([], [], p))
    else
      match UsesFrom(bits, n, p, k - 1)
      case None => None
      case Some(x) =>
        match FlagFrom(bits, n, x.2)
        case None => None
        case Some(used) =>
          if used.0 then Some((x.0 + [true], x.1 + [true], used.1))
          else
            match FlagFrom(bits, n, used.1)
            case None => None
            case Some(use) => Some((x.0 + [false], x.1 + [use.0], use.1))
  }

  /** k pictures from p on, each a step of 1 to 2^15 past the one before on the side of sign, and its flag. */
  ghost function StepsFrom(bits: nat -> bit, n: nat, p: nat, k: nat, sign: int): (r: Option<(seq<int>, seq<bool>, nat)>)
    ensures r.Some? ==> |r.value.0| == |r.value.1| == k
  {
    if k == 0 then Some(([], [], p))
    else
      match StepsFrom(bits, n, p, k - 1, sign)
      case None => None
      case Some(x) =>
        match CodeFrom(bits, n, x.2, 0x7FFF)
        case None => None
        case Some(step) =>
          match FlagFrom(bits, n, step.1)
          case None => None
          case Some(used) => Some((x.0 + [LastOf(x.0) + sign * (step.0 + 1)], x.1 + [used.0], used.1))
  }

  function LastOf(s: seq<int>): int { if s == [] then 0 else s[|s|-1] }

  /** A set given outright at p: how many pictures come before and after the current one, then each side. */
  ghost function OutrightFrom(bits: nat -> bit, n: nat, p: nat): Option<(RefSet, nat)> {
    match CodeFrom(bits, n, p, P32)
    case None => None
    case Some(neg) =>
      match CodeFrom(bits, n, neg.1, P32)
      case None => None
      case Some(pos) => if neg.0 > 16 || pos.0 > 16 then None else SidesFrom(bits, n, pos.1, neg.0, pos.0)
  }

  ghost function SidesFrom(bits: nat -> bit, n: nat, p: nat, neg: nat, pos: nat): Option<(RefSet, nat)> {
    match StepsFrom(bits, n, p, neg, -1)
    case None => None
    case Some(s0) =>
      match StepsFrom(bits, n, s0.2, pos, 1)
      case None => None
      case Some(s1) => Some((RefSet(s0.0, s0.1, s1.0, s1.1), s1.2))
  }

  /** How far back the set lies that the idx-th is predicted from: one, unless it is a slice header's own and says. */
  ghost function DeltaFrom(bits: nat -> bit, n: nat, p: nat, idx: nat, num: nat): (r: Option<(nat, nat)>)
    requires idx > 0
    ensures r.Some? ==> 1 <= r.value.0 <= idx
  {
    if idx != num then Some((1, p))
    else
      match CodeFrom(bits, n, p, P32)
      case None => None
      case Some(d) => if d.0 < idx then Some((d.0 + 1, d.1)) else None
  }

  /** A set predicted at p from ref. */
  ghost function PredictedFrom(bits: nat -> bit, n: nat, p: nat, ref: RefSet): Option<(RefSet, nat)> {
    match FlagFrom(bits, n, p)
    case None => None
    case Some(sign) =>
      match CodeFrom(bits, n, sign.1, 0x7FFF)
      case None => None
      case Some(steps) =>
        match UsesFrom(bits, n, steps.1, NumDeltaPocs(ref) + 1)
        case None => None
        case Some(u) =>
          var out := Predicted(Candidates(ref, if sign.0 then -(steps.0 + 1) else steps.0 + 1, u.0, u.1));
          if NumDeltaPocs(out) <= 32 then Some((out, u.2)) else None
  }

  ghost function PredictionFrom(bits: nat -> bit, n: nat, p: nat, sets: seq<RefSet>, idx: nat, num: nat): Option<(RefSet, nat)>
    requires 0 < idx == |sets|
  {
    match DeltaFrom(bits, n, p, idx, num)
    case None => None
    case Some(delta) => PredictedFrom(bits, n, delta.1, sets[idx - delta.0])
  }

  /** The idx-th set as it stands at p, given the idx before it; idx == num is a slice header's own. */
  ghost function SetFrom(bits: nat -> bit, n: nat, p: nat, sets: seq<RefSet>, idx: nat, num: nat): Option<(RefSet, nat)>
    requires idx == |sets|
  {
    if idx == 0 then OutrightFrom(bits, n, p)
    else
      match FlagFrom(bits, n, p)
      case None => None
      case Some(predicted) =>
        if !predicted.0 then OutrightFrom(bits, n, predicted.1)
        else PredictionFrom(bits, n, predicted.1, sets, idx, num)
  }

  /** Steps of 1 to 2^15 each, on the side of sign. */
  predicate Marches(s: seq<int>, sign: int) {
    && (forall i :: 0 <= i < |s| ==> 0 < s[i] * sign <= (i + 1) * 0x8000)
    && (forall i, j :: 0 <= i < j < |s| ==> s[i] * sign < s[j] * sign)
  }

  lemma MarchesOn(s: seq<int>, sign: int, step: nat)
    requires (sign == 1 || sign == -1) && Marches(s, sign) && step <= 0x7FFF
    ensures Marches(s + [LastOf(s) + sign * (step + 1)], sign)
  {
    if sign == 1 {
      assert forall i :: 0 <= i < |s| ==> s[i] * sign == s[i];
    } else {
      assert forall i :: 0 <= i < |s| ==> s[i] * sign == -s[i];
    }
  }

  lemma {:induction false} StepsInOrder(bits: nat -> bit, n: nat, p: nat, k: nat, sign: int)
    requires (sign == 1 || sign == -1) && StepsFrom(bits, n, p, k, sign).Some?
    ensures Marches(StepsFrom(bits, n, p, k, sign).value.0, sign)
  {
    hide CodeFrom, Marches;
    if k == 0 {
      NoSteps(sign);
    } else {
      var x := StepsFrom(bits, n, p, k - 1, sign).value;
      StepsInOrder(bits, n, p, k - 1, sign);
      CodeWithin(bits, n, x.2, 0x7FFF);
      MarchesOn(x.0, sign, CodeFrom(bits, n, x.2, 0x7FFF).value.0);
    }
  }

  lemma NoSteps(sign: int)
    ensures Marches([], sign)
  {
  }

  /** Every set the syntax allows, predicted from an accepted one or given outright, is in order, of at most 32 pictures
      and within reach. */
  lemma SetAccepted(bits: nat -> bit, n: nat, p: nat, sets: seq<RefSet>, idx: nat, num: nat)
    requires idx == |sets| && forall k :: 0 <= k < |sets| ==> Accepted(sets[k], k)
    requires SetFrom(bits, n, p, sets, idx, num).Some?
    ensures Accepted(SetFrom(bits, n, p, sets, idx, num).value.0, idx)
  {
    hide CodeFrom, StepsFrom, UsesFrom, Predicted;
    var predicted := idx > 0 && FlagFrom(bits, n, p).value.0;
    if predicted {
      var q := FlagFrom(bits, n, p).value.1;
      var delta := DeltaFrom(bits, n, q, idx, num).value;
      var sign := FlagFrom(bits, n, delta.1).value;
      var steps := CodeFrom(bits, n, sign.1, 0x7FFF).value;
      CodeWithin(bits, n, sign.1, 0x7FFF);
      var ref := sets[idx - delta.0];
      var u := UsesFrom(bits, n, steps.1, NumDeltaPocs(ref) + 1).value;
      var abs: int := steps.0 + 1;
      PredictedOrdered(ref, if sign.0 then -abs else abs, u.0, u.1, Reach(idx - delta.0));
    } else {
      OutrightOrdered(bits, n, if idx == 0 then p else p + 1);
    }
  }

  lemma OutrightOrdered(bits: nat -> bit, n: nat, p: nat)
    requires OutrightFrom(bits, n, p).Some?
    ensures var r := OutrightFrom(bits, n, p).value.0; Ordered(r) && NumDeltaPocs(r) <= 32 && Bounded(r, 16 * 0x8000)
  {
    hide CodeFrom, StepsFrom;
    var neg := CodeFrom(bits, n, p, P32).value;
    var pos := CodeFrom(bits, n, neg.1, P32).value;
    StepsInOrder(bits, n, pos.1, neg.0, -1);
    StepsInOrder(bits, n, StepsFrom(bits, n, pos.1, neg.0, -1).value.2, pos.0, 1);
  }

  lemma CodeWithin(bits: nat -> bit, n: nat, p: nat, max: nat)
    ensures CodeFrom(bits, n, p, max).Some? ==> CodeFrom(bits, n, p, max).value.0 <= max
  {
  }

  /** The first k of a sequence's num sets, each given those before it. */
  ghost function SetsFrom(bits: nat -> bit, n: nat, p: nat, k: nat, num: nat): (r: Option<(seq<RefSet>, nat)>)
    ensures r.Some? ==> |r.value.0| == k
  {
    if k == 0 then Some(([], p))
    else
      match SetsFrom(bits, n, p, k - 1, num)
      case None => None
      case Some(x) =>
        match SetFrom(bits, n, x.1, x.0, k - 1, num)
        case None => None
        case Some(one) => Some((x.0 + [one.0], one.1))
  }

  /** So every set of a sequence's list is, and no value of any leaves an int32. */
  lemma {:induction false} SetsAccepted(bits: nat -> bit, n: nat, p: nat, k: nat, num: nat)
    requires SetsFrom(bits, n, p, k, num).Some? && k <= num <= 64
    ensures forall i :: 0 <= i < k ==>
      var r := SetsFrom(bits, n, p, k, num).value.0[i];
      && Accepted(r, i)
      && (forall j :: 0 <= j < |r.s0| ==> -0x8000_0000 < r.s0[j] < 0) && (forall j :: 0 <= j < |r.s1| ==> 0 < r.s1[j] < 0x8000_0000)
  {
    hide SetFrom;
    if k > 0 {
      SetsAccepted(bits, n, p, k - 1, num);
      var x := SetsFrom(bits, n, p, k - 1, num).value;
      SetAccepted(bits, n, x.1, x.0, k - 1, num);
      ReachFitsInt32(k - 1);
    }
  }

  // ---- the parser ----

  /** Reads a candidate's flags for each of ref's pictures and ref's own place. */
  method ReadUsed(r: NalReader, n: nat) returns (used: seq<bool>, use: seq<bool>)
    requires r.Valid()
    modifies r
    ensures r.Valid() && (old(r.err) ==> r.err) && |used| == |use| == n
    ensures !old(r.err) ==> match UsesFrom(r.bits, 8 * |r.clean|, old(r.read), n)
      case Some(x) => !r.err && (used, use, r.read) == x
      case None => r.err
  {
    used, use := [], [];
    for j := 0 to n
      invariant r.Valid() && (old(r.err) ==> r.err) && |used| == |use| == j
      invariant !old(r.err) ==> match UsesFrom(r.bits, 8 * |r.clean|, old(r.read), j)
        case Some(x) => !r.err && (used, use, r.read) == x
        case None => r.err
      modifies r
    {
      var b := r.Bit();
      var keep: bit := 1;
      if b == 0 {
        keep := r.Bit();
      }
      used := used + [b == 1];
      use := use + [keep == 1];
    }
  }

  /** The sets being filled: distances and flags appended together. */
  datatype Half = Half(s: seq<int>, used: seq<bool>)

  function HalfOf(c: seq<Candidate>): Half { Half(Distances(c), Flags(c)) }

  function Append(h: Half, keep: bool, d: int, used: bool): Half {
    if keep then Half(h.s + [d], h.used + [used]) else h
  }

  /** half(n) is what the first n candidates, from the front or from the back, leave in one half of the set. */
  ghost predicate Fills(half: nat -> Half, c: seq<Candidate>, front: bool) {
    && half(0) == Half([], [])
    && forall n: nat {:trigger FillsAt(half, c, front, n)} :: n < |c| ==> FillsAt(half, c, front, n)
  }

  ghost predicate FillsAt(half: nat -> Half, c: seq<Candidate>, front: bool, n: nat)
    requires n < |c|
  {
    var x := if front then c[n] else c[|c| - 1 - n];
    half(n + 1) == Append(half(n), if front then Before(x) else After(x), x.d, x.used)
  }

  ghost function EarlierHalf(c: seq<Candidate>): (half: nat -> Half)
    ensures Fills(half, c, true)
  {
    (n: nat) => if n <= |c| then HalfOf(Earlier(c, n)) else Half([], [])
  }

  ghost function LaterHalf(c: seq<Candidate>): (half: nat -> Half)
    ensures Fills(half, c, false)
  {
    (n: nat) => if n <= |c| then HalfOf(Later(c, n)) else Half([], [])
  }

  /** The earlier pictures of a predicted set: ref's later ones from the furthest in, ref's own place, ref's earlier ones. */
  method EarlierOf(ref: RefSet, delta: int, used: seq<bool>, use: seq<bool>, ghost half: nat -> Half) returns (h: Half)
    requires |used| == |use| == NumDeltaPocs(ref) + 1
    requires Fills(half, Candidates(ref, delta, used, use), true)
    ensures h == half(NumDeltaPocs(ref) + 1)
  {
    ghost var c := Candidates(ref, delta, used, use);
    h := Half([], []);
    var neg, n := |ref.s0|, NumDeltaPocs(ref);
    var j := |ref.s1| - 1;
    while j >= 0
      invariant -1 <= j < |ref.s1| && h == half(|ref.s1| - 1 - j)
    {
      var d := ref.s1[j] + delta;
      h := Append(h, d < 0 && use[neg + j], d, used[neg + j]);
      assert FillsAt(half, c, true, |ref.s1| - 1 - j);
      j := j - 1;
    }
    h := Append(h, delta < 0 && use[n], delta, used[n]);
    assert FillsAt(half, c, true, |ref.s1|);
    for i := 0 to neg
      invariant h == half(|ref.s1| + 1 + i)
    {
      var d := ref.s0[i] + delta;
      h := Append(h, d < 0 && use[i], d, used[i]);
      assert FillsAt(half, c, true, |ref.s1| + 1 + i);
    }
  }

  /** The later pictures: ref's earlier ones from the furthest in, ref's own place, ref's later ones. */
  method LaterOf(ref: RefSet, delta: int, used: seq<bool>, use: seq<bool>, ghost half: nat -> Half) returns (h: Half)
    requires |used| == |use| == NumDeltaPocs(ref) + 1
    requires Fills(half, Candidates(ref, delta, used, use), false)
    ensures h == half(NumDeltaPocs(ref) + 1)
  {
    ghost var c := Candidates(ref, delta, used, use);
    h := Half([], []);
    var neg, n := |ref.s0|, NumDeltaPocs(ref);
    var j := neg - 1;
    while j >= 0
      invariant -1 <= j < neg && h == half(neg - 1 - j)
    {
      var d := ref.s0[j] + delta;
      h := Append(h, d > 0 && use[j], d, used[j]);
      assert FillsAt(half, c, false, neg - 1 - j);
      j := j - 1;
    }
    h := Append(h, delta > 0 && use[n], delta, used[n]);
    assert FillsAt(half, c, false, neg);
    for i := 0 to |ref.s1|
      invariant h == half(neg + 1 + i)
    {
      var d := ref.s1[i] + delta;
      h := Append(h, d > 0 && use[neg + i], d, used[neg + i]);
      assert FillsAt(half, c, false, neg + 1 + i);
    }
  }

  method Predict(ref: RefSet, delta: int, used: seq<bool>, use: seq<bool>) returns (out: RefSet)
    requires |used| == |use| == NumDeltaPocs(ref) + 1
    ensures out == Predicted(Candidates(ref, delta, used, use))
  {
    ghost var c := Candidates(ref, delta, used, use);
    var e := EarlierOf(ref, delta, used, use, EarlierHalf(c));
    var l := LaterOf(ref, delta, used, use, LaterHalf(c));
    out := RefSet(e.s, e.used, l.s, l.used);
  }

  /** A set given outright: n steps of 1 to 2^15 away from the current picture. */
  method ReadSteps(r: NalReader, n: nat, sign: int) returns (s: seq<int>, used: seq<bool>)
    requires r.Valid()
    modifies r
    ensures r.Valid() && (old(r.err) ==> r.err)
    ensures !old(r.err) ==> match StepsFrom(r.bits, 8 * |r.clean|, old(r.read), n, sign)
      case Some(x) => !r.err && (s, used, r.read) == x
      case None => r.err
  {
    hide CodeFrom;
    s, used := [], [];
    var poc := 0;
    for k := 0 to n
      invariant r.Valid() && (old(r.err) ==> r.err) && poc == LastOf(s)
      invariant !old(r.err) ==> match StepsFrom(r.bits, 8 * |r.clean|, old(r.read), k, sign)
        case Some(x) => !r.err && (s, used, r.read) == x
        case None => r.err
      modifies r
    {
      var step := r.UeMax(0x7FFF);
      poc := poc + sign * (step + 1);
      var b := r.Bit();
      s, used := s + [poc], used + [b == 1];
    }
  }

  /** Reads the idx-th set against the idx before it: accepted exactly when the syntax allows it. */
  method ParseSTRPS(r: NalReader, sets: seq<RefSet>, idx: nat, num: nat) returns (out: RefSet, ok: bool)
    requires r.Valid() && idx == |sets| <= num
    modifies r
    ensures r.Valid() && (old(r.err) ==> r.err && !ok)
    ensures !old(r.err) ==> ok == SetFrom(r.bits, 8 * |r.clean|, old(r.read), sets, idx, num).Some?
    ensures ok ==> !r.err && SetFrom(r.bits, 8 * |r.clean|, old(r.read), sets, idx, num) == Some((out, r.read))
  {
    hide CodeFrom, StepsFrom;
    var predicted: bit := 0;
    if idx != 0 {
      predicted := r.Bit();
    }
    if predicted == 1 {
      out, ok := PredictSet(r, sets, idx, num);
    } else {
      out, ok := OutrightSet(r);
    }
  }

  /** A sequence's list of sets: how many, then each. */
  method ParseSets(r: NalReader) returns (sets: seq<RefSet>, ok: bool)
    requires r.Valid()
    modifies r
    ensures r.Valid() && (old(r.err) ==> r.err)
    ensures var c := CodeFrom(r.bits, 8 * |r.clean|, old(r.read), P32);
      !old(r.err) ==>
        if c.Some? && c.value.0 <= 64 && SetsFrom(r.bits, 8 * |r.clean|, c.value.1, c.value.0, c.value.0).Some?
        then ok && !r.err && SetsFrom(r.bits, 8 * |r.clean|, c.value.1, c.value.0, c.value.0) == Some((sets, r.read))
        else !ok || r.err
  {
    hide CodeFrom, SetFrom;
    sets := [];
    var n := r.Ue();
    if n > 64 {
      return sets, false;
    }
    ghost var p, failed := r.read, r.err;
    for i := 0 to n
      invariant r.Valid() && |sets| == i && (failed ==> r.err && i == 0)
      invariant !failed ==> !r.err && SetsFrom(r.bits, 8 * |r.clean|, p, i, n) == Some((sets, r.read))
      modifies r
    {
      var one, good := ParseSTRPS(r, sets, i, n);
      if !good {
        if !failed { NoneLater(r.bits, 8 * |r.clean|, p, i + 1, n, n); }
        return sets, false;
      }
      sets := sets + [one];
    }
    return sets, true;
  }

  lemma {:induction false} NoneLater(bits: nat -> bit, n: nat, p: nat, k: nat, k': nat, num: nat)
    requires k <= k' && SetsFrom(bits, n, p, k, num).None?
    ensures SetsFrom(bits, n, p, k', num).None?
    decreases k'
  {
    hide SetFrom;
    if k < k' { NoneLater(bits, n, p, k, k' - 1, num); }
  }

  method OutrightSet(r: NalReader) returns (out: RefSet, ok: bool)
    requires r.Valid()
    modifies r
    ensures r.Valid() && (old(r.err) ==> r.err && !ok)
    ensures !old(r.err) ==> ok == OutrightFrom(r.bits, 8 * |r.clean|, old(r.read)).Some?
    ensures ok ==> !r.err && OutrightFrom(r.bits, 8 * |r.clean|, old(r.read)) == Some((out, r.read))
  {
    hide CodeFrom, StepsFrom;
    out := RefSet([], [], [], []);
    var neg := r.Ue();
    var pos := r.Ue();
    if neg > 16 || pos > 16 {
      return out, false;
    }
    var s0, used0 := ReadSteps(r, neg, -1);
    var s1, used1 := ReadSteps(r, pos, 1);
    out := RefSet(s0, used0, s1, used1);
    return out, !r.err;
  }

  method PredictSet(r: NalReader, sets: seq<RefSet>, idx: nat, num: nat) returns (out: RefSet, ok: bool)
    requires r.Valid() && 0 < idx == |sets| <= num
    modifies r
    ensures r.Valid() && (old(r.err) ==> r.err && !ok)
    ensures !old(r.err) ==> ok == PredictionFrom(r.bits, 8 * |r.clean|, old(r.read), sets, idx, num).Some?
    ensures ok ==> !r.err && PredictionFrom(r.bits, 8 * |r.clean|, old(r.read), sets, idx, num) == Some((out, r.read))
  {
    hide CodeFrom, UsesFrom, Predicted, Candidates;
    out := RefSet([], [], [], []);
    var delta := 1;
    if idx == num {
      var d := r.Ue();
      if d >= idx {
        return out, false;
      }
      delta := d + 1;
    }
    var ref := sets[idx - delta];
    var sign := r.Bit();
    var steps := r.UeMax(0x7FFF);
    var abs: int := steps + 1;
    if r.err || abs > 0x8000 {
      return out, false;
    }
    var deltaRps: int := if sign == 1 then -abs else abs;
    var used, use := ReadUsed(r, NumDeltaPocs(ref) + 1);
    out := Predict(ref, deltaRps, used, use);
    return out, !r.err && NumDeltaPocs(out) <= 32;
  }
}
