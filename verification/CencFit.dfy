/** Fitting a sample's subsamples into saiz's one-byte entry size (mp4/cenc.go, fitSaiz): the entries protecting least are
    folded into the clear bytes of the next until the rest fit. */
module CencFit {
  import opened Arith
  import opened Bytes
  import opened Subsamples
  import opened CencSlices

  /** What a sample's senc entry takes: its IV, the count and six bytes a subsample. */
  function EntrySize(ivLen: nat, subs: nat): nat { ivLen + 2 + 6 * subs }

  function MaxSubs(ivLen: nat): (m: nat)
    requires ivLen <= 16
    ensures forall n: nat :: EntrySize(ivLen, n) <= 255 <==> n <= m
  {
    (255 - ivLen - 2) / 6
  }

  /** Entry i and the next one's clear bytes fit 16 bits together. */
  predicate Foldable(subs: seq<Subsample>, i: nat) {
    i + 1 < |subs| && subs[i+1].clear + subs[i].clear + subs[i].protected <= 0xFFFF
  }

  /** i is the first of the foldable entries that protect least. */
  ghost predicate IsBest(subs: seq<Subsample>, i: nat) {
    && Foldable(subs, i)
    && forall j: nat :: Foldable(subs, j) ==>
      subs[i].protected <= subs[j].protected && (j < i ==> subs[i].protected < subs[j].protected)
  }

  ghost predicate NoneFoldable(subs: seq<Subsample>) {
    forall i: nat :: !Foldable(subs, i)
  }

  /** Entry i made clear and merged into the next. */
  function Fold(subs: seq<Subsample>, i: nat): (r: seq<Subsample>)
    requires i + 1 < |subs|
    ensures |r| == |subs| - 1
  {
    subs[..i] + [Subsample(subs[i].clear + subs[i].protected + subs[i+1].clear, subs[i+1].protected)] + subs[i+2..]
  }

  /** Folding, best first, until at most m entries are left or none can be folded. */
  ghost function Fitted(subs: seq<Subsample>, m: nat): Result<seq<Subsample>>
    decreases |subs|
  {
    if |subs| <= m then Ok(subs)
    else if NoneFoldable(subs) then Err("a picture of too many NAL units to describe in one CENC entry")
    else
      BestExists(subs, |subs|);
      var i: nat :| IsBest(subs, i);
      Fitted(Fold(subs, i), m)
  }

  /** i is the best among the first n. */
  ghost predicate BestBelow(subs: seq<Subsample>, i: nat, n: nat) {
    && i < n && Foldable(subs, i)
    && forall j: nat :: j < n && Foldable(subs, j) ==>
      subs[i].protected <= subs[j].protected && (j < i ==> subs[i].protected < subs[j].protected)
  }

  lemma {:induction false} BestExists(subs: seq<Subsample>, n: nat)
    requires n <= |subs|
    ensures (forall j: nat :: j < n ==> !Foldable(subs, j)) || exists i: nat :: BestBelow(subs, i, n)
    ensures n == |subs| && !NoneFoldable(subs) ==> exists i: nat :: IsBest(subs, i)
  {
    if n > 0 {
      var m: nat := n - 1;
      BestExists(subs, m);
      if i: nat :| BestBelow(subs, i, m) {
        assert BestBelow(subs, if Foldable(subs, n - 1) && subs[n-1].protected < subs[i].protected then n - 1 else i, n);
      } else if Foldable(subs, n - 1) {
        assert BestBelow(subs, n - 1, n);
      }
      if i: nat :| BestBelow(subs, i, n) {
        assert n == |subs| ==> IsBest(subs, i);
      }
    }
  }

  lemma BestUnique(subs: seq<Subsample>, i: nat, j: nat)
    requires IsBest(subs, i) && IsBest(subs, j)
    ensures i == j
  {
  }

  lemma {:induction false} FittedStep(subs: seq<Subsample>, m: nat, i: nat)
    requires |subs| > m && IsBest(subs, i)
    ensures Fitted(subs, m) == Fitted(Fold(subs, i), m)
  {
    forall j: nat | IsBest(subs, j) ensures j == i { BestUnique(subs, i, j); }
  }

  /** Scans for the entry to fold. */
  method FindBest(subs: seq<Subsample>) returns (best: int)
    ensures best < 0 ==> NoneFoldable(subs)
    ensures best >= 0 ==> IsBest(subs, best)
  {
    best := -1;
    var i := 0;
    while i + 1 < |subs|
      invariant i <= |subs|
      invariant best < 0 ==> forall j: nat :: j < i ==> !Foldable(subs, j)
      invariant best >= 0 ==> BestBelow(subs, best, i)
    {
      if !(subs[i+1].clear + subs[i].clear + subs[i].protected > 0xFFFF) && (best < 0 || subs[i].protected < subs[best].protected) {
        best := i;
      }
      i := i + 1;
    }
  }

  method FitSaiz(subs: seq<Subsample>, ivLen: nat) returns (r: Result<seq<Subsample>>)
    requires ivLen <= 16
    ensures r.Ok? == Fitted(subs, MaxSubs(ivLen)).Ok? && (r.Ok? ==> r == Fitted(subs, MaxSubs(ivLen)))
  {
    var list := subs;
    while |list| > MaxSubs(ivLen)
      invariant Fitted(list, MaxSubs(ivLen)) == Fitted(subs, MaxSubs(ivLen))
      decreases |list|
    {
      var best := FindBest(list);
      if best < 0 {
        return Err("a picture of too many NAL units to describe in one CENC entry: re-encode it with fewer slices");
      }
      FittedStep(list, MaxSubs(ivLen), best);
      list := Fold(list, best);
    }
    return Ok(list);
  }

  // ---- what folding keeps ----

  /** m2 protects nothing m1 does not. */
  ghost predicate OnlyClears(m1: seq<bool>, m2: seq<bool>) {
    |m1| == |m2| && forall i :: 0 <= i < |m2| && m2[i] ==> m1[i]
  }

  /** Where each entry's protected region lies. */
  function Regions(subs: seq<Subsample>, at: nat): (r: seq<(nat, nat)>)
    ensures |r| == |subs|
  {
    if subs == [] then []
    else [(at + subs[0].clear, at + subs[0].clear + subs[0].protected)] + Regions(subs[1..], at + subs[0].clear + subs[0].protected)
  }

  lemma FoldHead(subs: seq<Subsample>, i: nat)
    requires 0 < i && i + 1 < |subs|
    ensures Fold(subs, i) == [subs[0]] + Fold(subs[1..], i - 1)
    ensures Fold(subs, i)[0] == subs[0] && Fold(subs, i)[1..] == Fold(subs[1..], i - 1)
  {
    assert subs[..i] == [subs[0]] + subs[1..][..i-1];
    assert subs[i+2..] == subs[1..][i+1..];
  }

  /** One fold takes out exactly the folded entry's region; every other one stays where it is. */
  lemma {:induction false} FoldRegions(subs: seq<Subsample>, i: nat, at: nat)
    requires i + 1 < |subs|
    ensures Regions(Fold(subs, i), at) == Regions(subs, at)[..i] + Regions(subs, at)[i+1..]
  {
    if i == 0 {
      assert Fold(subs, 0)[1..] == subs[2..] && subs[1..][1..] == subs[2..];
    } else {
      FoldHead(subs, i);
      FoldRegions(subs[1..], i - 1, at + subs[0].clear + subs[0].protected);
    }
  }

  lemma {:induction false} FoldMask(subs: seq<Subsample>, i: nat)
    requires i + 1 < |subs|
    ensures OnlyClears(Mask(subs), Mask(Fold(subs, i))) && Total(Fold(subs, i)) == Total(subs)
  {
    if i == 0 {
      var a, b, rest := subs[0], subs[1], subs[2..];
      assert Fold(subs, 0)[1..] == rest && subs[1..][1..] == rest;
      FoldTwo(a.clear, a.protected, b.clear, Run(true, b.protected), Mask(rest));
    } else {
      FoldHead(subs, i);
      FoldMask(subs[1..], i - 1);
    }
  }

  lemma FoldTwo(c: nat, p: nat, c': nat, region: seq<bool>, rest: seq<bool>)
    ensures OnlyClears(Run(false, c) + Run(true, p) + (Run(false, c') + region + rest), Run(false, c + p + c') + region + rest)
  {
    var m1, m2 := Run(false, c) + Run(true, p) + (Run(false, c') + region + rest), Run(false, c + p + c') + region + rest;
    var t := region + rest;
    assert m1 == Run(false, c) + Run(true, p) + Run(false, c') + t;
    assert m2 == Run(false, c + p + c') + t;
  }

  /** What a fitted list owes the one it came from. */
  ghost predicate Kept(subs: seq<Subsample>, r: seq<Subsample>) {
    && Total(r) == Total(subs) && OnlyClears(Mask(subs), Mask(r))
    && (forall x :: x in Regions(r, 0) ==> x in Regions(subs, 0))
    && (AllFit(subs) ==> AllFit(r)) && (WholeBlocks(subs) ==> WholeBlocks(r))
  }

  lemma FoldKeeps(subs: seq<Subsample>, i: nat)
    requires Foldable(subs, i)
    ensures Kept(subs, Fold(subs, i))
  {
    FoldMask(subs, i);
    FoldRegions(subs, i, 0);
    FoldFields(subs, i);
  }

  lemma FoldFields(subs: seq<Subsample>, i: nat)
    requires Foldable(subs, i)
    ensures AllFit(subs) ==> AllFit(Fold(subs, i))
    ensures WholeBlocks(subs) ==> WholeBlocks(Fold(subs, i))
  {
    var r := Fold(subs, i);
    assert forall j :: 0 <= j < |r| ==> r[j] == if j < i then subs[j] else if j > i then subs[j+1] else r[i];
  }

  lemma KeptTransitive(a: seq<Subsample>, b: seq<Subsample>, c: seq<Subsample>)
    requires Kept(a, b) && Kept(b, c)
    ensures Kept(a, c)
  {
  }

  /** Fitting keeps the total, only turns protected bytes clear, leaves the regions that survive where they were, in
      fields and blocks as before, and ends with an entry whose size is one byte. */
  lemma {:induction false} FittedKeeps(subs: seq<Subsample>, ivLen: nat)
    requires ivLen <= 16 && Fitted(subs, MaxSubs(ivLen)).Ok?
    ensures var r := Fitted(subs, MaxSubs(ivLen)).value;
      Kept(subs, r) && EntrySize(ivLen, |r|) <= 255
    decreases |subs|
  {
    var m := MaxSubs(ivLen);
    if |subs| > m {
      BestExists(subs, |subs|);
      var i: nat :| IsBest(subs, i);
      FittedStep(subs, m, i);
      FittedKeeps(Fold(subs, i), ivLen);
      FoldKeeps(subs, i);
      KeptTransitive(subs, Fold(subs, i), Fitted(subs, m).value);
    }
  }

  /** A list nothing can be folded in describes 64 KiB for every two entries. */
  lemma {:induction false} StuckIsLarge(subs: seq<Subsample>)
    requires NoneFoldable(subs)
    ensures Total(subs) >= 0x10000 * (|subs| / 2)
    decreases |subs|
  {
    if |subs| >= 2 {
      var rest := subs[2..];
      assert !Foldable(subs, 0);
      forall i: nat ensures !Foldable(rest, i) { assert !Foldable(subs, i + 2); }
      StuckIsLarge(rest);
      assert subs[1..][1..] == rest;
    }
  }

  /** So fitting fails only on large samples: one of under 64 KiB for every two entries allowed is always described. */
  lemma {:induction false} SmallSamplesFit(subs: seq<Subsample>, m: nat)
    requires Total(subs) < 0x10000 * ((m + 1) / 2)
    ensures Fitted(subs, m).Ok?
    decreases |subs|
  {
    if |subs| > m {
      if NoneFoldable(subs) {
        StuckIsLarge(subs);
        assert false;
      } else {
        BestExists(subs, |subs|);
        var i: nat :| IsBest(subs, i);
        FittedStep(subs, m, i);
        FoldMask(subs, i);
        SmallSamplesFit(Fold(subs, i), m);
      }
    }
  }
}
