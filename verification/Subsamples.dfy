/** The clear/protected layout of a sample: what a list of subsamples says of each byte. */
module Subsamples {
  import opened Arith
  import Seqs

  datatype Subsample = Subsample(clear: nat, protected: nat)

  function Run(b: bool, n: nat): (r: seq<bool>)
    ensures |r| == n
  {
    seq(n, _ => b)
  }

  /** Byte by byte, whether the layout protects it. */
  function Mask(subs: seq<Subsample>): seq<bool> {
    if subs == [] then []
    else Run(false, subs[0].clear) + Run(true, subs[0].protected) + Mask(subs[1..])
  }

  /** How many bytes the layout describes. */
  function Total(subs: seq<Subsample>): nat {
    if subs == [] then 0 else subs[0].clear + subs[0].protected + Total(subs[1..])
  }

  lemma {:induction false} MaskLength(subs: seq<Subsample>)
    ensures |Mask(subs)| == Total(subs)
  {
    if subs != [] { MaskLength(subs[1..]); }
  }

  lemma {:induction false} MaskAppend(a: seq<Subsample>, b: seq<Subsample>)
    ensures Mask(a + b) == Mask(a) + Mask(b)
  {
    if a == [] {
      assert a + b == b;
    } else {
      assert (a + b)[1..] == a[1..] + b;
      MaskAppend(a[1..], b);
      Seqs.Assoc(Run(false, a[0].clear) + Run(true, a[0].protected), Mask(a[1..]), Mask(b));
    }
  }

  lemma MaskOne(s: Subsample)
    ensures Mask([s]) == Run(false, s.clear) + Run(true, s.protected)
  {
    assert [s][1..] == [];
  }

  lemma RunAdd(b: bool, m: nat, n: nat)
    ensures Run(b, m) + Run(b, n) == Run(b, m + n)
  {
  }

  /** How many of the first i bytes are protected. */
  function Rank(mask: seq<bool>, i: nat): nat
    requires i <= |mask|
  {
    if i == 0 then 0 else Rank(mask, i - 1) + if mask[i-1] then 1 else 0
  }

  lemma {:induction false} RankAppend(a: seq<bool>, b: seq<bool>, i: nat)
    requires i <= |b|
    ensures Rank(a + b, |a| + i) == Rank(a, |a|) + Rank(b, i)
  {
    if i == 0 {
      RankLeft(a, b, |a|);
    } else {
      RankAppend(a, b, i - 1);
      assert (a + b)[|a| + i - 1] == b[i-1];
    }
  }

  lemma {:induction false} RankLeft(a: seq<bool>, b: seq<bool>, i: nat)
    requires i <= |a|
    ensures Rank(a + b, i) == Rank(a, i)
  {
    if i > 0 { RankLeft(a, b, i - 1); }
  }

  lemma {:induction false} RankRun(b: bool, n: nat, i: nat)
    requires i <= n
    ensures Rank(Run(b, n), i) == if b then i else 0
  {
    if i > 0 { RankRun(b, n, i - 1); }
  }

  /** Within the first subsample: its clear bytes count for nothing, its protected ones one each. */
  lemma {:induction false} RankHead(s: Subsample, rest: seq<bool>, i: nat)
    requires i < s.clear + s.protected
    ensures var mask := Run(false, s.clear) + Run(true, s.protected) + rest;
      mask[i] == (i >= s.clear) && Rank(mask, i) == if i >= s.clear then i - s.clear else 0
  {
    var f, t := Run(false, s.clear), Run(true, s.protected);
    RankLeft(f + t, rest, i);
    if i < s.clear {
      RankLeft(f, t, i);
      RankRun(false, s.clear, i);
    } else {
      RankAppend(f, t, i - s.clear);
      RankRun(false, s.clear, s.clear);
      RankRun(true, s.protected, i - s.clear);
    }
  }

  /** Past it, its protected bytes all count. */
  lemma RankTail(s: Subsample, rest: seq<bool>, i: nat)
    requires i <= |rest|
    ensures Rank(Run(false, s.clear) + Run(true, s.protected) + rest, s.clear + s.protected + i) == s.protected + Rank(rest, i)
  {
    var f, t := Run(false, s.clear), Run(true, s.protected);
    RankAppend(f + t, rest, i);
    RankAppend(f, t, s.protected);
    RankRun(false, s.clear, s.clear);
    RankRun(true, s.protected, s.protected);
  }

  /** The bytes of subsample k of a layout: where they are, which are protected and how many were before each. */
  lemma SubsampleAt(subs: seq<Subsample>, k: nat, i: nat)
    requires k < |subs| && i <= subs[k].clear + subs[k].protected
    ensures var mask, pos, s := Mask(subs), Total(subs[..k]), subs[k];
      && pos + s.clear + s.protected == Total(subs[..k+1]) <= |mask| == Total(subs)
      && Rank(mask, pos + i) == Rank(mask, pos) + (if i >= s.clear then i - s.clear else 0)
      && (i < s.clear + s.protected ==> mask[pos + i] == (i >= s.clear))
  {
    var pre, s, rest := Mask(subs[..k]), subs[k], Mask(subs[k+1..]);
    var mid := Run(false, s.clear) + Run(true, s.protected) + rest;
    assert subs == subs[..k] + subs[k..] && subs[k..] == [s] + subs[k+1..] && subs[k..][1..] == subs[k+1..];
    MaskAppend(subs[..k], subs[k..]);
    assert Mask(subs) == pre + mid;
    MaskLength(subs[..k]); MaskLength(subs);
    TotalStep(subs, k);
    if i < s.clear + s.protected { RankHead(s, rest, i); } else { RankTail(s, rest, 0); }
    RankAppend(pre, mid, i);
    RankAppend(pre, mid, 0);
  }

  /** Subsample k of a layout as a whole: where it lies and, byte by byte, what it protects. */
  lemma {:induction false} SubsampleCovers(subs: seq<Subsample>, k: nat)
    requires k < |subs|
    ensures var mask, pos, s := Mask(subs), Total(subs[..k]), subs[k];
      && pos + s.clear + s.protected == Total(subs[..k+1]) <= |mask| == Total(subs)
      && Rank(mask, pos + s.clear + s.protected) == Rank(mask, pos) + s.protected
      && forall x: nat {:trigger Rank(mask, x)} {:trigger mask[x]} :: pos <= x < pos + s.clear + s.protected ==>
        && mask[x] == (x >= pos + s.clear)
        && Rank(mask, x) == Rank(mask, pos) + (if x >= pos + s.clear then x - pos - s.clear else 0)
  {
    var mask, pos, s := Mask(subs), Total(subs[..k]), subs[k];
    SubsampleAt(subs, k, s.clear + s.protected);
    forall x: nat | pos <= x < pos + s.clear + s.protected
      ensures mask[x] == (x >= pos + s.clear)
      ensures Rank(mask, x) == Rank(mask, pos) + (if x >= pos + s.clear then x - pos - s.clear else 0)
    {
      SubsampleAt(subs, k, x - pos);
    }
  }

  lemma TotalStep(subs: seq<Subsample>, k: nat)
    requires k < |subs|
    ensures Total(subs[..k+1]) == Total(subs[..k]) + subs[k].clear + subs[k].protected
  {
    assert subs[..k+1] == subs[..k] + [subs[k]];
    TotalAppend(subs[..k], [subs[k]]);
  }

  lemma {:induction false} TotalAppend(a: seq<Subsample>, b: seq<Subsample>)
    ensures Total(a + b) == Total(a) + Total(b)
  {
    if a == [] {
      assert a + b == b;
    } else {
      assert (a + b)[1..] == a[1..] + b;
      TotalAppend(a[1..], b);
    }
  }
}
