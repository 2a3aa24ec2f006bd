/** The slots that let only so many segments encrypt at once (mp4/cryptslots.go): requests wait oldest first, in a heap. */
module CryptSlots {

  /** A request that waits: when it started, whether a slot was handed to it, whether its context ended first. */
  class Waiter {
    const order: int
    var ready: bool
    var gone: bool

    constructor (order: int)
      ensures this.order == order && !ready && !gone
    {
      this.order, ready, gone := order, false, false;
    }
  }

  // ---- the heap ----

  function Parent(k: nat): nat
    requires k > 0
  {
    (k - 1) / 2
  }

  /** Entry k does not come before the one above it. */
  predicate Above(h: seq<Waiter>, k: nat)
    requires 0 < k < |h|
  {
    h[Parent(k)].order <= h[k].order
  }

  /** The first n entries are a heap but for entry `bad` and those below it (down) or the entry itself (up). */
  predicate HeapBut(h: seq<Waiter>, n: nat, loose: set<int>)
    requires n <= |h|
  {
    forall k :: 0 < k < n && k !in loose ==> Above(h, k)
  }

  predicate IsHeap(h: seq<Waiter>) { HeapBut(h, |h|, {}) }

  /** Entry i's children do not come before its parent. */
  predicate Spans(h: seq<Waiter>, n: nat, i: nat)
    requires i < n <= |h|
  {
    i > 0 ==> forall k :: 0 < k < n && Parent(k) == i ==> h[Parent(i)].order <= h[k].order
  }

  function Swapped(h: seq<Waiter>, i: nat, j: nat): (r: seq<Waiter>)
    requires i < |h| && j < |h|
    ensures |r| == |h| && multiset(r) == multiset(h)
  {
    h[i := h[j]][j := h[i]]
  }

  /** The first of a heap is the oldest. */
  lemma {:induction false} RootLeast(h: seq<Waiter>, k: nat)
    requires IsHeap(h) && k < |h|
    ensures h[0].order <= h[k].order
    decreases k
  {
    if k > 0 {
      assert Above(h, k);
      RootLeast(h, Parent(k));
    }
  }

  lemma {:induction false} RootLeastOfAll(h: seq<Waiter>)
    requires IsHeap(h) && h != []
    ensures forall v :: v in h ==> h[0].order <= v.order
  {
    forall v | v in h ensures h[0].order <= v.order {
      var k :| 0 <= k < |h| && h[k] == v;
      RootLeast(h, k);
    }
  }

  method Up(h: seq<Waiter>, last: nat) returns (r: seq<Waiter>)
    requires last < |h| && HeapBut(h, |h|, {last}) && Spans(h, |h|, last)
    ensures IsHeap(r) && multiset(r) == multiset(h)
  {
    r := h;
    var j: nat := last;
    while j > 0 && r[j].order < r[Parent(j)].order
      invariant j < |r| && |r| == |h| && multiset(r) == multiset(h)
      invariant HeapBut(r, |r|, {j}) && Spans(r, |r|, j)
    {
      var i := Parent(j);
      r := Raised(r, j);
      j := i;
    }
    assert forall k :: 0 < k < |r| ==> Above(r, k);
  }

  /** An entry older than the one above it moves up. */
  function Raised(h: seq<Waiter>, j: nat): (r: seq<Waiter>)
    requires 0 < j < |h| && HeapBut(h, |h|, {j}) && Spans(h, |h|, j) && h[j].order < h[Parent(j)].order
    ensures |r| == |h| && multiset(r) == multiset(h) && HeapBut(r, |r|, {Parent(j)}) && Spans(r, |r|, Parent(j))
  {
    var i := Parent(j);
    var r := Swapped(h, i, j);
    assert forall k :: 0 < k < |r| && k != i ==> Above(r, k) by {
      forall k | 0 < k < |r| && k != i ensures Above(r, k) { assert k != j ==> Above(h, k); }
    }
    assert i > 0 ==> forall k :: 0 < k < |r| && Parent(k) == i ==> r[Parent(i)].order <= r[k].order by {
      if i > 0 { assert Above(h, i); }
      forall k | 0 < k < |r| && Parent(k) == i && i > 0 ensures r[Parent(i)].order <= r[k].order { assert k != j ==> Above(h, k); }
    }
    r
  }

  /** Below entry i, and only there, the order may be broken. */
  predicate Sinking(h: seq<Waiter>, n: nat, i: nat)
    requires i < n <= |h|
  {
    (forall k :: 0 < k < n && Parent(k) != i ==> Above(h, k)) && Spans(h, n, i)
  }

  method Down(h: seq<Waiter>, n: nat) returns (r: seq<Waiter>)
    requires 0 < n <= |h| && Sinking(h, n, 0)
    ensures |r| == |h| && HeapBut(r, n, {}) && multiset(r) == multiset(h) && r[n..] == h[n..]
  {
    hide Sinking, Lowered, HeapBut;
    r := h;
    var i := 0;
    while 2 * i + 1 < n
      invariant i < n <= |r| == |h| && multiset(r) == multiset(h) && r[n..] == h[n..]
      invariant Sinking(r, n, i)
      decreases n - i
    {
      var j := 2 * i + 1;
      if j + 1 < n && r[j + 1].order < r[j].order {
        j := j + 1;
      }
      if r[i].order <= r[j].order {
        Settles(r, n, i);
        return;
      }
      Children(i);
      r := Lowered(r, n, i, j);
      i := j;
    }
    Settles(r, n, i);
  }

  lemma Children(i: nat)
    ensures forall k: nat :: k > 0 && Parent(k) == i ==> k == 2 * i + 1 || k == 2 * i + 2
  {
  }

  /** Where the entries below i do not come before it, the order is whole. */
  lemma Settles(h: seq<Waiter>, n: nat, i: nat)
    requires i < n <= |h| && Sinking(h, n, i)
    requires 2 * i + 1 < n ==> h[i].order <= h[2 * i + 1].order
    requires 2 * i + 2 < n ==> h[i].order <= h[2 * i + 2].order
    ensures HeapBut(h, n, {})
  {
    Children(i);
    forall k | 0 < k < n ensures Above(h, k) {
      if Parent(k) == i { assert k == 2 * i + 1 || k == 2 * i + 2; }
    }
  }

  /** An entry younger than the older of those below it moves down. */
  function Lowered(h: seq<Waiter>, n: nat, i: nat, j: nat): (r: seq<Waiter>)
    requires 0 < j < n <= |h| && Parent(j) == i && i < n && Sinking(h, n, i) && h[j].order < h[i].order
    requires forall k :: 0 < k < n && Parent(k) == i ==> h[j].order <= h[k].order
    ensures |r| == |h| && multiset(r) == multiset(h) && r[n..] == h[n..] && Sinking(r, n, j)
  {
    var r := Swapped(h, i, j);
    assert forall k :: 0 < k < n && Parent(k) != j ==> Above(r, k) by {
      forall k | 0 < k < n && Parent(k) != j ensures Above(r, k) { assert Parent(k) != i ==> Above(h, k); }
    }
    assert forall k :: 0 < k < n && Parent(k) == j ==> r[i].order <= r[k].order by {
      forall k | 0 < k < n && Parent(k) == j ensures r[i].order <= r[k].order { assert Above(h, k); }
    }
    r
  }

  method Push(h: seq<Waiter>, w: Waiter) returns (r: seq<Waiter>)
    requires IsHeap(h)
    ensures IsHeap(r) && multiset(r) == multiset(h) + multiset{w}
  {
    assert forall k :: 0 < k < |h| ==> Above(h, k);
    var all := h + [w];
    forall k | 0 < k < |h| ensures Above(all, k) { assert Above(h, k); }
    r := Up(all, |h|);
  }

  lemma SwapSinks(h: seq<Waiter>)
    requires IsHeap(h) && |h| > 1
    ensures Sinking(Swapped(h, 0, |h| - 1), |h| - 1, 0)
  {
    var swapped, n := Swapped(h, 0, |h| - 1), |h| - 1;
    forall k | 0 < k < n && Parent(k) != 0 ensures Above(swapped, k) { assert Above(h, k); }
  }

  lemma Shorter(h: seq<Waiter>, n: nat)
    requires n <= |h| && HeapBut(h, n, {})
    ensures IsHeap(h[..n])
  {
    forall k | 0 < k < n ensures Above(h[..n], k) { assert Above(h, k); }
  }

  method Pop(h: seq<Waiter>) returns (w: Waiter, r: seq<Waiter>)
    requires IsHeap(h) && h != []
    ensures IsHeap(r) && multiset(h) == multiset(r) + multiset{w}
    ensures forall v :: v in h ==> w.order <= v.order
  {
    var n := |h| - 1;
    w := h[0];
    RootLeastOfAll(h);
    var swapped := Swapped(h, 0, n);
    if n == 0 {
      assert h == [w];
      return w, [];
    }
    SwapSinks(h);
    var down := Down(swapped, n);
    assert down[n] == down[n..][0] == swapped[n..][0] == w;
    r := down[..n];
    assert down == r + [w];
    Shorter(down, n);
  }

  // ---- the slots, seen as a value ----

  datatype Flags = Flags(order: int, ready: bool, gone: bool)

  /** The free slots, the waiters in the heap, and every waiter's flags. */
  datatype Gate<!W(==)> = Gate(free: nat, queue: set<W>, flags: map<W, Flags>)

  /** A waiter whose request has not ended. */
  ghost predicate Live<W>(g: Gate<W>, w: W) {
    w in g.queue && w in g.flags && !g.flags[w].gone
  }

  /** One slot handed to w, the oldest live waiter; no other live waiter leaves the heap. */
  ghost predicate HandsTo<W>(g: Gate<W>, g': Gate<W>, w: W) {
    && Live(g, w) && (forall v :: v in g.queue && Live(g, v) ==> g.flags[w].order <= g.flags[v].order)
    && g'.free == g.free && g'.flags == g.flags[w := g.flags[w].(ready := true)]
    && g'.queue <= g.queue - {w} && forall v :: v in g.queue && Live(g, v) && v != w ==> v in g'.queue
  }

  /** One slot back to the pool: no live waiter there to take it. */
  ghost predicate HandsBack<W>(g: Gate<W>, g': Gate<W>) {
    (forall v :: v in g.queue ==> !Live(g, v)) && g'.free == g.free + 1 && g'.queue == {} && g'.flags == g.flags
  }

  ghost predicate HandsOff<W>(g: Gate<W>, g': Gate<W>) {
    HandsBack(g, g') || exists w :: w in g.queue && HandsTo(g, g', w)
  }

  /** A request that finds a slot free takes it. */
  ghost predicate Takes<W>(g: Gate<W>, g': Gate<W>) {
    g.free > 0 && g' == g.(free := g.free - 1)
  }

  /** A request that finds none free joins the heap. */
  ghost predicate Joins<W>(g: Gate<W>, g': Gate<W>, w: W, order: int) {
    g.free == 0 && w !in g.flags && g' == Gate(0, g.queue + {w}, g.flags[w := Flags(order, false, false)])
  }

  /** A waiter whose context ended: it passes on the slot it was handed, else is marked gone. */
  ghost predicate GivesUp<W>(g: Gate<W>, g': Gate<W>, w: W) {
    w in g.flags && if g.flags[w].ready then HandsOff(g, g') else g' == g.(flags := g.flags[w := g.flags[w].(gone := true)])
  }

  ghost predicate Distinct(h: seq<Waiter>) {
    forall w :: w in h ==> multiset(h)[w] == 1
  }

  class CryptOrder {
    var free: nat
    var waiting: seq<Waiter>
    ghost var made: set<Waiter>

    ghost predicate Valid()
      reads this, made
    {
      && IsHeap(waiting) && (free > 0 ==> waiting == [])
      && Distinct(waiting) && forall w :: w in waiting ==> w in made && !w.ready
    }

    ghost function Snap(): Gate<Waiter>
      reads this, made
    {
      Gate(free, set w | w in waiting, map w | w in made :: Flags(w.order, w.ready, w.gone))
    }

    constructor (n: int)
      ensures Valid() && fresh(made)
      ensures Snap() == Gate(if n < 1 then 1 else n, {}, map[])
    {
      free := if n < 1 then 1 else n;
      waiting := [];
      made := {};
    }

    /** acquire's first locked section: a slot at once, or a waiter in the heap. */
    method Enter(order: int) returns (w: Waiter?)
      requires Valid()
      modifies this
      ensures Valid() && old(made) <= made && fresh(made - old(made))
      ensures if w == null then Takes(old(Snap()), Snap()) else w in made && Joins(old(Snap()), Snap(), w, order)
    {
      if free > 0 {
        free := free - 1;
        return null;
      }
      hide IsHeap, HeapBut, Distinct;
      var v := new Waiter(order);
      var heap := Push(waiting, v);
      Pushed(heap, v, waiting);
      waiting := heap;
      made := made + {v};
      return v;
    }

    /** Gives one slot away: to the oldest live waiter, else to the pool. */
    method HandOff()
      requires Valid()
      modifies this`free, this`waiting, made
      ensures Valid() && HandsOff(old(Snap()), Snap())
    {
      hide IsHeap, HeapBut, Distinct;
      ghost var g := Snap();
      while waiting != []
        invariant Valid() && Snap() == g.(queue := Snap().queue) && Snap().queue <= g.queue
        invariant forall v :: v in g.queue && Live(g, v) ==> v in waiting
        decreases |waiting|
        modifies this`waiting, made
      {
        ghost var before := waiting;
        var w, rest := Pop(waiting);
        Popped(before, w, rest);
        waiting := rest;
        if !w.gone {
          w.ready := true;
          assert HandsTo(g, Snap(), w);
          return;
        }
      }
      free := free + 1;
      assert HandsBack(g, Snap());
    }

    /** acquire's second locked section, when its context ended first. */
    method GiveUp(w: Waiter)
      requires Valid() && w in made
      modifies this`free, this`waiting, made
      ensures Valid() && GivesUp(old(Snap()), Snap(), w)
    {
      if w.ready {
        HandOff();
      } else {
        w.gone := true;
      }
    }

    method Release()
      requires Valid()
      modifies this`free, this`waiting, made
      ensures Valid() && HandsOff(old(Snap()), Snap())
    {
      HandOff();
    }
  }

  lemma Popped(h: seq<Waiter>, w: Waiter, r: seq<Waiter>)
    requires multiset(h) == multiset(r) + multiset{w} && Distinct(h)
    ensures |h| == |r| + 1 && w in h && Distinct(r) && w !in r
    ensures forall v :: v in h <==> v in r || v == w
  {
    assert |multiset(h)| == |multiset(r)| + 1;
    forall v ensures v in h <==> v in r || v == w {
      assert v in h <==> v in multiset(h);
      assert v in r <==> v in multiset(r);
    }
    assert w in multiset(h);
  }

  lemma Pushed(h: seq<Waiter>, w: Waiter, r: seq<Waiter>)
    requires multiset(h) == multiset(r) + multiset{w} && Distinct(r) && w !in r
    ensures Distinct(h) && forall v :: v in h <==> v in r || v == w
  {
    forall v ensures v in h <==> v in r || v == w {
      assert v in h <==> v in multiset(h);
      assert v in r <==> v in multiset(r);
    }
  }
}
