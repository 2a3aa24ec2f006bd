/** Every interleaving of requests, ended contexts and releases over the encryption slots (mp4/cryptslots.go): slots are
    conserved, none stays idle while a request waits, and no request overtakes an older one. */
module CryptRuns {
  import opened CryptSlots

  /** The gate and its callers: how many hold a slot they never waited for, and of those that waited which returned with a
      slot, which returned an error, and whose slot has been given on. */
  datatype Sys<!W(==)> = Sys(gate: Gate<W>, direct: nat, returned: set<W>, failed: set<W>, done: set<W>)

  /** What can happen next; each locked section is one step. */
  datatype Event<W> = Take | Join(w: W, order: int) | Return(w: W) | CtxEnd(w: W) | ReleaseDirect | ReleaseBy(w: W)

  ghost predicate Step<W(!new)>(s: Sys<W>, e: Event<W>, s': Sys<W>) {
    match e
    case Take => Takes(s.gate, s'.gate) && s' == s.(gate := s'.gate, direct := s.direct + 1)
    case Join(w, order) => Joins(s.gate, s'.gate, w, order) && s' == s.(gate := s'.gate)
    case Return(w) => w in s.gate.flags && s.gate.flags[w].ready && w !in s.failed && s' == s.(returned := s.returned + {w})
    case CtxEnd(w) =>
      w !in s.returned + s.failed && GivesUp(s.gate, s'.gate, w) &&
      s' == s.(gate := s'.gate, failed := s.failed + {w}, done := s.done + if s.gate.flags[w].ready then {w} else {})
    case ReleaseDirect => s.direct > 0 && HandsOff(s.gate, s'.gate) && s' == s.(gate := s'.gate, direct := s.direct - 1)
    case ReleaseBy(w) => w in s.returned - s.done && HandsOff(s.gate, s'.gate) && s' == s.(gate := s'.gate, done := s.done + {w})
  }

  /** A gate of n slots, nobody there yet. */
  function Start<W>(n: nat): Sys<W> { Sys(Gate(n, {}, map[]), 0, {}, {}, {}) }

  function ReadyOnes<W>(g: Gate<W>): set<W> { set w | w in g.flags && g.flags[w].ready }

  /** The waiters that have a slot: handed one, not given on. */
  function Held<W>(s: Sys<W>): set<W> { ReadyOnes(s.gate) - s.done }

  /** A waiter that still waits. */
  predicate Waits<W>(g: Gate<W>, w: W) { w in g.flags && !g.flags[w].ready && !g.flags[w].gone }

  /** The gate's own order: a free slot means an empty heap, the heap holds every waiter that still waits and none that was
      handed a slot. */
  ghost predicate GateOk<W(!new)>(g: Gate<W>) {
    && (g.free > 0 ==> g.queue == {})
    && (forall w :: w in g.queue ==> w in g.flags && !g.flags[w].ready)
    && (forall w :: Waits(g, w) ==> w in g.queue)
    && (forall w :: w in g.flags && g.flags[w].ready ==> !g.flags[w].gone)
  }

  /** The callers' books: only a handed slot is returned with, a slot given on was returned with or failed with, and a
      caller that failed has none. */
  ghost predicate BooksOk<W(!new)>(s: Sys<W>) {
    && s.returned <= ReadyOnes(s.gate) && s.done <= ReadyOnes(s.gate)
    && s.returned !! s.failed && s.done <= s.returned + s.failed
    && (forall w :: w in s.failed ==> w in s.gate.flags && !Waits(s.gate, w) && w !in Held(s))
    && (forall w :: w in s.gate.flags && s.gate.flags[w].gone ==> w in s.failed)
  }

  ghost predicate Ok<W(!new)>(n: nat, s: Sys<W>) {
    GateOk(s.gate) && BooksOk(s) && s.gate.free + s.direct + |Held(s)| == n
  }

  /** What a hand-off does to the gate: one waiter more has a slot, or one slot more is free. */
  lemma HandOffCounts<W(!new)>(g: Gate<W>, g': Gate<W>)
    requires GateOk(g) && HandsOff(g, g')
    ensures GateOk(g') && g'.flags.Keys == g.flags.Keys && ReadyOnes(g) <= ReadyOnes(g')
    ensures (g'.free == g.free + 1 && ReadyOnes(g') == ReadyOnes(g)) ||
      (g'.free == g.free && exists w :: w !in ReadyOnes(g) && Waits(g, w) && ReadyOnes(g') == ReadyOnes(g) + {w})
    ensures forall w :: w in g.flags ==> g'.flags[w].gone == g.flags[w].gone
  {
    if !HandsBack(g, g') {
      var w :| w in g.queue && HandsTo(g, g', w);
      HandToCounts(g, g', w);
    } else {
      WaitingLives(g);
      assert forall w :: Waits(g', w) ==> Waits(g, w);
    }
  }

  lemma HandToCounts<W(!new)>(g: Gate<W>, g': Gate<W>, w: W)
    requires GateOk(g) && HandsTo(g, g', w)
    ensures GateOk(g') && g'.flags.Keys == g.flags.Keys && w !in ReadyOnes(g) && Waits(g, w) && ReadyOnes(g') == ReadyOnes(g) + {w}
  {
    WaitingLives(g);
    forall v | Waits(g', v) ensures v in g'.queue {
      assert v != w && g'.flags[v] == g.flags[v];
      assert Waits(g, v);
    }
    forall v ensures v in ReadyOnes(g') <==> v in ReadyOnes(g) + {w} {
      if v != w && v in g.flags { assert g'.flags[v] == g.flags[v]; }
    }
  }

  lemma WaitingLives<W(!new)>(g: Gate<W>)
    requires GateOk(g)
    ensures forall w :: Waits(g, w) ==> w in g.queue && Live(g, w)
  {
  }

  lemma AddOne<T>(a: set<T>, x: T)
    requires x !in a
    ensures |a + {x}| == |a| + 1
  {
  }

  /** A slot given up by one holder is conserved: the pool or another waiter has it. */
  lemma GivenOn<W(!new)>(g: Gate<W>, g': Gate<W>, done: set<W>, done': set<W>)
    requires GateOk(g) && HandsOff(g, g') && done <= ReadyOnes(g) && done <= done' <= ReadyOnes(g)
    ensures g'.free + |ReadyOnes(g') - done'| == g.free + |ReadyOnes(g) - done'| + 1
  {
    HandOffCounts(g, g');
    if g'.free == g.free {
      var w :| w !in ReadyOnes(g) && Waits(g, w) && ReadyOnes(g') == ReadyOnes(g) + {w};
      AddOne(ReadyOnes(g) - done', w);
      assert ReadyOnes(g') - done' == (ReadyOnes(g) - done') + {w};
    }
  }

  lemma StepTake<W(!new)>(n: nat, s: Sys<W>, s': Sys<W>)
    requires Ok(n, s) && Step(s, Take, s')
    ensures Ok(n, s')
  {
    assert forall w :: Waits(s'.gate, w) ==> Waits(s.gate, w);
    assert ReadyOnes(s'.gate) == ReadyOnes(s.gate);
  }

  lemma StepJoin<W(!new)>(n: nat, s: Sys<W>, w: W, order: int, s': Sys<W>)
    requires Ok(n, s) && Step(s, Join(w, order), s')
    ensures Ok(n, s')
  {
    assert forall v :: Waits(s'.gate, v) && v != w ==> Waits(s.gate, v);
    assert ReadyOnes(s'.gate) == ReadyOnes(s.gate);
  }

  lemma StepReturn<W(!new)>(n: nat, s: Sys<W>, w: W, s': Sys<W>)
    requires Ok(n, s) && Step(s, Return(w), s')
    ensures Ok(n, s')
  {
  }

  /** A hand-off by the holder w keeps the books, whether w returned its slot or failed with it. */
  lemma StepHandOff<W(!new)>(n: nat, s: Sys<W>, w: W, s': Sys<W>)
    requires Ok(n, s) && w in Held(s) && w !in s.failed && HandsOff(s.gate, s'.gate)
    requires s'.direct == s.direct && s'.returned == s.returned && s'.done == s.done + {w}
    requires s'.failed == s.failed + (if w in s.returned then {} else {w})
    ensures Ok(n, s')
  {
    hide *;
    OkIs(n, s);
    HandOffGate(s.gate, s'.gate);
    HandOffTotal(s, w, s');
    HandOffBooks(s, w, s');
    OkIs(n, s');
  }

  lemma OkIs<W(!new)>(n: nat, s: Sys<W>)
    ensures Ok(n, s) <==> GateOk(s.gate) && BooksOk(s) && s.gate.free + s.direct + |Held(s)| == n
  {
  }

  lemma HandOffGate<W(!new)>(g: Gate<W>, g': Gate<W>)
    requires GateOk(g) && HandsOff(g, g')
    ensures GateOk(g')
  {
    HandOffCounts(g, g');
  }

  lemma HandOffTotal<W(!new)>(s: Sys<W>, w: W, s': Sys<W>)
    requires GateOk(s.gate) && BooksOk(s) && w in Held(s) && HandsOff(s.gate, s'.gate) && s'.done == s.done + {w}
    ensures s'.gate.free + |Held(s')| == s.gate.free + |Held(s)|
  {
    hide GateOk, HandsOff;
    DoneReady(s);
    GivenOn(s.gate, s'.gate, s.done, s.done + {w});
    OneLess(Held(s), w);
    assert ReadyOnes(s.gate) - (s.done + {w}) == Held(s) - {w};
  }

  lemma DoneReady<W(!new)>(s: Sys<W>)
    requires BooksOk(s)
    ensures s.done <= ReadyOnes(s.gate)
  {
  }

  lemma HandOffBooks<W(!new)>(s: Sys<W>, w: W, s': Sys<W>)
    requires GateOk(s.gate) && BooksOk(s) && w in Held(s) && w !in s.failed && HandsOff(s.gate, s'.gate)
    requires s'.returned == s.returned && s'.done == s.done + {w}
    requires s'.failed == s.failed + (if w in s.returned then {} else {w})
    ensures BooksOk(s')
  {
    hide GateOk, HandsOff;
    HandOffCounts(s.gate, s'.gate);
    forall v | v in s'.failed ensures v in s'.gate.flags && !Waits(s'.gate, v) && v !in Held(s') {
      FailedStays(s.gate, s'.gate, v);
    }
    assert forall v :: v in s'.gate.flags && s'.gate.flags[v].gone ==> v in s.gate.flags && s.gate.flags[v].gone;
  }

  lemma OneLess<T>(a: set<T>, x: T)
    requires x in a
    ensures |a - {x}| == |a| - 1
  {
  }

  lemma StepGone<W(!new)>(n: nat, s: Sys<W>, w: W, s': Sys<W>)
    requires Ok(n, s) && Step(s, CtxEnd(w), s') && !s.gate.flags[w].ready
    ensures Ok(n, s')
  {
    GoneGate(s.gate, s'.gate, w);
    assert Held(s') == Held(s);
    forall v | v in s'.failed ensures v in s'.gate.flags && !Waits(s'.gate, v) && v !in Held(s') {
      if v != w { assert v in s.failed; }
    }
  }

  lemma GoneGate<W(!new)>(g: Gate<W>, g': Gate<W>, w: W)
    requires GateOk(g) && w in g.flags && !g.flags[w].ready && GivesUp(g, g', w)
    ensures GateOk(g') && ReadyOnes(g') == ReadyOnes(g) && g'.free == g.free && g'.flags.Keys == g.flags.Keys
    ensures !Waits(g', w) && forall v :: v in g.flags && v != w ==> g'.flags[v] == g.flags[v]
  {
    assert forall v :: Waits(g', v) ==> Waits(g, v);
    forall v ensures v in ReadyOnes(g') <==> v in ReadyOnes(g) {
      if v != w && v in g.flags { assert g'.flags[v] == g.flags[v]; }
    }
  }

  lemma StepDirect<W(!new)>(n: nat, s: Sys<W>, s': Sys<W>)
    requires Ok(n, s) && Step(s, ReleaseDirect, s')
    ensures Ok(n, s')
  {
    HandOffCounts(s.gate, s'.gate);
    GivenOn(s.gate, s'.gate, s.done, s.done);
    forall v | v in s'.failed ensures v in s'.gate.flags && !Waits(s'.gate, v) && v !in Held(s') {
      FailedStays(s.gate, s'.gate, v);
    }
  }

  /** Every step keeps the slots conserved and the books straight. */
  lemma StepOk<W(!new)>(n: nat, s: Sys<W>, e: Event<W>, s': Sys<W>)
    requires Ok(n, s) && Step(s, e, s')
    ensures Ok(n, s')
  {
    match e
    case Take => StepTake(n, s, s');
    case Join(w, order) => StepJoin(n, s, w, order, s');
    case Return(w) => StepReturn(n, s, w, s');
    case CtxEnd(w) =>
      if s.gate.flags[w].ready {
        StepHandOff(n, s, w, s');
      } else {
        StepGone(n, s, w, s');
      }
    case ReleaseDirect => StepDirect(n, s, s');
    case ReleaseBy(w) => StepHandOff(n, s, w, s');
  }

  // ---- runs ----

  /** States from a fresh gate, each a step from the one before. */
  ghost predicate Run<W(!new)>(n: nat, states: seq<Sys<W>>, events: seq<Event<W>>) {
    |states| == |events| + 1 && states[0] == Start(n) && forall i :: 0 <= i < |events| ==> Step(states[i], events[i], states[i + 1])
  }

  lemma {:induction false} RunOk<W(!new)>(n: nat, states: seq<Sys<W>>, events: seq<Event<W>>, i: nat)
    requires Run(n, states, events) && i < |states|
    ensures Ok(n, states[i])
  {
    if i == 0 {
      assert ReadyOnes(states[0].gate) == {} && Held(states[0]) == {};
    } else {
      RunOk(n, states, events, i - 1);
      StepOk(n, states[i-1], events[i-1], states[i]);
    }
  }

  /** In every state of every run: the free slots and those held are n, so no more than n callers hold one; while a caller
      waits no slot is free; a caller that got an error holds none. */
  lemma {:induction false} SlotsSafe<W(!new)>(n: nat, states: seq<Sys<W>>, events: seq<Event<W>>, i: nat)
    requires Run(n, states, events) && i < |states|
    ensures var s := states[i];
      && s.gate.free + s.direct + |Held(s)| == n
      && s.direct + |s.returned - s.done| <= n
      && ((exists w :: Waits(s.gate, w)) ==> s.gate.free == 0 && s.direct + |Held(s)| == n)
      && (s.gate.free > 0 ==> s.gate.queue == {})
      && s.failed !! Held(s)
  {
    RunOk(n, states, events, i);
    var s := states[i];
    Subset(s.returned - s.done, Held(s));
    assert forall w :: w in s.failed ==> w !in Held(s);
  }

  lemma {:induction false} Subset<T>(a: set<T>, b: set<T>)
    requires a <= b
    ensures |a| <= |b|
    decreases |b|
  {
    if a != {} {
      var x :| x in a;
      Subset(a - {x}, b - {x});
    }
  }

  /** A hand-off reaches only a caller no younger than any that still waits. */
  lemma HandOffOldest<W(!new)>(g: Gate<W>, g': Gate<W>, v: W)
    requires GateOk(g) && HandsOff(g, g') && Waits(g, v)
    ensures v in g'.flags && g'.flags[v].order == g.flags[v].order
    ensures forall w :: w in ReadyOnes(g') - ReadyOnes(g) ==> w in g.flags && g'.flags[w].order <= g.flags[v].order
    ensures forall w :: w in ReadyOnes(g) ==> w in ReadyOnes(g') && g'.flags[w].order == g.flags[w].order
  {
    WaitingLives(g);
    if !HandsBack(g, g') {
      var w :| w in g.queue && HandsTo(g, g', w);
    }
  }

  /** A slot handed over goes to a caller no younger than any that still waits. */
  lemma NotOvertaken<W(!new)>(n: nat, s: Sys<W>, e: Event<W>, s': Sys<W>, v: W)
    requires Ok(n, s) && Step(s, e, s') && Waits(s.gate, v)
    ensures v in s'.gate.flags && s'.gate.flags[v].order == s.gate.flags[v].order
    ensures forall w :: w in ReadyOnes(s'.gate) - ReadyOnes(s.gate) ==> w in s.gate.flags && s'.gate.flags[w].order <= s.gate.flags[v].order
    ensures forall w :: w in ReadyOnes(s.gate) ==> w in ReadyOnes(s'.gate) && s'.gate.flags[w].order == s.gate.flags[w].order
  {
    hide GateOk, HandsOff, BooksOk;
    match e
    case Take =>
    case Join(w, order) =>
    case Return(w) =>
    case CtxEnd(w) =>
      if s.gate.flags[w].ready { HandOffOldest(s.gate, s'.gate, v); } else { GoneGate(s.gate, s'.gate, w); }
    case ReleaseDirect => HandOffOldest(s.gate, s'.gate, v);
    case ReleaseBy(w) => HandOffOldest(s.gate, s'.gate, v);
  }

  /** While a caller waits, every slot handed over goes to callers that started no later. */
  lemma {:induction false} OldestFirst<W(!new)>(n: nat, states: seq<Sys<W>>, events: seq<Event<W>>, v: W, i: nat, j: nat)
    requires Run(n, states, events) && i <= j < |states|
    requires Waits(states[i].gate, v) && Waits(states[j].gate, v) && forall k :: i <= k <= j ==> Waits(states[k].gate, v)
    ensures states[j].gate.flags[v].order == states[i].gate.flags[v].order
    ensures forall w :: w in ReadyOnes(states[j].gate) - ReadyOnes(states[i].gate) ==>
      states[j].gate.flags[w].order <= states[j].gate.flags[v].order
    decreases j
  {
    hide Ok, Step, Waits, ReadyOnes;
    if i < j {
      OldestFirst(n, states, events, v, i, j - 1);
      RunOk(n, states, events, j - 1);
      NotOvertaken(n, states[j-1], events[j-1], states[j], v);
    }
  }

  /** A hand-off never reaches a caller that no longer waits. */
  lemma FailedStays<W(!new)>(g: Gate<W>, g': Gate<W>, v: W)
    requires GateOk(g) && HandsOff(g, g') && v in g.flags && !Waits(g, v)
    ensures v in g'.flags && !Waits(g', v) && (v in ReadyOnes(g') <==> v in ReadyOnes(g))
  {
    HandOffCounts(g, g');
  }
}
