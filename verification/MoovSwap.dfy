/** The crash-ordered moov swap (mp4/editshift.go, appendAndRetire): whatever a crash leaves of the unsynced writes, the
    file shows a whole movie header, the old one or the new. */
module MoovSwap {
  import opened Arith
  import opened Bytes
  import opened Boxes
  import opened MoovLayout
  import Seqs

  // ---- a disk that may crash ----

  /** An overwrite not yet synced. */
  datatype Write = Write(at: nat, bytes: seq<byte>)

  /** What a reader sees now, what is durable, the overwrites of durable bytes not yet synced, and whether the file's
      length has changed since the last sync. */
  datatype Disk = Disk(contents: seq<byte>, durable: seq<byte>, pending: seq<Write>, resized: bool)

  /** The durable bytes with those of the first n overwrites that were kept. */
  function Applied(base: seq<byte>, pending: seq<Write>, kept: set<nat>, n: nat): (r: seq<byte>)
    requires n <= |pending|
    ensures |r| == |base|
  {
    if n == 0 then base
    else
      var b, w := Applied(base, pending, kept, n - 1), pending[n-1];
      if n - 1 in kept && w.at + |w.bytes| <= |b| then Put(b, w.at, w.bytes) else b
  }

  /** What a crash may leave: any of the overwrites, each whole or not at all; and behind the durable bytes nothing, or
      anything when the file's length had changed. */
  ghost predicate CrashImage(d: Disk, img: seq<byte>) {
    |img| >= |d.durable| && (d.resized || |img| == |d.durable|) &&
    exists kept :: img[..|d.durable|] == Applied(d.durable, d.pending, kept, |d.pending|)
  }

  /** A file handle. An operation may fail: an append may then have written anything behind the durable bytes, an
      overwrite may or may not have landed, a sync has made nothing durable. */
  class File {
    var disk: Disk
    ghost var history: seq<Disk>

    constructor (bytes: seq<byte>)
      ensures disk == Disk(bytes, bytes, [], false) && history == [disk]
    {
      disk := Disk(bytes, bytes, [], false);
      history := [Disk(bytes, bytes, [], false)];
    }

    method Append(b: seq<byte>) returns (ok: bool)
      modifies this
      ensures disk == Disk(disk.contents, old(disk).durable, old(disk).pending, true)
      ensures ok ==> disk.contents == old(disk).contents + b
      ensures !ok ==> exists n :: 0 <= n <= |b| && disk.contents == old(disk).contents + b[..n]
      ensures history == old(history) + [disk]
    {
      ok := *;
      var n := |b|;
      if !ok {
        n :| 0 <= n <= |b|;
      }
      disk := disk.(contents := disk.contents + b[..n], resized := true);
      assert b[..|b|] == b;
      history := history + [disk];
    }

    /** Four bytes over four durable ones, at once. */
    method Flip(at: nat, x: Fourcc) returns (ok: bool)
      requires at + 4 <= |disk.contents|
      modifies this
      ensures disk == Disk(disk.contents, old(disk).durable, old(disk).pending + [Write(at, x)], old(disk).resized)
      ensures disk.contents == (if ok then Put(old(disk).contents, at, x) else old(disk).contents)
      ensures history == old(history) + [disk]
    {
      ok := *;
      disk := disk.(contents := if ok then Put(disk.contents, at, x) else disk.contents, pending := disk.pending + [Write(at, x)]);
      history := history + [disk];
    }

    method Sync() returns (ok: bool)
      modifies this
      ensures disk == (if ok then Disk(old(disk).contents, old(disk).contents, [], false) else old(disk))
      ensures history == old(history) + [disk]
    {
      ok := *;
      if ok {
        disk := Disk(disk.contents, disk.contents, [], false);
      }
      history := history + [disk];
    }

    method Truncate(n: nat)
      modifies this
      ensures disk == old(disk) || (n <= |old(disk).contents| && disk == old(disk).(contents := old(disk).contents[..n], resized := true))
      ensures history == old(history) + [disk]
    {
      var ok: bool := *;
      if ok && n <= |disk.contents| {
        disk := disk.(contents := disk.contents[..n], resized := true);
      }
      history := history + [disk];
    }
  }

  // ---- what crashes leave while boxes are retired ----

  /** The durable file is the boxes with those of s retired and tail behind them; each overwrite pending retires the box
      idx names. */
  ghost predicate Stage(d: Disk, raws: seq<Raw>, s: set<nat>, idx: seq<nat>, tail: seq<byte>) {
    && AllWhole(raws) && d.durable == Join(Retired(raws, s)) + tail && |idx| == |d.pending|
    && forall j :: 0 <= j < |idx| ==> idx[j] < |raws| && d.pending[j] == Write(Off(raws, idx[j]) + 4, FREE)
  }

  function KeptIdx(idx: seq<nat>, kept: set<nat>, n: nat): set<nat>
    requires n <= |idx|
  {
    set j: nat | j < n && j in kept :: idx[j]
  }

  lemma RetypeTwice(r: Raw)
    requires |r| >= 8
    ensures Retype(Retype(r)) == Retype(r)
  {
  }

  lemma RetireOne(raws: seq<Raw>, s: set<nat>, k: nat)
    requires AllWhole(raws) && k < |raws|
    ensures AllWhole(Retired(raws, s)) && Retired(raws, s)[k := Retype(Retired(raws, s)[k])] == Retired(raws, s + {k})
  {
    RetiredWhole(raws, s);
    RetypeTwice(raws[k]);
  }

  lemma PutRetiresOne(raws: seq<Raw>, s: set<nat>, k: nat, tail: seq<byte>)
    requires AllWhole(raws) && k < |raws|
    ensures Off(raws, k) + 8 <= |Join(Retired(raws, s)) + tail|
    ensures Put(Join(Retired(raws, s)) + tail, Off(raws, k) + 4, FREE) == Join(Retired(raws, s + {k})) + tail
  {
    hide Put, Retired;
    RetireOne(raws, s, k);
    RetiredOff(raws, s, k);
    PutRetires(Retired(raws, s), k, tail);
  }

  /** Whichever of the overwrites land, the durable bytes are the boxes with just those retired. */
  lemma {:induction false} AppliedIs(d: Disk, raws: seq<Raw>, s: set<nat>, idx: seq<nat>, tail: seq<byte>, kept: set<nat>, n: nat)
    requires Stage(d, raws, s, idx, tail) && n <= |idx|
    ensures Applied(d.durable, d.pending, kept, n) == Join(Retired(raws, s + KeptIdx(idx, kept, n))) + tail
  {
    hide Put, Retired, ReadHeader;
    if n == 0 {
      assert s + KeptIdx(idx, kept, 0) == s;
    } else {
      AppliedIs(d, raws, s, idx, tail, kept, n - 1);
      PutRetiresOne(raws, s + KeptIdx(idx, kept, n - 1), idx[n-1], tail);
      assert s + KeptIdx(idx, kept, n) ==
        if n - 1 in kept then s + KeptIdx(idx, kept, n - 1) + {idx[n-1]} else s + KeptIdx(idx, kept, n - 1);
    }
  }

  ghost function Named(idx: seq<nat>): set<nat> { set j | 0 <= j < |idx| :: idx[j] }

  /** A crash image is the boxes with s and some of the named ones retired, then the tail; when the length had changed,
      anything behind that. */
  lemma ImageShape(d: Disk, raws: seq<Raw>, s: set<nat>, idx: seq<nat>, tail: seq<byte>, img: seq<byte>) returns (s': set<nat>, t: seq<byte>)
    requires Stage(d, raws, s, idx, tail) && CrashImage(d, img)
    ensures s <= s' <= s + Named(idx) && img == Join(Retired(raws, s')) + t && (d.resized || t == tail)
  {
    hide Retired;
    var kept :| img[..|d.durable|] == Applied(d.durable, d.pending, kept, |d.pending|);
    AppliedIs(d, raws, s, idx, tail, kept, |idx|);
    s' := s + KeptIdx(idx, kept, |idx|);
    t := tail + img[|d.durable|..];
    Seqs.Assoc(Join(Retired(raws, s')), tail, img[|d.durable|..]);
    assert img == img[..|d.durable|] + img[|d.durable|..];
    if !d.resized { assert tail + [] == tail; }
  }

  // ---- what a player may find ----

  predicate MoovAt(raws: seq<Raw>, k: nat)
    requires AllWhole(raws)
  {
    k < |raws| && TypeOf(raws[k]) == MOOV
  }

  /** Byte i is one of a moov's type. */
  ghost predicate TypeByte(raws: seq<Raw>, i: nat) {
    AllWhole(raws) && exists k :: 0 <= k < |raws| && MoovAt(raws, k) && Off(raws, k) + 4 <= i < Off(raws, k) + 8
  }

  /** Every original byte is as it was, but for the types of moovs. */
  ghost predicate Intact(raws: seq<Raw>, img: seq<byte>) {
    |img| >= |Join(raws)| && forall i :: 0 <= i < |Join(raws)| && img[i] != Join(raws)[i] ==> TypeByte(raws, i)
  }

  ghost predicate OnlyMoovs(raws: seq<Raw>, s: set<nat>) {
    AllWhole(raws) && forall k :: k in s ==> MoovAt(raws, k)
  }

  lemma {:induction false} RetiredIntact(raws: seq<Raw>, s: set<nat>, t: seq<byte>)
    requires OnlyMoovs(raws, s)
    ensures Intact(raws, Join(Retired(raws, s)) + t)
    decreases |s|
  {
    hide Intact, Put, ReadHeader, Retired;
    if s == {} {
      NoneRetired(raws);
      NoneIntact(raws, t);
    } else {
      var k :| k in s;
      RetiredIntact(raws, s - {k}, t);
      PutRetiresOne(raws, s - {k}, k, t);
      assert s - {k} + {k} == s;
      PutIntact(raws, Join(Retired(raws, s - {k})) + t, k);
    }
  }

  lemma NoneRetired(raws: seq<Raw>)
    requires AllWhole(raws)
    ensures Retired(raws, {}) == raws
  {
  }

  lemma NoneIntact(raws: seq<Raw>, t: seq<byte>)
    ensures Intact(raws, Join(raws) + t)
  {
  }

  lemma PutIntact(raws: seq<Raw>, img: seq<byte>, k: nat)
    requires AllWhole(raws) && MoovAt(raws, k) && Intact(raws, img) && Off(raws, k) + 8 <= |img|
    ensures Intact(raws, Put(img, Off(raws, k) + 4, FREE))
  {
    var at := Off(raws, k) + 4;
    var r := Put(img, at, FREE);
    forall i | 0 <= i < |Join(raws)| && r[i] != Join(raws)[i] ensures TypeByte(raws, i) {
      if !(at <= i < at + 4) { assert r[i] == img[i]; }
    }
  }

  /** Whatever a crash leaves, a forward walk finds the original movie header, and the original bytes are there. */
  ghost predicate ShowsOld(d: Disk, raws: seq<Raw>, live: nat) {
    live < |raws| && forall img :: CrashImage(d, img) ==> FirstMoov(img) == Some(Off(raws, live)) && Intact(raws, img)
  }

  /** What stands behind the original boxes is the blobs, and a forward walk finds the new movie header among them. */
  ghost predicate NewFound(raws: seq<Raw>, tail: seq<byte>, img: seq<byte>) {
    var n := |Join(raws)|;
    FirstMoov(img) == Past(n, FirstMoov(tail)) && |img| >= n && img[n..] == tail
  }

  /** Whatever a crash leaves, a forward walk finds the new movie header. */
  ghost predicate ShowsNew(d: Disk, raws: seq<Raw>, tail: seq<byte>) {
    forall img :: CrashImage(d, img) ==> NewFound(raws, tail, img) && Intact(raws, img)
  }

  /** Whatever a crash leaves, a forward walk finds the original or the new movie header, never a stray one. */
  ghost predicate ShowsEither(d: Disk, raws: seq<Raw>, live: nat, tail: seq<byte>) {
    live < |raws| && forall img :: CrashImage(d, img) ==>
      (FirstMoov(img) == Some(Off(raws, live)) || NewFound(raws, tail, img)) && Intact(raws, img)
  }

  lemma OldShows(d: Disk, raws: seq<Raw>, live: nat, s: set<nat>, idx: seq<nat>, tail: seq<byte>)
    requires LiveIs(raws, live) && Stage(d, raws, s, idx, tail)
    requires live !in s + Named(idx) && OnlyMoovs(raws, s + Named(idx))
    ensures ShowsOld(d, raws, live)
  {
    hide CrashImage, Intact;
    forall img | CrashImage(d, img) ensures FirstMoov(img) == Some(Off(raws, live)) && Intact(raws, img) {
      var s', t := ImageShape(d, raws, s, idx, tail, img);
      LiveShows(raws, live, s', t);
      RetiredIntact(raws, s', t);
    }
  }

  /** A file none of whose boxes is retired, durable with nothing pending over it. */
  lemma PlainShows(d: Disk, raws: seq<Raw>, live: nat, tail: seq<byte>)
    requires LiveIs(raws, live) && d.durable == Join(raws) + tail && d.pending == []
    ensures ShowsOld(d, raws, live)
  {
    hide ShowsOld, Retired;
    NoneRetired(raws);
    OldShows(d, raws, live, {}, [], tail);
  }

  /** With every moov retired and the blobs durable, the file shows the new header. */
  lemma AllRetired(raws: seq<Raw>, s: set<nat>, tail: seq<byte>)
    requires AllWhole(raws) && forall k :: 0 <= k < |raws| && MoovAt(raws, k) ==> k in s
    ensures NewFound(raws, tail, Join(Retired(raws, s)) + tail)
  {
    hide Retired, FirstMoov;
    TailShows(raws, s, tail);
    RetiredOff(raws, s, |raws|);
    RetiredWhole(raws, s);
    OffIsLength(raws);
    OffIsLength(Retired(raws, s));
  }

  lemma NewShows(d: Disk, raws: seq<Raw>, s: set<nat>, tail: seq<byte>)
    requires Stage(d, raws, s, [], tail) && !d.resized && OnlyMoovs(raws, s)
    requires forall k :: 0 <= k < |raws| && MoovAt(raws, k) ==> k in s
    ensures ShowsNew(d, raws, tail)
  {
    hide CrashImage, Intact, NewFound;
    forall img | CrashImage(d, img) ensures NewFound(raws, tail, img) && Intact(raws, img) {
      var s', t := ImageShape(d, raws, s, [], tail, img);
      assert s' == s;
      AllRetired(raws, s, tail);
      RetiredIntact(raws, s', t);
    }
  }

  lemma EitherShows(d: Disk, raws: seq<Raw>, live: nat, s: set<nat>, idx: seq<nat>, tail: seq<byte>)
    requires LiveIs(raws, live) && Stage(d, raws, s, idx, tail) && !d.resized && live !in s && Named(idx) <= {live} && OnlyMoovs(raws, s)
    requires forall k :: 0 <= k < |raws| && MoovAt(raws, k) ==> k == live || k in s
    ensures ShowsEither(d, raws, live, tail)
  {
    hide CrashImage, Intact, NewFound;
    forall img | CrashImage(d, img)
      ensures (FirstMoov(img) == Some(Off(raws, live)) || NewFound(raws, tail, img)) && Intact(raws, img)
    {
      var s', t := ImageShape(d, raws, s, idx, tail, img);
      if live in s' { AllRetired(raws, s', tail); } else { LiveShows(raws, live, s', t); }
      RetiredIntact(raws, s', t);
    }
  }

  // ---- the swap ----

  /** The blobs one after another. */
  function Blobs(blobs: seq<seq<byte>>, n: nat): seq<byte>
    requires n <= |blobs|
  {
    if n == 0 then [] else Blobs(blobs, n - 1) + blobs[n-1]
  }

  /** A file nobody else is writing: what is read is durable. */
  ghost predicate Settled(d: Disk, bytes: seq<byte>) { d == Disk(bytes, bytes, [], false) }

  /** Appends the blobs; on failure the file is cut back. */
  method AppendBlobs(f: File, ghost raws: seq<Raw>, ghost live: nat, blobs: seq<seq<byte>>) returns (ok: bool)
    requires LiveIs(raws, live) && Settled(f.disk, Join(raws))
    modifies f
    ensures OldSince(f.history, old(f.history), raws, live)
    ensures ok ==> Settled(f.disk, Join(raws) + Blobs(blobs, |blobs|))
  {
    hide ShowsOld, CrashImage, FirstMoov, ReadHeader, Retired, Stage;
    var n := |f.disk.contents|;
    assert Join(raws) + [] == Join(raws);
    for i := 0 to |blobs|
      invariant f.disk.durable == Join(raws) && f.disk.pending == []
      invariant f.disk.contents == Join(raws) + Blobs(blobs, i)
      invariant OldSince(f.history, old(f.history), raws, live)
      modifies f
    {
      ok := f.Append(blobs[i]);
      PlainShows(f.disk, raws, live, []);
      Seqs.Assoc(Join(raws), Blobs(blobs, i), blobs[i]);
      if !ok {
        f.Truncate(n);
        PlainShows(f.disk, raws, live, []);
        return false;
      }
    }
    ghost var before := f.disk;
    PlainShows(before, raws, live, []);
    ok := f.Sync();
    var tail := Blobs(blobs, |blobs|);
    if ok {
      PlainShows(f.disk, raws, live, tail);
    } else {
      f.Truncate(n);
      PlainShows(f.disk, raws, live, []);
    }
  }

  /** The boxes idx names retired, in the bytes a reader sees; on the disk perhaps not yet. */
  ghost predicate Retiring(d: Disk, raws: seq<Raw>, s: set<nat>, idx: seq<nat>, tail: seq<byte>) {
    Stage(d, raws, s, idx, tail) && !d.resized && d.contents == Join(Retired(raws, s + Named(idx))) + tail
  }

  lemma NamedNext(idx: seq<nat>, k: nat)
    ensures Named(idx + [k]) == Named(idx) + {k}
  {
    forall x ensures x in Named(idx + [k]) <==> x in Named(idx) + {k} {
      if x in Named(idx) {
        var j :| 0 <= j < |idx| && idx[j] == x;
        assert (idx + [k])[j] == x;
      }
      if x == k { assert (idx + [k])[|idx|] == k; }
    }
  }

  /** Turns a moov into a free box. */
  method RetireMoov(f: File, off: nat, ghost raws: seq<Raw>, ghost s: set<nat>, ghost idx: seq<nat>, ghost tail: seq<byte>, ghost k: nat)
    returns (ok: bool)
    requires Retiring(f.disk, raws, s, idx, tail) && k < |raws| && off == Off(raws, k)
    modifies f
    ensures Stage(f.disk, raws, s, idx + [k], tail) && !f.disk.resized
    ensures ok ==> Retiring(f.disk, raws, s, idx + [k], tail)
    ensures f.history == old(f.history) + [f.disk]
  {
    hide Put, Retired, Named;
    PutRetiresOne(raws, s + Named(idx), k, tail);
    NamedNext(idx, k);
    assert s + Named(idx) + {k} == s + Named(idx + [k]);
    ok := f.Flip(off + 4, FREE);
  }

  lemma SyncedStage(d: Disk, raws: seq<Raw>, s: set<nat>, idx: seq<nat>, tail: seq<byte>)
    requires Retiring(d, raws, s, idx, tail)
    ensures Retiring(Disk(d.contents, d.contents, [], false), raws, s + Named(idx), [], tail)
  {
    hide Retired;
    assert s + Named(idx) + Named([]) == s + Named(idx);
  }

  /** History since a method began, all of it showing the original header. */
  ghost predicate OldSince(h: seq<Disk>, before: seq<Disk>, raws: seq<Raw>, live: nat) {
    before <= h && forall i :: |before| <= i < |h| ==> ShowsOld(h[i], raws, live)
  }

  /** Retires the stray moovs, and makes that durable when there are any. */
  method RetireStrays(f: File, strays: seq<nat>, ghost raws: seq<Raw>, ghost idx: seq<nat>, ghost tail: seq<byte>) returns (ok: bool)
    requires Retiring(f.disk, raws, {}, [], tail) && idx == MoovIdx(raws, |raws|) && idx != []
    requires |strays| == |idx| - 1 && forall j :: 0 <= j < |strays| ==> strays[j] == Off(raws, idx[j + 1])
    modifies f
    ensures OldSince(f.history, old(f.history), raws, idx[0])
    ensures ok ==> Retiring(f.disk, raws, Named(idx[1..]), [], tail)
  {
    hide ShowsOld, Retired, Stage, Retiring, Named, MoovIdx;
    StageWhole(f.disk, raws, {}, [], tail);
    FirstIsLive(raws);
    assert idx[1..1] == [];
    for i := 0 to |strays|
      invariant Retiring(f.disk, raws, {}, idx[1..i + 1], tail)
      invariant OldSince(f.history, old(f.history), raws, idx[0])
      modifies f
    {
      ok := RetireMoov(f, strays[i], raws, {}, idx[1..i + 1], tail, idx[i + 1]);
      assert idx[1..i + 1] + [idx[i + 1]] == idx[1..i + 2];
      StraysOld(f.disk, raws, idx, i + 2, tail);
      if !ok {
        return false;
      }
    }
    assert idx[1..|strays| + 1] == idx[1..];
    if |strays| > 0 {
      StageWhole(f.disk, raws, {}, idx[1..], tail);
      assert idx[1..|idx|] == idx[1..];
      StraysOld(f.disk, raws, idx, |idx|, tail);
      SyncedStage(f.disk, raws, {}, idx[1..], tail);
      ok := f.Sync();
      if ok {
        StraysDone(f.disk, raws, idx, tail);
      }
    } else {
      ok := true;
      assert idx[1..] == [] && Named([]) == {} by { NamedNone(); }
    }
  }

  lemma NamedIs(idx: seq<nat>)
    ensures forall x :: x in Named(idx) <==> exists j :: 0 <= j < |idx| && idx[j] == x
  {
  }

  lemma NamedNone()
    ensures Named([]) == {}
  {
  }

  lemma StageWhole(d: Disk, raws: seq<Raw>, s: set<nat>, idx: seq<nat>, tail: seq<byte>)
    requires Retiring(d, raws, s, idx, tail)
    ensures AllWhole(raws) && Stage(d, raws, s, idx, tail)
  {
  }

  lemma NamedStrays(raws: seq<Raw>, idx: seq<nat>, n: nat)
    requires AllWhole(raws) && idx == MoovIdx(raws, |raws|) && 1 <= n <= |idx|
    ensures idx[0] !in Named(idx[1..n]) && OnlyMoovs(raws, Named(idx[1..n]))
    ensures n == |idx| ==> forall k :: 0 <= k < |raws| && MoovAt(raws, k) ==> k == idx[0] || k in Named(idx[1..n])
  {
    hide MoovIdx, ReadHeader, Named;
    NamedIs(idx[1..n]);
    forall x | x in Named(idx[1..n]) ensures x != idx[0] && MoovAt(raws, x) {
      var j :| 0 <= j < n - 1 && idx[1..n][j] == x;
      assert x == idx[j + 1];
    }
    if n == |idx| {
      forall k | 0 <= k < |raws| && MoovAt(raws, k) ensures k == idx[0] || k in Named(idx[1..n]) {
        assert k in idx;
        var j :| 0 <= j < |idx| && idx[j] == k;
        if j > 0 { assert idx[1..n][j - 1] == k; }
      }
    }
  }

  lemma StraysOld(d: Disk, raws: seq<Raw>, idx: seq<nat>, n: nat, tail: seq<byte>)
    requires AllWhole(raws) && idx == MoovIdx(raws, |raws|) && 1 <= n <= |idx|
    requires Stage(d, raws, {}, idx[1..n], tail)
    ensures ShowsOld(d, raws, idx[0])
  {
    hide Stage, ShowsOld, MoovIdx;
    FirstIsLive(raws);
    NamedStrays(raws, idx, n);
    assert {} + Named(idx[1..n]) == Named(idx[1..n]);
    OldShows(d, raws, idx[0], {}, idx[1..n], tail);
  }

  lemma StraysDone(d: Disk, raws: seq<Raw>, idx: seq<nat>, tail: seq<byte>)
    requires AllWhole(raws) && idx == MoovIdx(raws, |raws|) && idx != []
    requires Retiring(d, raws, {} + Named(idx[1..]), [], tail)
    ensures ShowsOld(d, raws, idx[0]) && Retiring(d, raws, Named(idx[1..]), [], tail)
  {
    hide Stage, ShowsOld, MoovIdx;
    FirstIsLive(raws);
    NamedStrays(raws, idx, |idx|);
    assert idx[1..|idx|] == idx[1..];
    assert {} + Named(idx[1..]) == Named(idx[1..]) == Named(idx[1..]) + Named([]);
    OldShows(d, raws, idx[0], Named(idx[1..]), [], tail);
  }

  /** Retires the live moov, the one overwrite that makes the appended header the file's. */
  method RetireLive(f: File, off: nat, ghost raws: seq<Raw>, ghost idx: seq<nat>, ghost tail: seq<byte>) returns (ok: bool)
    requires AllWhole(raws) && idx == MoovIdx(raws, |raws|) && idx != []
    requires Retiring(f.disk, raws, Named(idx[1..]), [], tail) && off == Off(raws, idx[0])
    modifies f
    ensures old(f.history) <= f.history
    ensures forall i :: |old(f.history)| <= i < |f.history| ==> ShowsEither(f.history[i], raws, idx[0], tail)
    ensures ok ==> ShowsNew(f.disk, raws, tail) && f.disk.contents == f.disk.durable && f.disk.pending == []
  {
    hide ShowsEither, ShowsNew, Stage, Retired;
    StageWhole(f.disk, raws, Named(idx[1..]), [], tail);
    ok := RetireMoov(f, off, raws, Named(idx[1..]), [], tail, idx[0]);
    assert [] + [idx[0]] == [idx[0]];
    LiveEither(f.disk, raws, idx, tail);
    if !ok {
      return false;
    }
    SyncedStage(f.disk, raws, Named(idx[1..]), [idx[0]], tail);
    ok := f.Sync();
    if ok {
      LiveDone(f.disk, raws, idx, tail);
    }
  }

  lemma LiveEither(d: Disk, raws: seq<Raw>, idx: seq<nat>, tail: seq<byte>)
    requires AllWhole(raws) && idx == MoovIdx(raws, |raws|) && idx != [] && !d.resized
    requires Stage(d, raws, Named(idx[1..]), [idx[0]], tail)
    ensures ShowsEither(d, raws, idx[0], tail)
  {
    hide Stage, ShowsEither, MoovIdx;
    FirstIsLive(raws);
    NamedStrays(raws, idx, |idx|);
    assert idx[1..|idx|] == idx[1..];
    EitherShows(d, raws, idx[0], Named(idx[1..]), [idx[0]], tail);
  }

  lemma LiveDone(d: Disk, raws: seq<Raw>, idx: seq<nat>, tail: seq<byte>)
    requires AllWhole(raws) && idx == MoovIdx(raws, |raws|) && idx != []
    requires Retiring(d, raws, Named(idx[1..]) + Named([idx[0]]), [], tail)
    ensures ShowsNew(d, raws, tail) && ShowsEither(d, raws, idx[0], tail)
  {
    hide Stage, ShowsNew, MoovIdx, CrashImage;
    FirstIsLive(raws);
    NamedStrays(raws, idx, |idx|);
    assert idx[1..|idx|] == idx[1..];
    var s := Named(idx[1..]) + Named([idx[0]]);
    assert [idx[0]][0] in Named([idx[0]]);
    NewShows(d, raws, s, tail);
    NewIsEither(d, raws, idx[0], tail);
  }

  lemma NewIsEither(d: Disk, raws: seq<Raw>, live: nat, tail: seq<byte>)
    requires ShowsNew(d, raws, tail) && live < |raws|
    ensures ShowsEither(d, raws, live, tail)
  {
  }

  /** A forward walk finds the last of the blobs, which stands whole at the end of the file. */
  ghost predicate ShowsLast(raws: seq<Raw>, blobs: seq<Raw>, img: seq<byte>)
    requires blobs != []
  {
    var last := blobs[|blobs|-1];
    |img| >= |last| && FirstMoov(img) == Some(|img| - |last|) && img[|img| - |last|..] == last
  }

  /** Where what stands behind the boxes is the blobs, and only the last of them is a movie header, that one is found. */
  lemma NewIsLast(raws: seq<Raw>, blobs: seq<Raw>, img: seq<byte>)
    requires blobs != [] && LiveIs(blobs, |blobs| - 1) && NewFound(raws, Blobs(blobs, |blobs|), img)
    ensures ShowsLast(raws, blobs, img)
  {
    hide LiveIs, FirstMoov, Join;
    var tail, last, n := Blobs(blobs, |blobs|), blobs[|blobs|-1], |Join(raws)|;
    BlobsShow(blobs);
    Seqs.Split(Blobs(blobs, |blobs| - 1), last);
    Seqs.DropDrop(img, n, |tail| - |last|);
    assert n + (|tail| - |last|) == |img| - |last|;
  }

  /** What a scan found of a file: its boxes, and where the movie headers are among them. */
  ghost predicate Scanned(file: seq<byte>, raws: seq<Raw>, lay: Layout) {
    Raws(file) == Ok(raws) && AllWhole(raws) && lay == LayoutOf(raws, |raws|) && lay.moov.Some?
  }

  /** Lands the blobs, the new movie header the last of them, behind a scanned file: append, sync, retire the strays, sync,
      retire the live header, sync. Up to the last retirement every crash leaves the original header the one a forward walk
      finds; from then on it finds that one or the first of the blobs' own; once the swap has succeeded, that. Where the
      blobs end with the new header and hold no other, the one found is the new header, byte for byte. */
  method AppendAndRetire(f: File, file: seq<byte>, ghost raws: seq<Raw>, lay: Layout, blobs: seq<seq<byte>>)
    returns (r: Result<()>, ghost flip: nat)
    requires Scanned(file, raws, lay)
    requires Settled(f.disk, f.disk.contents) && (|f.disk.contents| == |file| ==> f.disk.contents == file)
    modifies f
    ensures old(f.history) <= f.history && |old(f.history)| <= flip <= |f.history|
    ensures MoovIdx(raws, |raws|) != []
      && (forall i :: |old(f.history)| <= i < flip ==> ShowsOld(f.history[i], raws, MoovIdx(raws, |raws|)[0]))
      && (forall i :: flip <= i < |f.history| ==> ShowsEither(f.history[i], raws, MoovIdx(raws, |raws|)[0], Blobs(blobs, |blobs|)))
      && (r.Ok? ==> ShowsNew(f.disk, raws, Blobs(blobs, |blobs|)) && f.disk.contents == f.disk.durable && f.disk.pending == [])
    ensures blobs != [] && LiveIs(blobs, |blobs| - 1) ==>
      && (forall i, img :: flip <= i < |f.history| && CrashImage(f.history[i], img) ==>
            FirstMoov(img) == Some(Off(raws, MoovIdx(raws, |raws|)[0])) || ShowsLast(raws, blobs, img))
      && (r.Ok? ==> forall img :: CrashImage(f.disk, img) ==> ShowsLast(raws, blobs, img))
    ensures |old(f.disk).contents| != |file| ==> r.Err? && f.history == old(f.history)
  {
    hide Raws, ShowsOld, ShowsEither, ShowsNew;
    RawsJoin(file);
    ghost var idx := MoovIdx(raws, |raws|);
    ghost var tail := Blobs(blobs, |blobs|);
    LayoutNames(raws, |raws|);
    FirstIsLive(raws);
    flip := |f.history|;
    if |f.disk.contents| != |file| {
      return Err("the file changed while it was being edited"), flip;
    }
    var ok := AppendBlobs(f, raws, idx[0], blobs);
    flip := |f.history|;
    if !ok {
      return Err("append moov"), flip;
    }
    StartRetiring(f.disk, raws, tail);
    ok := RetireStrays(f, lay.strays, raws, idx, tail);
    flip := |f.history|;
    if !ok {
      return Err("retire stray moov"), flip;
    }
    ok := RetireLive(f, lay.moov.value.0, raws, idx, tail);
    if blobs != [] && LiveIs(blobs, |blobs| - 1) { EitherIsLast(f.history, flip, raws, idx[0], blobs); }
    if ok && blobs != [] && LiveIs(blobs, |blobs| - 1) { NewAreLast(f.disk, raws, blobs); }
    if !ok {
      return Err("retire moov"), flip;
    }
    return Ok(()), flip;
  }

  lemma EitherIsLast(h: seq<Disk>, from: nat, raws: seq<Raw>, live: nat, blobs: seq<Raw>)
    requires blobs != [] && LiveIs(blobs, |blobs| - 1) && live < |raws|
    requires forall i :: from <= i < |h| ==> ShowsEither(h[i], raws, live, Blobs(blobs, |blobs|))
    ensures forall i, img :: from <= i < |h| && CrashImage(h[i], img) ==>
      FirstMoov(img) == Some(Off(raws, live)) || ShowsLast(raws, blobs, img)
  {
    hide CrashImage, Intact, NewFound, ShowsLast, FirstMoov, LiveIs;
    forall i, img | from <= i < |h| && CrashImage(h[i], img)
      ensures FirstMoov(img) == Some(Off(raws, live)) || ShowsLast(raws, blobs, img)
    {
      assert ShowsEither(h[i], raws, live, Blobs(blobs, |blobs|));
      if NewFound(raws, Blobs(blobs, |blobs|), img) { NewIsLast(raws, blobs, img); }
    }
  }

  lemma NewAreLast(d: Disk, raws: seq<Raw>, blobs: seq<Raw>)
    requires blobs != [] && LiveIs(blobs, |blobs| - 1) && ShowsNew(d, raws, Blobs(blobs, |blobs|))
    ensures forall img :: CrashImage(d, img) ==> ShowsLast(raws, blobs, img)
  {
    hide CrashImage, Intact, NewFound, ShowsLast, LiveIs;
    forall img | CrashImage(d, img) ensures ShowsLast(raws, blobs, img) { NewIsLast(raws, blobs, img); }
  }

  lemma StartRetiring(d: Disk, raws: seq<Raw>, tail: seq<byte>)
    requires AllWhole(raws) && Settled(d, Join(raws) + tail)
    ensures Retiring(d, raws, {}, [], tail)
  {
    assert Retired(raws, {}) == raws && {} + Named([]) == {};
  }

  /** Blobs that are whole boxes, only the last of them a moov, show that one to a walk that reaches them. */
  lemma {:induction false} BlobsShow(blobs: seq<Raw>)
    requires blobs != [] && LiveIs(blobs, |blobs| - 1)
    ensures FirstMoov(Blobs(blobs, |blobs|)) == Some(|Blobs(blobs, |blobs|)| - |blobs[|blobs|-1]|)
  {
    BlobsJoin(blobs, |blobs|);
    assert blobs[..|blobs|] == blobs;
    assert Join(blobs) + [] == Join(blobs);
    WalkFinds(blobs, |blobs| - 1, []);
    OffIsLength(blobs);
  }

  lemma {:induction false} BlobsJoin(blobs: seq<Raw>, n: nat)
    requires n <= |blobs|
    ensures Blobs(blobs, n) == Join(blobs[..n])
  {
    if n > 0 {
      BlobsJoin(blobs, n - 1);
      assert blobs[..n] == blobs[..n-1] + [blobs[n-1]];
      JoinAppend(blobs[..n-1], blobs[n-1]);
    }
  }

  lemma {:induction false} JoinAppend(a: seq<Raw>, r: Raw)
    ensures Join(a + [r]) == Join(a) + r
  {
    if a == [] {
      assert [r][1..] == [] && r + [] == r;
    } else {
      assert (a + [r])[1..] == a[1..] + [r];
      JoinAppend(a[1..], r);
      Seqs.Assoc(a[0], Join(a[1..]), r);
    }
  }
}
