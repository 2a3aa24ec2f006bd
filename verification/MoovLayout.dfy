/** The top-level boxes of a file to be edited (mp4/editshift.go, scanTopLevelLayout), and what a forward walk over them
    finds when some are retired. */
module MoovLayout {
  import opened Arith
  import opened Bytes
  import opened Boxes
  import Seqs

  const MOOV: Fourcc := [0x6D, 0x6F, 0x6F, 0x76]
  const FREE: Fourcc := [0x66, 0x72, 0x65, 0x65]

  /** A box's bytes, header and all. */
  type Raw = seq<byte>

  /** A box that states its own length. */
  predicate Whole(r: Raw) {
    |r| >= 8 && BE(r[..4]) != 0 && ReadHeader(r).Ok? && ReadHeader(r).value.size == |r|
  }

  ghost predicate AllWhole(raws: seq<Raw>) { forall i :: 0 <= i < |raws| ==> Whole(raws[i]) }

  function TypeOf(r: Raw): Fourcc
    requires |r| >= 8
  {
    r[4..8]
  }

  function Join(raws: seq<Raw>): seq<byte> {
    if raws == [] then [] else raws[0] + Join(raws[1..])
  }

  /** The boxes of a buffer, each stating its length, nothing left over. */
  function Raws(buf: seq<byte>): Result<seq<Raw>> {
    if |buf| < 8 then (if buf == [] then Ok([]) else Err("junk beyond the last box"))
    else if BE(buf[..4]) == 0 then Err("a box declares size 0")
    else
      match ReadHeader(buf)
      case Err(why) => Err(why)
      case Ok(h) => Following([buf[..h.size]], Raws(buf[h.size..]))
  }

  function Following(first: seq<Raw>, r: Result<seq<Raw>>): Result<seq<Raw>> {
    match r
    case Err(why) => Err(why)
    case Ok(rest) => Ok(first + rest)
  }

  /** Where the moov lies among the top-level boxes, and the moovs after it; each mdat's start, payload and end. */
  datatype Layout = Layout(moov: Option<(nat, nat, nat)>, strays: seq<nat>, mdats: seq<(nat, nat, nat)>)

  /** A layout with one box more, at off. */
  function Noted(l: Layout, off: nat, r: Raw): Layout
    requires Whole(r)
  {
    var hdr := ReadHeader(r).value.head;
    var l' := if TypeOf(r) == MDAT then l.(mdats := l.mdats + [(off, off + hdr, off + |r|)]) else l;
    if TypeOf(r) != MOOV then l'
    else if l'.moov.None? then l'.(moov := Some((off, |r|, hdr)))
    else l'.(strays := l'.strays + [off])
  }

  /** Where box n starts. */
  function Off(raws: seq<Raw>, n: nat): nat
    requires n <= |raws|
  {
    if n == 0 then 0 else Off(raws, n - 1) + |raws[n-1]|
  }

  function LayoutOf(raws: seq<Raw>, n: nat): Layout
    requires AllWhole(raws) && n <= |raws|
  {
    if n == 0 then Layout(None, [], []) else Noted(LayoutOf(raws, n - 1), Off(raws, n - 1), raws[n-1])
  }

  lemma {:induction false} RawsJoin(buf: seq<byte>)
    requires Raws(buf).Ok?
    ensures AllWhole(Raws(buf).value) && Join(Raws(buf).value) == buf
    decreases |buf|
  {
    hide Whole, ReadHeader, Raws;
    if |buf| < 8 {
      RawsTail(buf);
    } else {
      RawsHead(buf);
      var h := ReadHeader(buf).value;
      RawsJoin(buf[h.size..]);
      HeadWhole(buf);
      JoinCons(buf[..h.size], Raws(buf[h.size..]).value);
      assert buf[..h.size] + buf[h.size..] == buf;
    }
  }

  lemma JoinCons(r: Raw, rest: seq<Raw>)
    ensures Join([r] + rest) == r + Join(rest)
  {
    assert ([r] + rest)[1..] == rest;
  }

  lemma FollowingStep(done: seq<Raw>, r: Raw, rest: Result<seq<Raw>>)
    ensures Following(done, Following([r], rest)) == Following(done + [r], rest)
  {
    if rest.Ok? { assert done + ([r] + rest.value) == done + [r] + rest.value; }
  }

  lemma {:induction false} LayoutAppend(raws: seq<Raw>, r: Raw, n: nat)
    requires AllWhole(raws) && Whole(r) && n <= |raws|
    ensures AllWhole(raws + [r]) && Off(raws + [r], n) == Off(raws, n) && LayoutOf(raws + [r], n) == LayoutOf(raws, n)
  {
    if n > 0 { LayoutAppend(raws, r, n - 1); }
  }

  lemma HeadWhole(buf: seq<byte>)
    requires |buf| >= 8 && BE(buf[..4]) != 0 && ReadHeader(buf).Ok?
    ensures var h := ReadHeader(buf).value; var r := buf[..h.size];
      Whole(r) && TypeOf(r) == h.typ && ReadHeader(r).value.head == h.head
  {
    var h := ReadHeader(buf).value;
    var r := buf[..h.size];
    assert r[..4] == buf[..4] && r[4..8] == buf[4..8];
    if BE(buf[..4]) == 1 { assert r[8..16] == buf[8..16]; }
  }

  /** The layout of a file whose walk stays on box boundaries and finds a moov; the last box must state its length, for a
      box appended behind it to stand on its own. */
  method ScanTopLevelLayout(file: seq<byte>) returns (r: Result<Layout>)
    ensures r.Ok? <==> Raws(file).Ok? && (RawsJoin(file); LayoutOf(Raws(file).value, |Raws(file).value|).moov.Some?)
    ensures r.Ok? ==> (RawsJoin(file); r.value == LayoutOf(Raws(file).value, |Raws(file).value|))
  {
    hide Raws, Noted, Whole, ReadHeader;
    var lay := Layout(None, [], []);
    var off := 0;
    ghost var done: seq<Raw> := [];
    assert file[0..] == file;
    FollowingNone(Raws(file));
    while off + 8 <= |file|
      invariant off <= |file| && AllWhole(done) && off == Off(done, |done|) && lay == LayoutOf(done, |done|)
      invariant Raws(file) == Following(done, Raws(file[off..]))
    {
      var rest := file[off..];
      RawsHead(rest);
      if BE(rest[..4]) == 0 {
        return Err("a box declares size 0: appending a moov would extend it");
      }
      var head := ReadHeader(rest);
      if head.Err? {
        return Err(head.why);
      }
      var box := rest[..head.value.size];
      HeadWhole(rest);
      FollowingStep(done, box, Raws(rest[head.value.size..]));
      LayoutAppend(done, box, |done|);
      assert rest[head.value.size..] == file[off + head.value.size..];
      lay := Noted(lay, off, box);
      done := done + [box];
      off := off + head.value.size;
    }
    RawsTail(file[off..]);
    if off != |file| {
      return Err("junk beyond the last box");
    }
    assert done + [] == done;
    if lay.moov.None? {
      return Err("no moov box found");
    }
    return Ok(lay);
  }

  lemma FollowingNone(r: Result<seq<Raw>>)
    ensures Following([], r) == r
  {
    if r.Ok? { assert [] + r.value == r.value; }
  }

  lemma RawsHead(buf: seq<byte>)
    requires |buf| >= 8
    ensures BE(buf[..4]) == 0 || ReadHeader(buf).Err? ==> Raws(buf).Err?
    ensures BE(buf[..4]) != 0 && ReadHeader(buf).Ok? ==>
      Raws(buf) == Following([buf[..ReadHeader(buf).value.size]], Raws(buf[ReadHeader(buf).value.size..]))
  {
  }

  lemma RawsTail(buf: seq<byte>)
    requires |buf| < 8
    ensures if buf == [] then Raws(buf) == Ok([]) else Raws(buf).Err?
  {
  }

  // ---- a forward walk ----

  /** Where a forward walk, as a player makes it, meets its first moov. */
  function FirstMoov(buf: seq<byte>): Option<nat> {
    if |buf| < 8 then None
    else
      match ReadHeader(buf)
      case Err(_) => None
      case Ok(h) => if h.typ == MOOV then Some(0) else Past(h.size, FirstMoov(buf[h.size..]))
  }

  function Past(n: nat, r: Option<nat>): Option<nat> { if r.None? then None else Some(n + r.value) }

  lemma WholeReads(r: Raw, rest: seq<byte>)
    requires Whole(r)
    ensures |r + rest| >= 8 && ReadHeader(r + rest) == ReadHeader(r) && ReadHeader(r).value.typ == TypeOf(r)
  {
    assert (r + rest)[..4] == r[..4] && (r + rest)[4..8] == r[4..8];
    if |r| >= 16 { assert (r + rest)[8..16] == r[8..16]; }
  }

  lemma {:induction false} SkipOne(r: Raw, rest: seq<byte>)
    requires Whole(r)
    ensures FirstMoov(r + rest) == if TypeOf(r) == MOOV then Some(0) else Past(|r|, FirstMoov(rest))
  {
    WholeReads(r, rest);
    assert (r + rest)[|r|..] == rest;
  }

  lemma {:induction false} OffShift(raws: seq<Raw>, n: nat)
    requires 0 < n <= |raws|
    ensures Off(raws, n) == |raws[0]| + Off(raws[1..], n - 1)
  {
    if n > 1 { OffShift(raws, n - 1); }
  }

  /** Whatever follows, a walk over whole boxes meets the first moov among them where it starts. */
  lemma {:induction false} WalkFinds(raws: seq<Raw>, k: nat, tail: seq<byte>)
    requires AllWhole(raws) && k < |raws| && TypeOf(raws[k]) == MOOV && forall i :: 0 <= i < k ==> TypeOf(raws[i]) != MOOV
    ensures FirstMoov(Join(raws) + tail) == Some(Off(raws, k))
    decreases k
  {
    hide ReadHeader, FirstMoov;
    Seqs.Assoc(raws[0], Join(raws[1..]), tail);
    SkipOne(raws[0], Join(raws[1..]) + tail);
    if k > 0 {
      WalkFinds(raws[1..], k - 1, tail);
      OffShift(raws, k);
    }
  }

  /** A walk over whole boxes with no moov among them goes on behind them. */
  lemma {:induction false} WalkPasses(raws: seq<Raw>, tail: seq<byte>)
    requires AllWhole(raws) && forall i :: 0 <= i < |raws| ==> TypeOf(raws[i]) != MOOV
    ensures FirstMoov(Join(raws) + tail) == Past(|Join(raws)|, FirstMoov(tail))
    decreases |raws|
  {
    hide ReadHeader, FirstMoov;
    if raws == [] {
      assert [] + tail == tail;
    } else {
      Seqs.Assoc(raws[0], Join(raws[1..]), tail);
      SkipOne(raws[0], Join(raws[1..]) + tail);
      WalkPasses(raws[1..], tail);
    }
  }

  // ---- retiring a box ----

  /** A box with the type of a free one. */
  function Retype(r: Raw): (f: Raw)
    requires |r| >= 8
    ensures |f| == |r|
  {
    r[..4] + FREE + r[8..]
  }

  lemma RetypeWhole(r: Raw)
    requires Whole(r)
    ensures Whole(Retype(r)) && TypeOf(Retype(r)) == FREE
  {
    var f := Retype(r);
    assert f[..4] == r[..4] && f[4..8] == FREE;
    if |r| >= 16 { assert f[8..16] == r[8..16]; }
  }

  /** The boxes with those of s retired. */
  function Retired(raws: seq<Raw>, s: set<nat>): (f: seq<Raw>)
    requires AllWhole(raws)
    ensures |f| == |raws|
  {
    seq(|raws|, i requires 0 <= i < |raws| => if i in s then Retype(raws[i]) else raws[i])
  }

  lemma RetiredWhole(raws: seq<Raw>, s: set<nat>)
    requires AllWhole(raws)
    ensures AllWhole(Retired(raws, s))
    ensures forall i :: 0 <= i < |raws| ==> TypeOf(Retired(raws, s)[i]) == if i in s then FREE else TypeOf(raws[i])
  {
    forall i | 0 <= i < |raws| ensures Whole(Retired(raws, s)[i]) && TypeOf(Retired(raws, s)[i]) == if i in s then FREE else TypeOf(raws[i]) {
      RetypeWhole(raws[i]);
    }
  }

  lemma RetiredLength(raws: seq<Raw>, s: set<nat>, i: nat)
    requires AllWhole(raws) && i < |raws|
    ensures |Retired(raws, s)[i]| == |raws[i]|
  {
  }

  lemma {:induction false} RetiredOff(raws: seq<Raw>, s: set<nat>, n: nat)
    requires AllWhole(raws) && n <= |raws|
    ensures Off(Retired(raws, s), n) == Off(raws, n)
  {
    hide Retired, ReadHeader;
    if n > 0 {
      RetiredLength(raws, s, n - 1);
      RetiredOff(raws, s, n - 1);
    }
  }

  lemma {:induction false} OffIsLength(raws: seq<Raw>)
    ensures |Join(raws)| == Off(raws, |raws|)
  {
    if raws != [] {
      OffIsLength(raws[1..]);
      OffShift(raws, |raws|);
    }
  }

  lemma {:induction false} OffGrows(raws: seq<Raw>, i: nat, n: nat)
    requires i < n <= |raws|
    ensures Off(raws, i) + |raws[i]| <= Off(raws, n)
    decreases n
  {
    if i < n - 1 { OffGrows(raws, i, n - 1); }
  }

  lemma {:induction false} OffWithin(raws: seq<Raw>, k: nat)
    requires AllWhole(raws) && k < |raws|
    ensures Off(raws, k) + 8 <= |Join(raws)|
  {
    OffIsLength(raws);
    OffGrows(raws, k, |raws|);
  }

  /** Four bytes over the type of box k retire it and touch nothing else. */
  lemma {:induction false} PutRetires(raws: seq<Raw>, k: nat, tail: seq<byte>)
    requires AllWhole(raws) && k < |raws|
    ensures Off(raws, k) + 8 <= |Join(raws)|
    ensures Put(Join(raws) + tail, Off(raws, k) + 4, FREE) == Join(raws[k := Retype(raws[k])]) + tail
    decreases k
  {
    hide Put, ReadHeader;
    OffWithin(raws, k);
    var a, rest := raws[0], Join(raws[1..]);
    Seqs.Assoc(a, rest, tail);
    if k == 0 {
      PutHead(a, rest + tail);
      assert raws[0 := Retype(a)][1..] == raws[1..];
      Seqs.Assoc(Retype(a), rest, tail);
    } else {
      PutRetires(raws[1..], k - 1, tail);
      OffShift(raws, k);
      PutIn(a, rest + tail, Off(raws, k) + 4, FREE);
      assert raws[k := Retype(raws[k])][1..] == raws[1..][k - 1 := Retype(raws[k])];
      Seqs.Assoc(a, Join(raws[1..][k - 1 := Retype(raws[k])]), tail);
    }
  }

  lemma PutHead(a: Raw, rest: seq<byte>)
    requires |a| >= 8
    ensures Put(a + rest, 4, FREE) == Retype(a) + rest
  {
    assert (a + rest)[..4] == a[..4] && (a + rest)[8..] == a[8..] + rest;
    Seqs.Assoc(a[..4] + FREE, a[8..], rest);
  }

  /** The first moov of a layout, by index. */
  ghost predicate LiveIs(raws: seq<Raw>, k: nat) {
    AllWhole(raws) && k < |raws| && TypeOf(raws[k]) == MOOV && forall i :: 0 <= i < k ==> TypeOf(raws[i]) != MOOV
  }

  /** A file whose strays in s are retired still shows its live moov, whatever lies behind it. */
  lemma LiveShows(raws: seq<Raw>, k: nat, s: set<nat>, tail: seq<byte>)
    requires LiveIs(raws, k) && k !in s
    ensures FirstMoov(Join(Retired(raws, s)) + tail) == Some(Off(raws, k))
  {
    assert FREE != MOOV by { assert FREE[0] != MOOV[0]; }
    RetiredWhole(raws, s);
    RetiredOff(raws, s, k);
    WalkFinds(Retired(raws, s), k, tail);
  }

  /** With every moov retired, the file shows what lies behind it. */
  lemma TailShows(raws: seq<Raw>, s: set<nat>, tail: seq<byte>)
    requires AllWhole(raws) && forall i :: 0 <= i < |raws| && TypeOf(raws[i]) == MOOV ==> i in s
    ensures FirstMoov(Join(Retired(raws, s)) + tail) == Past(|Join(raws)|, FirstMoov(tail))
  {
    assert FREE != MOOV by { assert FREE[0] != MOOV[0]; }
    RetiredWhole(raws, s);
    RetiredOff(raws, s, |raws|);
    OffIsLength(raws);
    OffIsLength(Retired(raws, s));
    WalkPasses(Retired(raws, s), tail);
  }

  /** The moovs among the first n boxes, by index. */
  function MoovIdx(raws: seq<Raw>, n: nat): (r: seq<nat>)
    requires AllWhole(raws) && n <= |raws|
    ensures forall j :: 0 <= j < |r| ==> r[j] < n && TypeOf(raws[r[j]]) == MOOV
    ensures forall i, j :: 0 <= i < j < |r| ==> r[i] < r[j]
    ensures forall k :: 0 <= k < n && TypeOf(raws[k]) == MOOV ==> k in r
  {
    if n == 0 then []
    else
      var idx := MoovIdx(raws, n - 1);
      if TypeOf(raws[n-1]) == MOOV then
        assert (idx + [n - 1])[|idx|] == n - 1;
        idx + [n - 1]
      else idx
  }

  /** A layout names the moovs idx lists: the first, and in order the others. */
  ghost predicate Names(l: Layout, raws: seq<Raw>, idx: seq<nat>) {
    && (forall j :: 0 <= j < |idx| ==> idx[j] < |raws|)
    && (l.moov.None? <==> idx == []) && |l.strays| == (if idx == [] then 0 else |idx| - 1)
    && (idx != [] ==> l.moov.Some? && l.moov.value.0 == Off(raws, idx[0]) && l.moov.value.1 == |raws[idx[0]]|)
    && forall j :: 0 <= j < |l.strays| ==> l.strays[j] == Off(raws, idx[j + 1])
  }

  lemma {:induction false} LayoutNames(raws: seq<Raw>, n: nat)
    requires AllWhole(raws) && n <= |raws|
    ensures Names(LayoutOf(raws, n), raws, MoovIdx(raws, n))
  {
    hide Noted, ReadHeader, Names;
    if n > 0 {
      LayoutNames(raws, n - 1);
      assert MoovIdx(raws, n) == MoovIdx(raws, n - 1) + if TypeOf(raws[n-1]) == MOOV then [n - 1] else [];
      NotedNames(LayoutOf(raws, n - 1), raws, MoovIdx(raws, n - 1), n - 1);
    } else {
      NoneNamed(raws);
    }
  }

  lemma NoneNamed(raws: seq<Raw>)
    ensures Names(Layout(None, [], []), raws, [])
  {
  }

  lemma NotedNames(l: Layout, raws: seq<Raw>, idx: seq<nat>, n: nat)
    requires n < |raws| && Whole(raws[n]) && Names(l, raws, idx)
    ensures Names(Noted(l, Off(raws, n), raws[n]), raws, idx + if TypeOf(raws[n]) == MOOV then [n] else [])
  {
    hide ReadHeader;
    if TypeOf(raws[n]) != MOOV { assert idx + [] == idx; }
  }

  /** The first of a file's moovs is the live one. */
  lemma FirstIsLive(raws: seq<Raw>)
    requires AllWhole(raws) && MoovIdx(raws, |raws|) != []
    ensures LiveIs(raws, MoovIdx(raws, |raws|)[0])
  {
    hide MoovIdx, ReadHeader;
    var idx := MoovIdx(raws, |raws|);
    assert forall j :: 0 <= j < |idx| ==> idx[0] <= idx[j];
    assert forall i :: i in idx ==> idx[0] <= i;
  }
}
