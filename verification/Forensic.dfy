/** The surgical editor of a video segment (mp4/forensic.go): one disposable sample found and cut out in place. */
module Forensic {
  import opened Arith
  import opened Bytes
  import opened Boxes
  import Fragment

  // ---- the box walk ----

  datatype BoxHead = BoxHead(typ: Fourcc, hdr: nat, size: nat)

  /** The header of the box at off, when the box lies whole in the segment. */
  function BoxAt(seg: seq<byte>, off: nat): (r: Option<BoxHead>)
    ensures r.Some? ==> 8 <= r.value.hdr <= r.value.size && off + r.value.size <= |seg|
  {
    if off + 8 > |seg| then None
    else
      var size32 := BE(seg[off..off + 4]);
      if size32 == 1 && off + 16 > |seg| then None
      else
        var hdr := if size32 == 1 then 16 else 8;
        var size := if size32 == 1 then BE(seg[off + 8..off + 16]) else size32;
        if size < hdr || off + size > |seg| then None else Some(BoxHead(seg[off + 4..off + 8], hdr, size))
  }

  /** What one box adds to what a walk has found; None refuses the segment. */
  type Step<!S> = (S, nat, BoxHead) -> Option<S>

  /** A walk over the boxes from off to end. */
  function Walk<S>(seg: seq<byte>, off: nat, end: nat, step: Step<S>, s: S): Option<S>
    decreases end - off
  {
    if off >= end then Some(s)
    else
      match BoxAt(seg, off)
      case None => None
      case Some(b) =>
        match step(s, off, b)
        case None => None
        case Some(s') => Walk(seg, off + b.size, end, step, s')
  }

  method WalkBoxes<S>(seg: seq<byte>, from: nat, end: nat, step: Step<S>, init: S) returns (r: Option<S>)
    ensures r == Walk(seg, from, end, step, init)
  {
    var off, s := from, init;
    while off < end
      invariant Walk(seg, from, end, step, init) == Walk(seg, off, end, step, s)
      decreases end - off
    {
      var b := BoxAt(seg, off);
      if b.None? {
        return None;
      }
      var next := step(s, off, b.value);
      if next.None? {
        return None;
      }
      off, s := off + b.value.size, next.value;
    }
    return Some(s);
  }

  datatype Span = Span(off: nat, len: nat)

  /** The moof and the mdat seen so far; the mdat with its header's length. */
  datatype Top = Top(moof: Option<Span>, mdat: Option<(Span, nat)>)

  function TopStep(): Step<Top> {
    (t: Top, off: nat, b: BoxHead) =>
      if b.typ == Fragment.MOOF then
        if t.moof.Some? then None else Some(t.(moof := Some(Span(off, b.size))))
      else if b.typ == MDAT then
        if t.mdat.Some? || t.moof.None? then None else Some(t.(mdat := Some((Span(off, b.size), b.hdr))))
      else Some(t)
  }

  function TrafStep(): Step<Option<Span>> {
    (t: Option<Span>, off: nat, b: BoxHead) =>
      if b.typ != Fragment.TRAF then Some(t) else if t.Some? then None else Some(Some(Span(off, b.size)))
  }

  function TrunStep(): Step<Option<Span>> {
    (t: Option<Span>, off: nat, b: BoxHead) =>
      if b.typ in [Fragment.SENC, Fragment.SAIZ, Fragment.SAIO] then None
      else if b.typ != Fragment.TRUN then Some(t)
      else if t.Some? then None else Some(Some(Span(off, b.size)))
  }

  // ---- the geometry ----

  /** One trun entry's fields the editor reads. */
  datatype Row = Row(dur: nat, size: nat, flags: nat)

  function EntrySize(hasCTS: bool): (n: nat)
    ensures n >= 12
  {
    if hasCTS then 16 else 12
  }

  function RowAt(seg: seq<byte>, at: nat): Row
    requires at + 12 <= |seg|
  {
    Row(BE(seg[at..at + 4]), BE(seg[at + 4..at + 8]), BE(seg[at + 8..at + 12]))
  }

  function Rows(seg: seq<byte>, at: nat, hasCTS: bool, n: nat): (r: seq<Row>)
    requires at + n * EntrySize(hasCTS) <= |seg|
    ensures |r| == n
    decreases n
  {
    if n == 0 then [] else [RowAt(seg, at)] + Rows(seg, at + EntrySize(hasCTS), hasCTS, n - 1)
  }

  method ReadRows(seg: seq<byte>, at: nat, hasCTS: bool, n: nat) returns (rows: seq<Row>)
    requires at + n * EntrySize(hasCTS) <= |seg|
    ensures rows == Rows(seg, at, hasCTS, n)
  {
    hide RowAt;
    rows := [];
    var e := at;
    for i := 0 to n
      invariant e == at + i * EntrySize(hasCTS)
      invariant Rows(seg, at, hasCTS, n) == rows + Rows(seg, e, hasCTS, n - i)
    {
      rows := rows + [RowAt(seg, e)];
      e := e + EntrySize(hasCTS);
    }
  }

  /** The bytes the first n samples take. */
  function SizeSum(rows: seq<Row>, n: nat): nat
    requires n <= |rows|
  {
    if n == 0 then 0 else SizeSum(rows, n - 1) + rows[n-1].size
  }

  /** The time the first n samples take. */
  function DurSum(rows: seq<Row>, n: nat): nat
    requires n <= |rows|
  {
    if n == 0 then 0 else DurSum(rows, n - 1) + rows[n-1].dur
  }

  /** A segment's byte geometry: what removing a sample has to patch. */
  datatype Geometry = Geometry(moof: Span, traf: Span, trun: Span, hasCTS: bool, dataOffset: int, mdat: Span, mdatHdr: nat, rows: seq<Row>)

  /** A trun's run, when it lists every sample's fields and nothing else: composition offsets or not, the data offset, the
      entries. */
  datatype Run = Run(hasCTS: bool, dataOffset: int, rows: seq<Row>)

  predicate ListsFields(flags: nat) {
    flags % 2 == 1 && flags / 0x100 % 2 == 1 && flags / 0x200 % 2 == 1 && flags / 0x400 % 2 == 1
  }

  function RunAt(seg: seq<byte>, trun: Span, traf: Span): Option<Run>
    requires trun.off + trun.len <= |seg|
  {
    if trun.off + 16 > traf.off + traf.len || trun.len < 20 then None
    else
      var flags := BE(seg[trun.off + 8..trun.off + 12]) % 0x100_0000;
      var hasCTS := flags / 0x800 % 2 == 1;
      var count := BE(seg[trun.off + 12..trun.off + 16]);
      if !ListsFields(flags) || 20 + count * EntrySize(hasCTS) != trun.len then None
      else Some(Run(hasCTS, Signed(BE(seg[trun.off + 16..trun.off + 20]), P32), Rows(seg, trun.off + 20, hasCTS, count)))
  }

  /** The moof and the mdat of a segment that has just one of each, in that order. */
  function TopOf(seg: seq<byte>): Option<Top> {
    match Walk(seg, 0, |seg|, TopStep(), Top(None, None))
    case None => None
    case Some(t) => if t.moof.None? || t.mdat.None? then None else Some(t)
  }

  /** The one trun of the moof's one traf. */
  function RunBoxes(seg: seq<byte>, moof: Span): Option<(Span, Span)> {
    match Walk(seg, moof.off + 8, moof.off + moof.len, TrafStep(), None)
    case None => None
    case Some(traf) =>
      if traf.None? then None
      else
        match Walk(seg, traf.value.off + 8, traf.value.off + traf.value.len, TrunStep(), None)
        case None => None
        case Some(trun) => if trun.None? then None else Some((traf.value, trun.value))
  }

  /** A segment's geometry, when it has the shape the writer gives a video rendition: one moof of one traf of one run
      that lists its fields, whose samples tile the one mdat. */
  function GeometryOf(seg: seq<byte>): Option<Geometry> {
    match TopOf(seg)
    case None => None
    case Some(t) =>
      match RunBoxes(seg, t.moof.value)
      case None => None
      case Some(b) => if b.1.off + b.1.len > |seg| then None else Fitted(t, b.0, b.1, RunAt(seg, b.1, b.0))
  }

  function Fitted(t: Top, traf: Span, trun: Span, run: Option<Run>): Option<Geometry>
    requires t.moof.Some? && t.mdat.Some?
  {
    if run.None? then None
    else
      var r, moof, mdat, hdr := run.value, t.moof.value, t.mdat.value.0, t.mdat.value.1;
      if SizeSum(r.rows, |r.rows|) != mdat.len - hdr || r.dataOffset != moof.len + hdr then None
      else Some(Geometry(moof, traf, trun, r.hasCTS, r.dataOffset, mdat, hdr, r.rows))
  }

  method SumSizes(rows: seq<Row>, n: nat) returns (total: nat)
    requires n <= |rows|
    ensures total == SizeSum(rows, n)
  {
    total := 0;
    for i := 0 to n
      invariant total == SizeSum(rows, i)
    {
      total := total + rows[i].size;
    }
  }

  method ReadRun(seg: seq<byte>, trun: Span, traf: Span) returns (r: Option<Run>)
    requires trun.off + trun.len <= |seg|
    ensures r == RunAt(seg, trun, traf)
  {
    if trun.off + 16 > traf.off + traf.len || trun.len < 20 {
      return None;
    }
    var flags := BE(seg[trun.off + 8..trun.off + 12]) % 0x100_0000;
    var hasCTS := flags / 0x800 % 2 == 1;
    var count := BE(seg[trun.off + 12..trun.off + 16]);
    if !ListsFields(flags) || 20 + count * EntrySize(hasCTS) != trun.len {
      return None;
    }
    var rows := ReadRows(seg, trun.off + 20, hasCTS, count);
    return Some(Run(hasCTS, Signed(BE(seg[trun.off + 16..trun.off + 20]), P32), rows));
  }

  method FindTop(seg: seq<byte>) returns (t: Option<Top>)
    ensures t == TopOf(seg)
  {
    t := WalkBoxes(seg, 0, |seg|, TopStep(), Top(None, None));
    if t.Some? && (t.value.moof.None? || t.value.mdat.None?) {
      t := None;
    }
  }

  method FindRun(seg: seq<byte>, moof: Span) returns (r: Option<(Span, Span)>)
    ensures r == RunBoxes(seg, moof)
  {
    var traf := WalkBoxes(seg, moof.off + 8, moof.off + moof.len, TrafStep(), None);
    if traf.None? || traf.value.None? {
      return None;
    }
    var trun := WalkBoxes(seg, traf.value.value.off + 8, traf.value.value.off + traf.value.value.len, TrunStep(), None);
    if trun.None? || trun.value.None? {
      return None;
    }
    return Some((traf.value.value, trun.value.value));
  }

  method Fit(t: Top, traf: Span, trun: Span, run: Option<Run>) returns (g: Option<Geometry>)
    requires t.moof.Some? && t.mdat.Some?
    ensures g == Fitted(t, traf, trun, run)
  {
    if run.None? {
      return None;
    }
    var r, moof, mdat, hdr := run.value, t.moof.value, t.mdat.value.0, t.mdat.value.1;
    var total := SumSizes(r.rows, |r.rows|);
    if total != mdat.len - hdr || r.dataOffset != moof.len + hdr {
      return None;
    }
    return Some(Geometry(moof, traf, trun, r.hasCTS, r.dataOffset, mdat, hdr, r.rows));
  }

  method ParseForensicSegment(seg: seq<byte>) returns (g: Option<Geometry>)
    ensures g == GeometryOf(seg)
  {
    hide RunBoxes, RunAt, Fitted;
    var top := FindTop(seg);
    if top.None? {
      return None;
    }
    var boxes := FindRun(seg, top.value.moof.value);
    if boxes.None? || boxes.value.1.off + boxes.value.1.len > |seg| {
      return None;
    }
    var run := ReadRun(seg, boxes.value.1, boxes.value.0);
    g := Fit(top.value, boxes.value.0, boxes.value.1, run);
  }

  // ---- which sample may go ----

  /** A NAL unit's type, and whether other frames may refer to it. */
  function NalType(h: byte): nat { h % 32 }

  function RefIdc(h: byte): nat { h / 32 % 4 }

  predicate Vcl(h: byte) { 1 <= NalType(h) <= 5 }

  /** A NAL a viewer can miss: not a slice at all, or a slice nothing refers to. */
  predicate NalDisposable(h: byte) { h < 128 && (Vcl(h) ==> NalType(h) == 1 && RefIdc(h) == 0) }

  /** The rest of a sample is length-prefixed NALs, all disposable; there is a slice among them and the vcl before. */
  predicate DisposableFrom(s: seq<byte>, vcl: nat) {
    if s == [] then vcl > 0
    else if |s| < 5 then false
    else
      var n := BE(s[..4]);
      if n == 0 || n > |s| - 4 || !NalDisposable(s[4]) then false
      else DisposableFrom(s[4 + n..], vcl + if Vcl(s[4]) then 1 else 0)
  }

  method H264AllDisposable(sample: seq<byte>) returns (ok: bool)
    ensures ok == DisposableFrom(sample, 0)
  {
    var vcl, off := 0, 0;
    assert sample[0..] == sample;
    while off < |sample|
      invariant off <= |sample| && DisposableFrom(sample, 0) == DisposableFrom(sample[off..], vcl)
    {
      if |sample| - off < 5 {
        return false;
      }
      var n := BE(sample[off..off + 4]);
      assert sample[off..off + 4] == sample[off..][..4];
      if n == 0 || n > |sample| - off - 4 {
        return false;
      }
      var h := sample[off + 4];
      if h >= 128 {
        return false;
      }
      assert sample[off..][4 + n..] == sample[off + 4 + n..];
      if Vcl(h) {
        if NalType(h) != 1 || RefIdc(h) != 0 {
          return false;
        }
        vcl := vcl + 1;
      }
      off := off + 4 + n;
    }
    return vcl > 0;
  }

  /** NAL units each behind its 4-byte length, the form the segment writer stores. */
  function Prefixed(nals: seq<seq<byte>>): seq<byte> {
    if nals == [] then [] else ToBE(|nals[0]|, 4) + nals[0] + Prefixed(nals[1..])
  }

  ghost predicate NalUnits(nals: seq<seq<byte>>) {
    forall i :: 0 <= i < |nals| ==> 0 < |nals[i]| < P32 && NalDisposable(nals[i][0])
  }

  ghost predicate HasSlice(nals: seq<seq<byte>>) {
    exists i :: 0 <= i < |nals| && |nals[i]| > 0 && Vcl(nals[i][0])
  }

  /** A sample passes exactly when it is length-prefixed NAL units, every one disposable, a slice among them. */
  lemma DisposableIff(sample: seq<byte>)
    ensures DisposableFrom(sample, 0) <==> exists nals :: NalUnits(nals) && HasSlice(nals) && Prefixed(nals) == sample
  {
    if DisposableFrom(sample, 0) {
      var nals := Units(sample, 0);
    }
    forall nals | NalUnits(nals) && HasSlice(nals) && Prefixed(nals) == sample ensures DisposableFrom(sample, 0) {
      UnitsPass(nals, 0);
    }
  }

  lemma {:induction false} Units(s: seq<byte>, vcl: nat) returns (nals: seq<seq<byte>>)
    requires DisposableFrom(s, vcl)
    ensures NalUnits(nals) && Prefixed(nals) == s && (vcl > 0 || HasSlice(nals))
    decreases |s|
  {
    hide ToBE;
    if s == [] {
      nals := [];
    } else {
      var n := BE(s[..4]);
      var rest := Units(s[4 + n..], vcl + if Vcl(s[4]) then 1 else 0);
      nals := [s[4..4 + n]] + rest;
      assert nals[1..] == rest;
      ToBEOfBE(s[..4]);
      Powers();
      BEBound(s[..4]);
      assert s == s[..4] + s[4..4 + n] + s[4 + n..];
      if Vcl(s[4]) {
        assert Vcl(nals[0][0]);
      } else if HasSlice(rest) {
        var i :| 0 <= i < |rest| && |rest[i]| > 0 && Vcl(rest[i][0]);
        assert nals[i + 1] == rest[i];
      }
    }
  }

  lemma {:induction false} UnitsPass(nals: seq<seq<byte>>, vcl: nat)
    requires NalUnits(nals) && (vcl > 0 || HasSlice(nals))
    ensures DisposableFrom(Prefixed(nals), vcl)
  {
    if nals != [] {
      var s, u, rest := Prefixed(nals), nals[0], Prefixed(nals[1..]);
      Powers();
      BEOfToBE(|u|, 4);
      assert s[..4] == ToBE(|u|, 4);
      assert s[4] == u[0];
      assert s[4 + |u|..] == rest;
      if !(vcl > 0 || Vcl(u[0])) {
        var i :| 0 <= i < |nals| && |nals[i]| > 0 && Vcl(nals[i][0]);
        assert nals[1..][i - 1] == nals[i];
      }
      UnitsPass(nals[1..], vcl + if Vcl(u[0]) then 1 else 0);
    }
  }

  /** Sample i's bytes in the mdat's payload. */
  function SampleOf(payload: seq<byte>, rows: seq<Row>, i: nat): seq<byte>
    requires i < |rows| && SizeSum(rows, |rows|) == |payload|
  {
    SumsGrow(rows, i, |rows|);
    SumsGrow(rows, i + 1, |rows|);
    payload[SizeSum(rows, i)..SizeSum(rows, i + 1)]
  }

  lemma {:induction false} SumsGrow(rows: seq<Row>, m: nat, n: nat)
    requires m <= n <= |rows|
    ensures SizeSum(rows, m) <= SizeSum(rows, n)
    decreases n
  {
    if m < n { SumsGrow(rows, m, n - 1); }
  }

  /** A sample that may go: past the first, no sync sample, disposable. */
  predicate Droppable(payload: seq<byte>, rows: seq<Row>, i: nat)
    requires i < |rows| && SizeSum(rows, |rows|) == |payload|
  {
    i > 0 && rows[i].flags == Fragment.NON_SYNC && DisposableFrom(SampleOf(payload, rows, i), 0)
  }

  /** The first sample that may go. */
  method PickDisposable(payload: seq<byte>, rows: seq<Row>) returns (k: Option<nat>)
    requires SizeSum(rows, |rows|) == |payload|
    ensures k.Some? ==> k.value < |rows| && Droppable(payload, rows, k.value)
    ensures forall i :: 0 <= i < (if k.Some? then k.value else |rows|) ==> !Droppable(payload, rows, i)
  {
    var cum := 0;
    for i := 0 to |rows|
      invariant cum == SizeSum(rows, i)
      invariant forall j :: 0 <= j < i ==> !Droppable(payload, rows, j)
    {
      SumsGrow(rows, i + 1, |rows|);
      var start := cum;
      cum := cum + rows[i].size;
      if i > 0 && rows[i].flags == Fragment.NON_SYNC {
        var ok := H264AllDisposable(payload[start..cum]);
        if ok {
          return Some(i);
        }
      }
    }
    return None;
  }

  // ---- cutting it out ----

  method PutUint32(a: array<byte>, at: nat, v: int)
    requires at + 4 <= a.Length
    modifies a
    ensures a[..] == Put(old(a[..]), at, Fragment.W32(v))
  {
    var x := Fragment.W32(v);
    for i := 0 to 4
      invariant forall j :: 0 <= j < i ==> a[at + j] == x[j]
      invariant forall j :: 0 <= j < a.Length && !(at <= j < at + i) ==> a[j] == old(a[j])
    {
      a[at + i] := x[i];
    }
  }

  /** b with three words put at three places. */
  function PutThree(b: seq<byte>, at1: nat, v1: int, at2: nat, v2: int, at3: nat, v3: int): (r: seq<byte>)
    requires at1 + 4 <= |b| && at2 + 4 <= |b| && at3 + 4 <= |b|
    ensures |r| == |b|
  {
    Put(Put(Put(b, at1, Fragment.W32(v1)), at2, Fragment.W32(v2)), at3, Fragment.W32(v3))
  }

  method PatchThree(a: array<byte>, at1: nat, v1: int, at2: nat, v2: int, at3: nat, v3: int)
    requires at1 + 4 <= a.Length && at2 + 4 <= a.Length && at3 + 4 <= a.Length
    modifies a
    ensures a[..] == PutThree(old(a[..]), at1, v1, at2, v2, at3, v3)
  {
    hide Put, Fragment.W32;
    PutUint32(a, at1, v1);
    PutUint32(a, at2, v2);
    PutUint32(a, at3, v3);
  }

  /** What holds of every geometry that reads: each box starts in the one around it, and the mdat follows the moof. */
  predicate Mapped(g: Geometry, seg: seq<byte>) {
    && g.moof.off + 8 <= g.traf.off && g.traf.off + 8 <= g.trun.off
    && g.moof.off + g.moof.len <= g.mdat.off
    && g.trun.len == 20 + |g.rows| * EntrySize(g.hasCTS)
    && g.mdatHdr in {8, 16} && g.mdatHdr <= g.mdat.len && g.mdat.off + g.mdat.len <= |seg|
    && SizeSum(g.rows, |g.rows|) == g.mdat.len - g.mdatHdr
  }

  /** Each box ends in the one around it too: the writer's shape. */
  predicate Nested(g: Geometry, seg: seq<byte>) {
    && Mapped(g, seg)
    && g.trun.off + g.trun.len <= g.traf.off + g.traf.len <= g.moof.off + g.moof.len
  }

  /** Entry k lies in the moof, as every entry does where the boxes nest. */
  predicate InMoof(g: Geometry, seg: seq<byte>, k: nat) {
    Mapped(g, seg) && k < |g.rows| && (Nested(g, seg) || EntryRel(g, k) + EntrySize(g.hasCTS) <= g.moof.len)
  }

  /** Where entry i stands in the moof. */
  function EntryRel(g: Geometry, i: nat): nat
    requires g.moof.off <= g.trun.off
  {
    g.trun.off - g.moof.off + 20 + i * EntrySize(g.hasCTS)
  }

  lemma EntryWithin(g: Geometry, seg: seq<byte>, i: nat)
    requires Nested(g, seg) && i < |g.rows|
    ensures EntryRel(g, i) + EntrySize(g.hasCTS) <= g.trun.off - g.moof.off + g.trun.len <= g.moof.len
  {
    MulLe(i + 1, |g.rows|, EntrySize(g.hasCTS));
  }

  lemma EntriesBefore(g: Geometry, seg: seq<byte>, k: nat)
    requires InMoof(g, seg, k)
    ensures EntryRel(g, k) + EntrySize(g.hasCTS) <= g.moof.len
    ensures k > 0 ==> g.trun.off - g.moof.off + 20 <= EntryRel(g, k - 1) == EntryRel(g, k) - EntrySize(g.hasCTS)
  {
    if Nested(g, seg) { EntryWithin(g, seg, k); }
    if k > 0 { MulLe(0, k - 1, EntrySize(g.hasCTS)); }
  }

  /** The moof with its sizes, its count, its data offset and the predecessor's duration patched. */
  function Patched(g: Geometry, seg: seq<byte>, k: nat): (m: seq<byte>)
    requires 1 <= k && InMoof(g, seg, k)
    ensures |m| == g.moof.len
  {
    EntriesBefore(g, seg, k);
    var es := EntrySize(g.hasCTS);
    var traf, trun := g.traf.off - g.moof.off, g.trun.off - g.moof.off;
    var sized := PutThree(seg[g.moof.off..g.moof.off + g.moof.len], 0, g.moof.len - es, traf, g.traf.len - es, trun, g.trun.len - es);
    PutThree(sized, trun + 12, |g.rows| - 1, trun + 16, g.dataOffset - es, EntryRel(g, k - 1), g.rows[k-1].dur + g.rows[k].dur)
  }

  /** The mdat's header with its size less n, in whichever form it has. */
  function MdatHead(g: Geometry, seg: seq<byte>, n: nat): seq<byte>
    requires Mapped(g, seg) && n <= g.mdat.len
  {
    var hdr := seg[g.mdat.off..g.mdat.off + g.mdatHdr];
    if g.mdatHdr == 16 then Put(hdr, 8, Fragment.W64(g.mdat.len - n)) else Put(hdr, 0, Fragment.W32(g.mdat.len - n))
  }

  /** The segment without sample k. */
  function Rebuilt(g: Geometry, seg: seq<byte>, k: nat): seq<byte>
    requires 1 <= k && InMoof(g, seg, k)
  {
    EntriesBefore(g, seg, k);
    SumsGrow(g.rows, k + 1, |g.rows|);
    var drop, start := g.rows[k].size, SizeSum(g.rows, k);
    var payload := seg[g.mdat.off + g.mdatHdr..g.mdat.off + g.mdat.len];
    seg[..g.moof.off] + Cut(Patched(g, seg, k), EntryRel(g, k), EntrySize(g.hasCTS)) + MdatHead(g, seg, drop)
    + Cut(payload, start, drop) + seg[g.mdat.off + g.mdat.len..]
  }

  method PatchMoof(g: Geometry, seg: seq<byte>, k: nat) returns (m: seq<byte>)
    requires 1 <= k && InMoof(g, seg, k)
    ensures m == Patched(g, seg, k)
  {
    hide EntrySize, EntryRel, PutThree, SizeSum;
    EntriesBefore(g, seg, k);
    var es := EntrySize(g.hasCTS);
    var moof := new byte[g.moof.len](i requires 0 <= i < g.moof.len => seg[g.moof.off + i]);
    assert moof[..] == seg[g.moof.off..g.moof.off + g.moof.len];
    var traf, trun := g.traf.off - g.moof.off, g.trun.off - g.moof.off;
    PatchThree(moof, 0, g.moof.len - es, traf, g.traf.len - es, trun, g.trun.len - es);
    PatchThree(moof, trun + 12, |g.rows| - 1, trun + 16, g.dataOffset - es, EntryRel(g, k - 1), g.rows[k-1].dur + g.rows[k].dur);
    m := moof[..];
  }

  method RebuildWithout(g: Geometry, seg: seq<byte>, k: nat) returns (out: seq<byte>)
    requires 1 <= k && InMoof(g, seg, k)
    ensures out == Rebuilt(g, seg, k)
  {
    hide EntrySize, EntryRel, Patched, MdatHead;
    var es, drop := EntrySize(g.hasCTS), g.rows[k].size;
    EntriesBefore(g, seg, k);
    SumsGrow(g.rows, k + 1, |g.rows|);
    var moof := PatchMoof(g, seg, k);
    var payload := seg[g.mdat.off + g.mdatHdr..g.mdat.off + g.mdat.len];
    var start := SumSizes(g.rows, k);
    out := seg[..g.moof.off] + (moof[..EntryRel(g, k)] + moof[EntryRel(g, k) + es..]) + MdatHead(g, seg, drop)
      + (payload[..start] + payload[start + drop..]) + seg[g.mdat.off + g.mdat.len..];
  }

  /** k is a segment's first droppable sample. */
  ghost predicate FirstDroppable(g: Geometry, seg: seq<byte>, k: nat)
    requires Mapped(g, seg)
  {
    var payload := seg[g.mdat.off + g.mdatHdr..g.mdat.off + g.mdat.len];
    1 <= k < |g.rows| && Droppable(payload, g.rows, k) && forall i :: 0 <= i < k ==> !Droppable(payload, g.rows, i)
  }

  // ---- which geometries nest ----

  predicate TopFound(t: Top, off: nat) {
    && (t.moof.Some? ==> t.moof.value.off + t.moof.value.len <= off)
    && (t.mdat.Some? ==>
          var (box, hdr) := t.mdat.value;
          && t.moof.Some? && t.moof.value.off + t.moof.value.len <= box.off
          && hdr in {8, 16} && hdr <= box.len && box.off + box.len <= off)
  }

  lemma {:induction false} TopWalk(seg: seq<byte>, off: nat, t: Top)
    requires off <= |seg| && TopFound(t, off)
    ensures var r := Walk(seg, off, |seg|, TopStep(), t); r.Some? ==> TopFound(r.value, |seg|)
    decreases |seg| - off
  {
    if off < |seg| && BoxAt(seg, off).Some? {
      var b := BoxAt(seg, off).value;
      var next := TopStep()(t, off, b);
      if next.Some? { TopWalk(seg, off + b.size, next.value); }
    }
  }

  /** A walk that looks for one box finds it at or past its start and before its end. */
  lemma {:induction false} SpanWalk(seg: seq<byte>, off: nat, end: nat, step: Step<Option<Span>>, from: nat, s: Option<Span>)
    requires step == TrafStep() || step == TrunStep()
    requires from <= off && (s.Some? ==> from <= s.value.off < end && s.value.off + s.value.len <= |seg|)
    ensures var r := Walk(seg, off, end, step, s);
      r.Some? && r.value.Some? ==> from <= r.value.value.off < end && r.value.value.off + r.value.value.len <= |seg|
    decreases end - off
  {
    if off < end && BoxAt(seg, off).Some? {
      var b := BoxAt(seg, off).value;
      var next := step(s, off, b);
      if next.Some? { SpanWalk(seg, off + b.size, end, step, from, next.value); }
    }
  }

  /** A geometry that reads is mapped; its boxes nest exactly when the traf ends in the moof and the trun in the traf. */
  lemma NestedIff(seg: seq<byte>)
    requires GeometryOf(seg).Some?
    ensures var g := GeometryOf(seg).value;
      Mapped(g, seg) && (Nested(g, seg) <==> g.trun.off + g.trun.len <= g.traf.off + g.traf.len <= g.moof.off + g.moof.len)
  {
    hide Walk, Rows, SizeSum, BoxAt;
    TopWalk(seg, 0, Top(None, None));
    var moof := TopOf(seg).value.moof.value;
    SpanWalk(seg, moof.off + 8, moof.off + moof.len, TrafStep(), moof.off + 8, None);
    var traf := RunBoxes(seg, moof).value.0;
    SpanWalk(seg, traf.off + 8, traf.off + traf.len, TrunStep(), traf.off + 8, None);
  }

  /** The parser reads a run's data offset before it knows that the run is long enough to have one. */
  predicate ReadsPast(seg: seq<byte>) {
    TopOf(seg).Some? &&
    match RunBoxes(seg, TopOf(seg).value.moof.value)
    case None => false
    case Some(b) =>
      var (traf, trun) := b;
      && trun.off + 16 <= traf.off + traf.len <= |seg| < trun.off + 20
      && ListsFields(BE(seg[trun.off + 8..trun.off + 12]) % 0x100_0000)
  }

  /** What becomes of a segment: itself, itself without a sample, or an index out of range. */
  datatype Variant = Same | Without(segment: seq<byte>) | OutOfRange

  /** The variant of a segment that lacks its first droppable sample, where it has one. The editor runs out of range
      exactly where the run's header is cut short by the end of the segment, and where the sample's entry does not lie in
      the moof, as it always does in one whose boxes nest. */
  method DropNonRefSample(segment: seq<byte>) returns (r: Variant)
    ensures GeometryOf(segment).Some? ==> Mapped(GeometryOf(segment).value, segment)
    ensures GeometryOf(segment).None? ==> r == if ReadsPast(segment) then OutOfRange else Same
    ensures r == Same ==> GeometryOf(segment).Some? ==> forall k :: !FirstDroppable(GeometryOf(segment).value, segment, k)
    ensures forall k :: GeometryOf(segment).Some? && FirstDroppable(GeometryOf(segment).value, segment, k) ==>
      var g := GeometryOf(segment).value;
      r == if InMoof(g, segment, k) then Without(Rebuilt(g, segment, k)) else OutOfRange
  {
    hide GeometryOf, Rebuilt, ReadsPast, InMoof;
    var parsed := ParseForensicSegment(segment);
    if parsed.None? {
      return if ReadsPast(segment) then OutOfRange else Same;
    }
    NestedIff(segment);
    var g := parsed.value;
    var k := PickDisposable(segment[g.mdat.off + g.mdatHdr..g.mdat.off + g.mdat.len], g.rows);
    if k.None? {
      return Same;
    }
    assert FirstDroppable(g, segment, k.value);
    if !InMoof(g, segment, k.value) {
      return OutOfRange;
    }
    var out := RebuildWithout(g, segment, k.value);
    return Without(out);
  }
}
