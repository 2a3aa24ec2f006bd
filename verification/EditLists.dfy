/** Edit lists and track headers (mp4/editshift.go): reading and writing an elst, a track header's duration, and a time
    shift rounded to ticks (sections 8.6.6 and 8.3.2 of ISO/IEC 14496-12). */
module EditLists {
  import opened Arith
  import opened Bytes
  import opened Boxes
  import opened Fragment
  import opened FragRoundTrip

  const EDTS: Fourcc := [0x65, 0x64, 0x74, 0x73]
  const ELST: Fourcc := [0x65, 0x6C, 0x73, 0x74]
  const TKHD: Fourcc := [0x74, 0x6B, 0x68, 0x64]
  const MAX_UINT32 := 0xFFFF_FFFF
  const P63: int := 0x8000_0000_0000_0000

  // ---- ticks ----

  const BILLION := 1_000_000_000
  const HALF := 500_000_000

  /** Nanoseconds as ticks of a timescale, half a tick away from zero. */
  function NearestTicks(ns: int, ts: nat): int {
    var prod := ns * ts;
    if prod >= 0 then (prod + HALF) / BILLION else -((-prod + HALF) / BILLION)
  }

  /** The same in int64, every operation wrapping. */
  function RoundTicks(ns: int, ts: nat): int {
    var prod := Int64(ns * ts);
    if prod >= 0 then Quo(Int64(prod + HALF), BILLION) else Int64(-Quo(Int64(Int64(-prod) + HALF), BILLION))
  }

  /** Rounding is exact if and only if the product leaves room for half a tick in an int64. */
  lemma RoundTicksIff(ns: int, ts: nat)
    ensures RoundTicks(ns, ts) == NearestTicks(ns, ts) <==> -(MAX_INT64 - HALF) <= ns * ts <= MAX_INT64 - HALF
  {
    hide Int64;
    var p := ns * ts;
    var w := Int64(p);
    Int64Fits(p);
    if w >= 0 {
      Int64Fits(w + HALF);
      RoundsUp(p, w, Int64(w + HALF));
    } else {
      Int64Fits(-w);
      Int64Fits(Int64(-w) + HALF);
      var x := Int64(Int64(-w) + HALF);
      QuoSmall(x);
      Int64Fits(-Quo(x, BILLION));
      RoundsDown(p, w, x);
    }
  }

  lemma QuoSmall(x: int)
    requires -P63 <= x < P63
    ensures -P63 < Quo(x, BILLION) < P63
  {
  }

  lemma RoundsUp(p: int, w: int, x: int)
    requires 0 <= w < P63 && (-P63 <= p < P63 ==> w == p)
    requires x == if w + HALF < P63 then w + HALF else w + HALF - P64
    ensures Quo(x, BILLION) == (if p >= 0 then (p + HALF) / BILLION else -((-p + HALF) / BILLION))
      <==> -(MAX_INT64 - HALF) <= p <= MAX_INT64 - HALF
  {
  }

  lemma RoundsDown(p: int, w: int, x: int)
    requires -P63 <= w < 0 && (-P63 <= p < P63 ==> w == p)
    requires var n := if w == -P63 then w else -w; x == if n + HALF < P63 then n + HALF else n + HALF - P64
    ensures -Quo(x, BILLION) == (if p >= 0 then (p + HALF) / BILLION else -((-p + HALF) / BILLION))
      <==> -(MAX_INT64 - HALF) <= p <= MAX_INT64 - HALF
  {
  }

  lemma Int64Fits(v: int)
    ensures -P63 <= Int64(v) < P63
    ensures -P63 <= v < P63 ==> Int64(v) == v
    ensures P63 <= v < P63 + P63 ==> Int64(v) == v - P64
  {
    if -P63 <= v < P63 { SignedOfUnsigned(v, P64); }
    if P63 <= v < P63 + P63 { ModSmall(v, P64); }
  }

  /** An opposite shift is the opposite number of ticks. */
  lemma RoundTicksOdd(ns: int, ts: nat)
    requires -(MAX_INT64 - HALF) <= ns * ts <= MAX_INT64 - HALF
    ensures RoundTicks(-ns, ts) == -RoundTicks(ns, ts)
  {
    assert -ns * ts == -(ns * ts);
    RoundTicksIff(ns, ts);
    RoundTicksIff(-ns, ts);
  }

  /** The ticks are within half a tick of the time, a tie going away from zero; no other number of ticks is. */
  lemma RoundTicksNearest(ns: int, ts: nat, t: int)
    requires -(MAX_INT64 - HALF) <= ns * ts <= MAX_INT64 - HALF
    ensures t == RoundTicks(ns, ts) <==>
      var off := t * BILLION - ns * ts; -HALF <= off <= HALF && (off == HALF ==> ns * ts >= 0) && (off == -HALF ==> ns * ts < 0)
  {
    RoundTicksIff(ns, ts);
    var prod := ns * ts;
    var a := (if prod >= 0 then prod else -prod) + HALF;
    assert a == BILLION * (a / BILLION) + a % BILLION;
  }

  // ---- edit lists ----

  /** One edit: how long, from where in the media (negative for a pause), at what rate in 16.16. */
  datatype Edit = Edit(segDur: int, mediaTime: int, rate: nat)

  function Width(version: byte): (n: nat)
    ensures n >= 12
  {
    if version == 1 then 20 else 12
  }

  function EditAt(version: byte, b: seq<byte>): Edit
    requires |b| >= Width(version)
  {
    if version == 1 then Edit(Signed(BE(b[..8]), P64), Signed(BE(b[8..16]), P64), BE(b[16..20]))
    else Edit(BE(b[..4]), Signed(BE(b[4..8]), P32), BE(b[8..12]))
  }

  function EditsAt(version: byte, b: seq<byte>, n: nat): (r: seq<Edit>)
    requires |b| >= n * Width(version)
    ensures |r| == n
    decreases n
  {
    if n == 0 then [] else [EditAt(version, b)] + EditsAt(version, b[Width(version)..], n - 1)
  }

  function ParseElst(p: seq<byte>): Result<seq<Edit>> {
    if |p| < 8 then Err("elst too short")
    else
      var n := BE(p[4..8]);
      if n * Width(p[0]) > |p| - 8 then Err("elst declares more entries than it holds")
      else Ok(EditsAt(p[0], p[8..], n))
  }

  /** The edits of a track's boxes, none when it has no edit list. */
  function TrakEdits(boxes: seq<MemBox>): Result<seq<Edit>> {
    match Find(boxes, EDTS)
    case None => Ok([])
    case Some(edts) =>
      match Iter(edts.payload)
      case Err(why) => Err(why)
      case Ok(inner) =>
        match Find(inner, ELST)
        case None => Ok([])
        case Some(elst) => ParseElst(elst.payload)
  }

  method ReadEdits(version: byte, b: seq<byte>, n: nat) returns (edits: seq<Edit>)
    requires |b| >= n * Width(version)
    ensures edits == EditsAt(version, b, n)
  {
    hide EditAt;
    edits := [];
    var rest := b;
    for i := 0 to n
      invariant |rest| >= (n - i) * Width(version)
      invariant EditsAt(version, b, n) == edits + EditsAt(version, rest, n - i)
    {
      edits := edits + [EditAt(version, rest)];
      rest := rest[Width(version)..];
    }
  }

  method TrakElstEntries(boxes: seq<MemBox>) returns (r: Result<seq<Edit>>)
    ensures r == TrakEdits(boxes)
  {
    var edts := Find(boxes, EDTS);
    if edts.None? {
      return Ok([]);
    }
    var inner := IterBoxes(edts.value.payload);
    if inner.Err? {
      return Err(inner.why);
    }
    var elst := Find(inner.value, ELST);
    if elst.None? {
      return Ok([]);
    }
    var p := elst.value.payload;
    if |p| < 8 {
      return Err("elst too short");
    }
    var n := BE(p[4..8]);
    if n * Width(p[0]) > |p| - 8 {
      return Err("elst declares more entries than it holds");
    }
    var edits := ReadEdits(p[0], p[8..], n);
    return Ok(edits);
  }

  /** The 64-bit form is taken only when a value does not fit the 32-bit one. */
  predicate Wide(e: Edit) { e.segDur > MAX_UINT32 || e.mediaTime > 0x7FFF_FFFF }

  function VersionFor(edits: seq<Edit>): byte {
    if exists i :: 0 <= i < |edits| && Wide(edits[i]) then 1 else 0
  }

  function EditBytes(version: byte, e: Edit): (b: seq<byte>)
    ensures |b| == Width(version)
  {
    if version == 1 then W64(e.segDur) + W64(e.mediaTime) + W32(e.rate) else W32(e.segDur) + W32(e.mediaTime) + W32(e.rate)
  }

  function EditsBytes(version: byte, edits: seq<Edit>): (b: seq<byte>)
    ensures |b| == |edits| * Width(version)
  {
    if edits == [] then [] else EditBytes(version, edits[0]) + EditsBytes(version, edits[1..])
  }

  function ElstBox(edits: seq<Edit>): MemBox {
    FullBox(ELST, VersionFor(edits), 0, W32(|edits|) + EditsBytes(VersionFor(edits), edits))
  }

  function BuildElstBox(edits: seq<Edit>): MemBox { MemBox(EDTS, BoxOf(ElstBox(edits))) }

  // ---- reading back what was written ----

  /** What an entry keeps of an edit. */
  function Kept(version: byte, e: Edit): Edit {
    if version == 1 then Edit(Signed(Unsigned(e.segDur, P64), P64), Signed(Unsigned(e.mediaTime, P64), P64), Unsigned(e.rate, P32))
    else Edit(Unsigned(e.segDur, P32), Signed(Unsigned(e.mediaTime, P32), P32), Unsigned(e.rate, P32))
  }

  lemma LongIs(v: int)
    ensures BE(W64(v)) == Unsigned(v, P64)
  {
    Powers();
    BEOfToBE(Unsigned(v, P64), 8);
  }

  lemma WordIs(v: int)
    ensures BE(W32(v)) == Unsigned(v, P32)
  {
    Powers();
    BEOfToBE(Unsigned(v, P32), 4);
  }

  lemma EditReads(version: byte, e: Edit, rest: seq<byte>)
    ensures EditAt(version, EditBytes(version, e) + rest) == Kept(version, e)
    ensures (EditBytes(version, e) + rest)[Width(version)..] == rest
  {
    hide W32, W64, Unsigned;
    WordIs(e.rate);
    if version == 1 {
      LongIs(e.segDur); LongIs(e.mediaTime);
      Pieces(W64(e.segDur), W64(e.mediaTime), W32(e.rate), rest);
    } else {
      WordIs(e.segDur); WordIs(e.mediaTime);
      Pieces(W32(e.segDur), W32(e.mediaTime), W32(e.rate), rest);
    }
  }

  lemma Pieces(a: seq<byte>, b: seq<byte>, c: seq<byte>, rest: seq<byte>)
    ensures var s := a + b + c + rest; var n := |a| + |b|;
      s[..|a|] == a && s[|a|..n] == b && s[n..n + |c|] == c && s[n + |c|..] == rest
  {
  }

  function KeptAll(version: byte, edits: seq<Edit>): (r: seq<Edit>)
    ensures |r| == |edits|
  {
    seq(|edits|, i requires 0 <= i < |edits| => Kept(version, edits[i]))
  }

  lemma {:induction false} EditsRead(version: byte, edits: seq<Edit>)
    ensures EditsAt(version, EditsBytes(version, edits), |edits|) == KeptAll(version, edits)
    decreases |edits|
  {
    hide EditBytes, EditAt, Kept;
    if edits != [] {
      EditReads(version, edits[0], EditsBytes(version, edits[1..]));
      EditsRead(version, edits[1..]);
      assert KeptAll(version, edits) == [Kept(version, edits[0])] + KeptAll(version, edits[1..]);
    }
  }

  lemma ElstReads(edits: seq<Edit>)
    requires |edits| < P32
    ensures ParseElst(ElstBox(edits).payload) == Ok(KeptAll(VersionFor(edits), edits))
  {
    hide EditsBytes, VersionFor, KeptAll, W32, EditsAt;
    var v := VersionFor(edits);
    FullBoxReads(ELST, v, 0, W32(|edits|) + EditsBytes(v, edits));
    var p := ElstBox(edits).payload;
    assert p[4..8] == p[4..][..4] == W32(|edits|) && p[8..] == p[4..][4..] == EditsBytes(v, edits);
    WordReads(|edits|);
    EditsRead(v, edits);
  }

  /** An edit's values, as the program holds them. */
  predicate InInt64(e: Edit) { -P63 <= e.segDur < P63 && -P63 <= e.mediaTime < P63 && e.rate < P32 }

  /** Edits the chosen form can hold: any in the 64-bit one, in the 32-bit one no negative length nor far negative time. */
  predicate Faithful(edits: seq<Edit>) {
    VersionFor(edits) == 1 || forall i :: 0 <= i < |edits| ==> edits[i].segDur >= 0 && edits[i].mediaTime >= -P31
  }

  lemma KeptIff(version: byte, e: Edit)
    requires InInt64(e) && version <= 1 && (version == 0 ==> !Wide(e))
    ensures Kept(version, e) == e <==> version == 1 || (e.segDur >= 0 && e.mediaTime >= -P31)
  {
    ModSmall(e.rate, P32);
    if version == 1 {
      SignedOfUnsigned(e.segDur, P64);
      SignedOfUnsigned(e.mediaTime, P64);
    } else {
      Word32Iff(e.segDur);
      Signed32Iff(e.mediaTime);
    }
  }

  lemma Word32Iff(v: int)
    requires v < P32
    ensures Unsigned(v, P32) == v <==> v >= 0
  {
    if v >= 0 { ModSmall(v, P32); }
  }

  lemma Signed32Iff(v: int)
    requires v < P31
    ensures Signed(Unsigned(v, P32), P32) == v <==> v >= -P31
  {
    if v >= -P31 { SignedOfUnsigned(v, P32); } else { assert Signed(Unsigned(v, P32), P32) >= -P31; }
  }

  /** Edits written as a track's edit list read back the same exactly when the form chosen can hold them. */
  lemma ElstRoundTrip(edits: seq<Edit>, boxes: seq<MemBox>)
    requires |edits| < P31 && (forall i :: 0 <= i < |edits| ==> InInt64(edits[i])) && Find(boxes, EDTS) == Some(BuildElstBox(edits))
    ensures TrakEdits(boxes).Ok? && (TrakEdits(boxes) == Ok(edits) <==> Faithful(edits))
  {
    TrakReads(edits, boxes);
    var v := VersionFor(edits);
    forall i | 0 <= i < |edits|
      ensures Kept(v, edits[i]) == edits[i] <==> v == 1 || (edits[i].segDur >= 0 && edits[i].mediaTime >= -P31)
    {
      KeptIff(v, edits[i]);
    }
    SameAll(v, edits);
  }

  lemma SameAll(v: byte, edits: seq<Edit>)
    ensures KeptAll(v, edits) == edits <==> forall i :: 0 <= i < |edits| ==> Kept(v, edits[i]) == edits[i]
  {
    if KeptAll(v, edits) == edits {
      forall i | 0 <= i < |edits| ensures Kept(v, edits[i]) == edits[i] { assert KeptAll(v, edits)[i] == edits[i]; }
    }
  }

  lemma TrakReads(edits: seq<Edit>, boxes: seq<MemBox>)
    requires |edits| < P31 && Find(boxes, EDTS) == Some(BuildElstBox(edits))
    ensures TrakEdits(boxes) == Ok(KeptAll(VersionFor(edits), edits))
  {
    hide EditsBytes, VersionFor, KeptAll, ParseElst;
    ElstReads(edits);
    var elst := ElstBox(edits);
    assert |elst.payload| <= 8 + P31 * 20;
    IterOfConcat([elst]);
    ConcatOne(elst);
  }

  // ---- a track header's duration ----

  /** Where a track header's duration stands, and what it is. */
  function TkhdField(p: seq<byte>): (r: Result<(nat, int)>)
    ensures r.Ok? ==> |p| >= 4 && r.value.0 + (if p[0] == 1 then 8 else 4) <= |p|
  {
    if |p| < 4 then Err("tkhd too short")
    else if p[0] == 1 then
      if |p| < 36 then Err("tkhd v1 too short") else Ok((28, Signed(BE(p[28..36]), P64)))
    else if |p| < 24 then Err("tkhd too short")
    else Ok((20, BE(p[20..24])))
  }

  /** A version 0 header with its times and duration in 64 bits; mid bytes stand between them. */
  function WidenTimes(p: seq<byte>, mid: nat): seq<byte>
    requires |p| >= 16 + mid
  {
    [1] + p[1..4] + W64(BE(p[4..8])) + W64(BE(p[8..12])) + p[12..12 + mid] + W64(BE(p[12 + mid..16 + mid])) + p[16 + mid..]
  }

  function PatchTkhdDuration(p: seq<byte>, dur: int): Result<seq<byte>> {
    var q := if |p| >= 24 && p[0] == 0 && dur > MAX_UINT32 then WidenTimes(p, 8) else p;
    match TkhdField(q)
    case Err(why) => Err(why)
    case Ok(at) =>
      if q[0] == 1 then Ok(Put(q, at.0, W64(dur))) else Ok(Put(q, at.0, W32(Min(dur, MAX_UINT32))))
  }

  /** Widening keeps every field: the times and the duration in more bits, all else as it was. */
  lemma WidenKeeps(p: seq<byte>, mid: nat)
    requires |p| >= 16 + mid
    ensures var q := WidenTimes(p, mid);
      && |q| == |p| + 12 && q[0] == 1 && q[1..4] == p[1..4]
      && BE(q[4..12]) == BE(p[4..8]) && BE(q[12..20]) == BE(p[8..12]) && q[20..20 + mid] == p[12..12 + mid]
      && BE(q[20 + mid..28 + mid]) == BE(p[12 + mid..16 + mid]) && q[28 + mid..] == p[16 + mid..]
  {
    var a, b, d := W64(BE(p[4..8])), W64(BE(p[8..12])), W64(BE(p[12 + mid..16 + mid]));
    SevenPieces([1], p[1..4], a, b, p[12..12 + mid], d, p[16 + mid..]);
    Word64(p[4..8]);
    Word64(p[8..12]);
    Word64(p[12 + mid..16 + mid]);
  }

  lemma Word64(b: seq<byte>)
    requires |b| == 4
    ensures BE(W64(BE(b))) == BE(b)
  {
    BEBound(b);
    Powers();
    ModSmall(BE(b), P64);
    LongIs(BE(b));
  }

  lemma SevenPieces(a: seq<byte>, b: seq<byte>, c: seq<byte>, d: seq<byte>, e: seq<byte>, f: seq<byte>, g: seq<byte>)
    requires |a| == 1 && |b| == 3 && |c| == |d| == |f| == 8
    ensures var q := a + b + c + d + e + f + g; var n := 20 + |e|;
      && |q| == n + 8 + |g| && q[..1] == a && q[1..4] == b && q[4..12] == c && q[12..20] == d && q[20..n] == e && q[n..n + 8] == f && q[n + 8..] == g
  {
  }

  lemma PutReads(b: seq<byte>, at: nat, x: seq<byte>)
    requires at + |x| <= |b|
    ensures Put(b, at, x)[at..at + |x|] == x && Put(b, at, x)[..at] == b[..at] && Put(b, at, x)[at + |x|..] == b[at + |x|..]
  {
  }

  /** A patched header reads with the duration given, whatever its version's width; a version neither 0 nor 1 caps it. */
  lemma PatchedReads(p: seq<byte>, dur: int)
    requires TkhdField(p).Ok? && 0 <= dur <= MAX_INT64
    ensures PatchTkhdDuration(p, dur).Ok? && var q := PatchTkhdDuration(p, dur).value;
      && TkhdField(q).Ok? && TkhdField(q).value.1 == if p[0] <= 1 then dur else Min(dur, MAX_UINT32)
  {
    hide W32, W64, WidenTimes, Put;
    var w := if p[0] == 0 && dur > MAX_UINT32 then WidenTimes(p, 8) else p;
    if p[0] == 0 && dur > MAX_UINT32 { WidenKeeps(p, 8); }
    if w[0] == 1 {
      PutReads(w, 28, W64(dur));
      assert Put(w, 28, W64(dur))[0] == Put(w, 28, W64(dur))[..28][0] == w[..28][0];
      LongReads(dur);
    } else {
      PutReads(w, 20, W32(Min(dur, MAX_UINT32)));
      assert Put(w, 20, W32(Min(dur, MAX_UINT32)))[0] == Put(w, 20, W32(Min(dur, MAX_UINT32)))[..20][0] == w[..20][0];
      WordReads(Min(dur, MAX_UINT32));
    }
  }

  /** Patching changes the duration alone: in place, or in a widened header whose every other field is as it was. */
  lemma PatchedKeeps(p: seq<byte>, dur: int)
    requires TkhdField(p).Ok? && 0 <= dur <= MAX_INT64
    ensures PatchTkhdDuration(p, dur).Ok? && var q := PatchTkhdDuration(p, dur).value;
      if p[0] == 0 && dur > MAX_UINT32 then
        |q| == |p| + 12 && q[0] == 1 && q[1..4] == p[1..4] && BE(q[4..12]) == BE(p[4..8]) && BE(q[12..20]) == BE(p[8..12]) &&
        q[20..28] == p[12..20] && q[36..] == p[24..]
      else
        var at, n := TkhdField(p).value.0, if p[0] == 1 then 8 else 4; q[..at] == p[..at] && q[at + n..] == p[at + n..]
  {
    hide W32, W64, WidenTimes, Put;
    if p[0] == 0 && dur > MAX_UINT32 {
      WidenKeeps(p, 8);
      var w := WidenTimes(p, 8);
      var q := Put(w, 28, W64(dur));
      PutReads(w, 28, W64(dur));
      Front(q, w, 28);
    } else if p[0] == 1 {
      PutReads(p, 28, W64(dur));
    } else {
      PutReads(p, 20, W32(Min(dur, MAX_UINT32)));
    }
  }

  lemma Front(q: seq<byte>, w: seq<byte>, n: nat)
    requires 28 <= n <= |w| && |q| == |w| && q[..n] == w[..n]
    ensures q[0] == w[0] && q[1..4] == w[1..4] && q[4..12] == w[4..12] && q[12..20] == w[12..20] && q[20..28] == w[20..28]
  {
    forall i | 0 <= i < n ensures q[i] == w[i] { assert q[..n][i] == w[..n][i]; }
  }
}
