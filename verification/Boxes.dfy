/** ISO base media file format boxes (mp4/box.go, mp4/parse.go): framing and reading back (section 4.2 of ISO/IEC 14496-12). */
module Boxes {
  import opened Arith
  import opened Bytes
  import Seqs

  /** A box type, its four bytes. */
  type Fourcc = t: seq<byte> | |t| == 4 witness [0, 0, 0, 0]

  const MDAT: Fourcc := [0x6D, 0x64, 0x61, 0x74]

  datatype MemBox = MemBox(typ: Fourcc, payload: seq<byte>)

  /** Go's slices are shorter than 2^63 bytes. */
  const MAX_LEN: int := 0x7FFF_FFFF_FFFF_FFFF

  /** A whole box: its 32-bit size when that holds it, else the 64-bit form. */
  function Box(typ: Fourcc, payload: seq<byte>): (b: seq<byte>)
    ensures |b| == |payload| + if |payload| + 8 < P32 then 8 else 16
  {
    if |payload| + 8 < P32 then U32(|payload| + 8) + typ + payload
    else U32(1) + typ + ToBE(|payload| + 16, 8) + payload
  }

  function BoxOf(b: MemBox): (r: seq<byte>)
    ensures |r| == |b.payload| + if |b.payload| + 8 < P32 then 8 else 16
  {
    Box(b.typ, b.payload)
  }

  predicate Framable(boxes: seq<MemBox>) {
    forall i :: 0 <= i < |boxes| ==> |boxes[i].payload| + 16 <= MAX_LEN
  }

  /** Boxes one after another: a container's payload. */
  function Concat(boxes: seq<MemBox>): seq<byte> {
    if boxes == [] then [] else BoxOf(boxes[0]) + Concat(boxes[1..])
  }

  /** A box with a version and flags in front. */
  function FullBox(typ: Fourcc, version: byte, flags: nat, body: seq<byte>): MemBox {
    MemBox(typ, [version] + ToBE(flags, 3) + body)
  }

  /** A box header read: the type, how long the header is, and how long the box. */
  datatype Header = Header(typ: Fourcc, head: nat, size: nat)

  /** The header of the box buf opens with; a size of 0 runs to the end. */
  function ReadHeader(buf: seq<byte>): (r: Result<Header>)
    requires |buf| >= 8
    ensures r.Ok? ==> 8 <= r.value.head <= r.value.size <= |buf|
  {
    var size32 := BE(buf[..4]);
    var typ := buf[4..8];
    if size32 == 1 && |buf| < 16 then Err("truncated 64-bit box")
    else
      var head := if size32 == 1 then 16 else 8;
      var size := if size32 == 1 then BE(buf[8..16]) else if size32 == 0 then |buf| else size32;
      if size < head || size > |buf| then Err("box has invalid size") else Ok(Header(typ, head, size))
  }

  /** The boxes laid out in buf; fewer than 8 bytes left over are none. */
  function Iter(buf: seq<byte>): Result<seq<MemBox>> {
    if |buf| < 8 then Ok([])
    else
      match ReadHeader(buf)
      case Err(why) => Err(why)
      case Ok(h) =>
        match Iter(buf[h.size..])
        case Err(why) => Err(why)
        case Ok(rest) => Ok([MemBox(h.typ, buf[h.head..h.size])] + rest)
  }

  /** What is read of buf once some boxes of it are. */
  function Behind(out: seq<MemBox>, r: Result<seq<MemBox>>): Result<seq<MemBox>> {
    match r
    case Err(why) => Err(why)
    case Ok(rest) => Ok(out + rest)
  }

  method IterBoxes(buf: seq<byte>) returns (r: Result<seq<MemBox>>)
    ensures r == Iter(buf)
  {
    var out, off := [], 0;
    assert buf[0..] == buf;
    BehindNothing(Iter(buf));
    while off + 8 <= |buf|
      invariant off <= |buf| && Iter(buf) == Behind(out, Iter(buf[off..]))
    {
      var rest := buf[off..];
      match ReadHeader(rest) {
        case Err(why) => return Err(why);
        case Ok(h) =>
          BehindStep(out, MemBox(h.typ, rest[h.head..h.size]), Iter(rest[h.size..]));
          assert rest[h.size..] == buf[off + h.size..];
          out := out + [MemBox(h.typ, rest[h.head..h.size])];
          off := off + h.size;
      }
    }
    assert out + [] == out;
    return Ok(out);
  }

  lemma BehindNothing(r: Result<seq<MemBox>>)
    ensures Behind([], r) == r
  {
    if r.Ok? { assert [] + r.value == r.value; }
  }

  lemma BehindStep(out: seq<MemBox>, b: MemBox, r: Result<seq<MemBox>>)
    ensures Behind(out, Behind([b], r)) == Behind(out + [b], r)
  {
    if r.Ok? { assert out + ([b] + r.value) == out + [b] + r.value; }
  }

  /** The first box of that type. */
  function Find(boxes: seq<MemBox>, typ: Fourcc): (r: Option<MemBox>)
    ensures r.Some? ==> r.value in boxes && r.value.typ == typ
    ensures r.None? ==> forall b :: b in boxes ==> b.typ != typ
  {
    if boxes == [] then None else if boxes[0].typ == typ then Some(boxes[0]) else Find(boxes[1..], typ)
  }

  /** A framed box reads back, whatever follows it. */
  lemma HeaderOfBox(b: MemBox, rest: seq<byte>)
    requires |b.payload| + 16 <= MAX_LEN
    ensures var buf := BoxOf(b) + rest; var n := |BoxOf(b)|;
      && |buf| >= 8 && ReadHeader(buf) == Ok(Header(b.typ, n - |b.payload|, n))
      && buf[n - |b.payload|..n] == b.payload && buf[n..] == rest
  {
    var buf := BoxOf(b) + rest;
    if |b.payload| + 8 < P32 {
      ShortHeader(U32(|b.payload| + 8), b.typ, b.payload, rest);
    } else {
      Powers();
      BEOfToBE(|b.payload| + 16, 8);
      LongHeader(U32(1), b.typ, ToBE(|b.payload| + 16, 8), b.payload, rest);
    }
  }

  lemma ShortHeader(size: seq<byte>, typ: seq<byte>, payload: seq<byte>, rest: seq<byte>)
    requires |size| == 4 && |typ| == 4
    ensures var buf := size + typ + payload + rest; var n := 8 + |payload|;
      buf[..4] == size && buf[4..8] == typ && buf[8..n] == payload && buf[n..] == rest
  {
  }

  lemma LongHeader(one: seq<byte>, typ: seq<byte>, size: seq<byte>, payload: seq<byte>, rest: seq<byte>)
    requires |one| == 4 && |typ| == 4 && |size| == 8
    ensures var buf := one + typ + size + payload + rest; var n := 16 + |payload|;
      buf[..4] == one && buf[4..8] == typ && buf[8..16] == size && buf[16..n] == payload && buf[n..] == rest
  {
  }

  lemma {:induction false} IterHead(b: MemBox, rest: seq<byte>)
    requires |b.payload| + 16 <= MAX_LEN
    ensures Iter(BoxOf(b) + rest) == Behind([b], Iter(rest))
  {
    HeaderOfBox(b, rest);
  }

  /** Reading boxes laid out one after another gives them back. */
  lemma {:induction false} IterOfConcat(boxes: seq<MemBox>)
    requires Framable(boxes)
    ensures Iter(Concat(boxes)) == Ok(boxes)
  {
    if boxes != [] {
      IterHead(boxes[0], Concat(boxes[1..]));
      IterOfConcat(boxes[1..]);
      assert [boxes[0]] + boxes[1..] == boxes;
    }
  }

  lemma {:induction false} ConcatAppend(a: seq<MemBox>, b: seq<MemBox>)
    ensures Concat(a + b) == Concat(a) + Concat(b)
  {
    if a == [] {
      assert a + b == b;
    } else {
      assert (a + b)[1..] == a[1..] + b;
      ConcatAppend(a[1..], b);
      Seqs.Assoc(BoxOf(a[0]), Concat(a[1..]), Concat(b));
    }
  }

  /** Every box of a list is no longer than the list laid out. */
  lemma {:induction false} WithinConcat(boxes: seq<MemBox>, i: nat)
    requires i < |boxes|
    ensures |BoxOf(boxes[i])| <= |Concat(boxes)|
  {
    if i > 0 { WithinConcat(boxes[1..], i - 1); }
  }

  lemma {:induction false} FramableWhen(boxes: seq<MemBox>)
    requires |Concat(boxes)| + 16 <= MAX_LEN
    ensures Framable(boxes)
  {
    forall i | 0 <= i < |boxes| ensures |boxes[i].payload| + 16 <= MAX_LEN { WithinConcat(boxes, i); }
  }

  lemma ConcatOne(b: MemBox)
    ensures Concat([b]) == BoxOf(b)
  {
    assert [b][1..] == [];
  }
}
