/** The subsample layout of a VP9 sample (mp4/cenc_vp9.go): a superframe's frames each keep their uncompressed header
    clear, and its trailing index stays clear whole. */
module CencVp9 {
  import opened Arith
  import opened Bytes
  import opened Subsamples
  import Seqs

  // ---- the superframe index ----

  /** The unsigned little-endian integer held in b. */
  function LE(b: seq<byte>): nat {
    if b == [] then 0 else b[0] + 256 * LE(b[1..])
  }

  function ToLE(v: nat, n: nat): (b: seq<byte>)
    ensures |b| == n
  {
    if n == 0 then [] else [v % 256] + ToLE(v / 256, n - 1)
  }

  lemma {:induction false} LEOfToLE(v: nat, n: nat)
    requires v < Pow256(n)
    ensures LE(ToLE(v, n)) == v
  {
    if n > 0 {
      DivLt(v, Pow256(n - 1), 256);
      LEOfToLE(v / 256, n - 1);
    }
  }

  /** A superframe index's shape, which its marker byte gives. */
  datatype Index = Index(bytesPerSize: nat, count: nat)

  function IndexLen(x: Index): nat { 2 + x.count * x.bytesPerSize }

  /** The marker of a superframe index. */
  function Marker(x: Index): int { 0xC0 + (x.bytesPerSize - 1) * 8 + (x.count - 1) }

  /** Up to 8 frames, sizes of up to 4 bytes. */
  predicate GoodIndex(x: Index) { 1 <= x.bytesPerSize <= 4 && 1 <= x.count <= 8 }

  /** The index a sample ends with: the marker byte at both its ends. */
  function FindIndex(sample: seq<byte>): (r: Option<Index>)
    requires sample != []
    ensures r.Some? ==> GoodIndex(r.value) && HasIndex(sample, r.value)
  {
    var m := sample[|sample|-1];
    if m / 32 != 6 then None
    else
      var x := Index(m / 8 % 4 + 1, m % 8 + 1);
      MarkerOf(m, x);
      if IndexLen(x) > |sample| || sample[|sample| - IndexLen(x)] != m then None else Some(x)
  }

  predicate HasIndex(sample: seq<byte>, x: Index) {
    && IndexLen(x) <= |sample| && sample != []
    && sample[|sample|-1] == Marker(x) && sample[|sample| - IndexLen(x)] == Marker(x)
  }

  /** An index is found exactly when the sample ends with one. */
  lemma IndexFound(sample: seq<byte>, x: Index)
    requires sample != []
    ensures FindIndex(sample) == Some(x) <==> GoodIndex(x) && HasIndex(sample, x)
  {
    var m := sample[|sample|-1];
    if GoodIndex(x) && HasIndex(sample, x) {
      MarkerOf(m, Index(m / 8 % 4 + 1, m % 8 + 1));
      MarkerInjective(x, Index(m / 8 % 4 + 1, m % 8 + 1));
    }
  }

  lemma MarkerOf(m: byte, x: Index)
    requires m / 32 == 6 && x == Index(m / 8 % 4 + 1, m % 8 + 1)
    ensures GoodIndex(x) && Marker(x) == m
  {
  }

  /** The size fields between an index's two markers. */
  function IndexBody(sample: seq<byte>, x: Index): (body: seq<byte>)
    requires HasIndex(sample, x)
    ensures |body| == x.count * x.bytesPerSize
  {
    sample[|sample| - IndexLen(x) + 1..|sample| - 1]
  }

  /** The i-th frame size the index gives. */
  function IndexSize(body: seq<byte>, b: nat, i: nat): nat
    requires i * b + b <= |body|
  {
    LE(body[i * b..i * b + b])
  }

  lemma SizeFits(x: Index, i: nat)
    requires i < x.count
    ensures i * x.bytesPerSize + x.bytesPerSize <= x.count * x.bytesPerSize
  {
    MulLe(i + 1, x.count, x.bytesPerSize);
  }

  function Sizes(sample: seq<byte>, x: Index): seq<nat>
    requires HasIndex(sample, x)
  {
    var body := IndexBody(sample, x);
    seq(x.count, i requires 0 <= i < x.count => SizeFits(x, i); IndexSize(body, x.bytesPerSize, i))
  }

  /** What the first n sizes add up to. */
  function Sum(sizes: seq<nat>, n: nat): nat
    requires n <= |sizes|
  {
    if n == 0 then 0 else Sum(sizes, n - 1) + sizes[n-1]
  }

  lemma {:induction false} SumGrows(sizes: seq<nat>, m: nat, n: nat)
    requires m <= n <= |sizes|
    ensures Sum(sizes, m) <= Sum(sizes, n)
    decreases n
  {
    if m < n { SumGrows(sizes, m, n - 1); }
  }

  /** The ranges of the first n frames, each from the sum of the sizes before it to the sum up to it. */
  function Ranges(sizes: seq<nat>, n: nat): (r: seq<(nat, nat)>)
    requires n <= |sizes|
    ensures |r| == n
  {
    seq(n, i requires 0 <= i < n => (Sum(sizes, i), Sum(sizes, i + 1)))
  }

  /** A sample's frames: all of it without an index, otherwise those its index sizes. */
  function Frames(sample: seq<byte>): seq<(nat, nat)>
    requires sample != []
  {
    match FindIndex(sample)
    case None => [(0, |sample|)]
    case Some(x) => Ranges(Sizes(sample, x), x.count)
  }

  /** How many of a sample's bytes its index takes. */
  function IndexTail(sample: seq<byte>): (n: nat)
    requires sample != []
    ensures n <= 34 && n <= |sample|
  {
    match FindIndex(sample)
    case None => 0
    case Some(x) => MulLe(x.count, 8, x.bytesPerSize); IndexLen(x)
  }

  /** The frames an index sizes end where the index begins. */
  predicate Reaches(sample: seq<byte>)
    requires sample != []
  {
    match FindIndex(sample)
    case None => true
    case Some(x) => Sum(Sizes(sample, x), x.count) == |sample| - IndexTail(sample)
  }

  method SplitSuperframe(sample: seq<byte>) returns (r: Result<(seq<(nat, nat)>, nat)>)
    requires sample != []
    ensures r.Ok? <==> Reaches(sample)
    ensures r.Ok? ==> r.value == (Frames(sample), IndexTail(sample))
  {
    match FindIndex(sample)
    case None => return Ok(([(0, |sample|)], 0));
    case Some(x) =>
      var frames := RangesWithin(Sizes(sample, x), |sample| - IndexTail(sample));
      match frames
      case Err(why) => return Err(why);
      case Ok(ranges) => return Ok((ranges, IndexTail(sample)));
  }

  method RangesWithin(sizes: seq<nat>, framesEnd: nat) returns (r: Result<seq<(nat, nat)>>)
    ensures r.Ok? <==> Sum(sizes, |sizes|) == framesEnd
    ensures r.Ok? ==> r.value == Ranges(sizes, |sizes|)
  {
    var off, frames := 0, [];
    for i := 0 to |sizes|
      invariant off == Sum(sizes, i) <= framesEnd
      invariant frames == Ranges(sizes, i)
    {
      SumGrows(sizes, i + 1, |sizes|);
      if off + sizes[i] > framesEnd {
        return Err("superframe index frame size exceeds sample bounds");
      }
      frames := frames + [(off, off + sizes[i])];
      off := off + sizes[i];
    }
    if off != framesEnd {
      return Err("superframe index frame sizes do not cover the sample");
    }
    return Ok(frames);
  }

  // ---- a superframe written and read back ----

  function Concat(frames: seq<seq<byte>>): seq<byte> {
    if frames == [] then [] else Concat(frames[..|frames|-1]) + frames[|frames|-1]
  }

  function SizeFields(b: nat, frames: seq<seq<byte>>): (r: seq<byte>)
    ensures |r| == |frames| * b
  {
    if frames == [] then []
    else
      Distribute(|frames| - 1, 1, b);
      SizeFields(b, frames[..|frames|-1]) + ToLE(|frames[|frames|-1]|, b)
  }

  /** Frames packed as a superframe. */
  function Superframe(b: nat, frames: seq<seq<byte>>): seq<byte>
    requires GoodIndex(Index(b, |frames|))
  {
    var m := Marker(Index(b, |frames|));
    Concat(frames) + ([m] + SizeFields(b, frames) + [m])
  }

  lemma {:induction false} SizeFieldAt(b: nat, frames: seq<seq<byte>>, i: nat)
    requires i < |frames|
    ensures i * b + b <= |SizeFields(b, frames)|
    ensures SizeFields(b, frames)[i * b..i * b + b] == ToLE(|frames[i]|, b)
  {
    var n := |frames| - 1;
    var init, last := SizeFields(b, frames[..n]), ToLE(|frames[n]|, b);
    MulLe(i + 1, n + 1, b);
    assert (i + 1) * b == i * b + b;
    if i == n {
      Seqs.Split(init, last);
    } else {
      SizeFieldAt(b, frames[..n], i);
      Seqs.SliceLeft(init, last, i * b, i * b + b);
    }
  }

  lemma {:induction false} SuperframeIndex(b: nat, frames: seq<seq<byte>>)
    requires GoodIndex(Index(b, |frames|))
    ensures var s := Superframe(b, frames);
      s != [] && FindIndex(s) == Some(Index(b, |frames|)) && |s| - IndexTail(s) == |Concat(frames)|
  {
    var s, x := Superframe(b, frames), Index(b, |frames|);
    assert s[|s|-1] == Marker(x) && s[|Concat(frames)|] == Marker(x);
    IndexFound(s, x);
  }

  lemma MarkerInjective(x: Index, y: Index)
    requires GoodIndex(x) && GoodIndex(y) && Marker(x) == Marker(y)
    ensures x == y
  {
  }

  lemma {:induction false} SuperframeSize(b: nat, frames: seq<seq<byte>>, i: nat)
    requires i < |frames| && |frames[i]| < Pow256(b)
    ensures i * b + b <= |SizeFields(b, frames)| && IndexSize(SizeFields(b, frames), b, i) == |frames[i]|
  {
    SizeFieldAt(b, frames, i);
    LEOfToLE(|frames[i]|, b);
  }

  function Lengths(frames: seq<seq<byte>>): seq<nat> {
    seq(|frames|, i requires 0 <= i < |frames| => |frames[i]|)
  }

  /** A superframe splits back into the frames it was packed from. */
  lemma {:induction false} SuperframeRoundTrip(b: nat, frames: seq<seq<byte>>)
    requires GoodIndex(Index(b, |frames|))
    requires forall i :: 0 <= i < |frames| ==> |frames[i]| < Pow256(b)
    ensures var s := Superframe(b, frames);
      && s != [] && Reaches(s) && |Frames(s)| == |frames|
      && forall i :: 0 <= i < |frames| ==>
        0 <= Frames(s)[i].0 <= Frames(s)[i].1 <= |s| && s[Frames(s)[i].0..Frames(s)[i].1] == frames[i]
  {
    var s, x := Superframe(b, frames), Index(b, |frames|);
    SuperframeIndex(b, frames);
    SuperframeSizes(b, frames);
    SumIsLength(frames, |frames|);
    assert frames[..|frames|] == frames;
    ConcatSlices(frames, s);
  }

  lemma {:induction false} SuperframeSizes(b: nat, frames: seq<seq<byte>>)
    requires GoodIndex(Index(b, |frames|)) && HasIndex(Superframe(b, frames), Index(b, |frames|))
    requires forall i :: 0 <= i < |frames| ==> |frames[i]| < Pow256(b)
    ensures Sizes(Superframe(b, frames), Index(b, |frames|)) == Lengths(frames)
  {
    var x, fields := Index(b, |frames|), SizeFields(b, frames);
    BodyOf(Concat(frames), Marker(x), fields);
    assert IndexBody(Superframe(b, frames), x) == fields;
    forall i: nat | i < |frames| ensures i * b + b <= |fields| && IndexSize(fields, b, i) == |frames[i]| {
      SuperframeSize(b, frames, i);
    }
  }

  lemma BodyOf(a: seq<byte>, m: byte, fields: seq<byte>)
    ensures var s := a + ([m] + fields + [m]);
      s[|s| - (2 + |fields|) + 1..|s| - 1] == fields
  {
  }

  lemma {:induction false} ConcatSlices(frames: seq<seq<byte>>, s: seq<byte>)
    requires |Concat(frames)| <= |s| && s[..|Concat(frames)|] == Concat(frames)
    ensures var r := Ranges(Lengths(frames), |frames|);
      forall i {:trigger r[i]} :: 0 <= i < |frames| ==> 0 <= r[i].0 <= r[i].1 <= |s| && s[r[i].0..r[i].1] == frames[i]
  {
    var r := Ranges(Lengths(frames), |frames|);
    forall i {:trigger r[i]} | 0 <= i < |frames| ensures 0 <= r[i].0 <= r[i].1 <= |s| && s[r[i].0..r[i].1] == frames[i] {
      ConcatSlice(frames, i);
      assert s[r[i].0..r[i].1] == s[..|Concat(frames)|][r[i].0..r[i].1];
    }
  }

  lemma {:induction false} SumIsLength(frames: seq<seq<byte>>, n: nat)
    requires n <= |frames|
    ensures Sum(Lengths(frames), n) == |Concat(frames[..n])|
  {
    if n > 0 {
      SumIsLength(frames, n - 1);
      assert frames[..n][..n-1] == frames[..n-1];
    }
  }

  lemma ConcatSlice(frames: seq<seq<byte>>, i: nat)
    requires i < |frames|
    ensures var from, to := Sum(Lengths(frames), i), Sum(Lengths(frames), i + 1);
      from <= to <= |Concat(frames)| && Concat(frames)[from..to] == frames[i]
  {
    SumIsLength(frames, i);
    SumIsLength(frames, i + 1);
    ConcatPrefix(frames, i + 1);
    assert frames[..i+1][..i] == frames[..i];
    Seqs.Split(Concat(frames[..i]), frames[i]);
  }

  lemma {:induction false} ConcatPrefix(frames: seq<seq<byte>>, n: nat)
    requires n <= |frames|
    ensures |Concat(frames[..n])| <= |Concat(frames)| && Concat(frames)[..|Concat(frames[..n])|] == Concat(frames[..n])
    decreases |frames|
  {
    if n == |frames| {
      assert frames[..n] == frames;
    } else {
      var init := frames[..|frames|-1];
      ConcatPrefix(init, n);
      assert init[..n] == frames[..n];
    }
  }

  // ---- the layout ----

  /** A region of `total` bytes with a clear prefix, clamped to the region and to 16 bits; the prefix takes what is short
      of whole blocks where its field has room. */
  function ClampSubsample(clearLen: nat, total: nat): (s: Subsample)
    ensures s.clear + s.protected == total && s.clear <= 0xFFFF
    ensures Min(clearLen, Min(total, 0xFFFF)) <= s.clear < Min(clearLen, Min(total, 0xFFFF)) + 16
    ensures s.protected % 16 == 0 || s.clear > 0xFFFF - 16
  {
    var c := Min(Min(clearLen, total), 0xFFFF);
    var rem := (total - c) % 16;
    var clear := if c + rem <= 0xFFFF then c + rem else c;
    Subsample(clear, total - clear)
  }

  /** A frame's header length and the width it sets (0 for none), given the last width: any function. */
  type FrameHeader = (seq<byte>, nat) -> Result<(nat, nat)>

  predicate InBounds(sample: seq<byte>, frames: seq<(nat, nat)>) {
    forall i :: 0 <= i < |frames| ==> frames[i].0 <= frames[i].1 <= |sample|
  }

  /** The last width after some frames of the sample and their subsamples. */
  function FramesLayout(f: FrameHeader, width: nat, sample: seq<byte>, frames: seq<(nat, nat)>): Result<(nat, seq<Subsample>)>
    requires InBounds(sample, frames)
  {
    if frames == [] then Ok((width, []))
    else
      var last := frames[|frames|-1];
      match FramesLayout(f, width, sample, frames[..|frames|-1])
      case Err(why) => Err(why)
      case Ok(sofar) =>
        if last.0 == last.1 then Err("empty frame in sample")
        else
          match f(sample[last.0..last.1], sofar.0)
          case Err(why) => Err(why)
          case Ok(h) =>
            Ok((if h.1 > 0 then h.1 else sofar.0, sofar.1 + [ClampSubsample(h.0, last.1 - last.0)]))
  }

  /** The width in hand after those of the frames that are laid out: what a refused sample leaves behind too. */
  function WidthLeft(f: FrameHeader, width: nat, sample: seq<byte>, frames: seq<(nat, nat)>): nat
    requires InBounds(sample, frames)
  {
    if frames == [] then width
    else match FramesLayout(f, width, sample, frames)
      case Ok(l) => l.0
      case Err(_) => WidthLeft(f, width, sample, frames[..|frames|-1])
  }

  lemma {:induction false} WidthStays(f: FrameHeader, width: nat, sample: seq<byte>, frames: seq<(nat, nat)>, n: nat)
    requires InBounds(sample, frames)
    requires n <= |frames| && FramesLayout(f, width, sample, frames[..n]).Err?
    ensures WidthLeft(f, width, sample, frames) == WidthLeft(f, width, sample, frames[..n])
    decreases |frames|
  {
    if n == |frames| {
      assert frames[..n] == frames;
    } else {
      var init := frames[..|frames|-1];
      assert init[..n] == frames[..n];
      ErrorStays(f, width, sample, frames, n);
      WidthStays(f, width, sample, init, n);
    }
  }

  lemma {:induction false} ErrorStays(f: FrameHeader, width: nat, sample: seq<byte>, frames: seq<(nat, nat)>, n: nat)
    requires InBounds(sample, frames)
    requires n <= |frames| && FramesLayout(f, width, sample, frames[..n]).Err?
    ensures FramesLayout(f, width, sample, frames).Err?
    decreases |frames|
  {
    if n == |frames| {
      assert frames[..n] == frames;
    } else {
      var init := frames[..|frames|-1];
      assert init[..n] == frames[..n];
      ErrorStays(f, width, sample, init, n);
    }
  }

  /** The frames follow one another from the start of the sample. */
  ghost predicate Consecutive(frames: seq<(nat, nat)>) {
    && (frames != [] ==> frames[0].0 == 0)
    && (forall i :: 0 <= i < |frames| ==> frames[i].0 <= frames[i].1)
    && (forall i, j {:trigger frames[i], frames[j]} :: 0 <= i && j == i + 1 < |frames| ==> frames[i].1 == frames[j].0)
  }

  /** The subsamples of consecutive frames describe every byte up to the last one's end. */
  lemma {:induction false} FramesTotal(f: FrameHeader, width: nat, sample: seq<byte>, frames: seq<(nat, nat)>)
    requires InBounds(sample, frames)
    requires Consecutive(frames) && FramesLayout(f, width, sample, frames).Ok?
    ensures var subs := FramesLayout(f, width, sample, frames).value.1;
      |subs| == |frames| && Total(subs) == if frames == [] then 0 else frames[|frames|-1].1
    ensures forall i :: 0 <= i < |frames| ==> Splits(FramesLayout(f, width, sample, frames).value.1[i], frames[i].1 - frames[i].0)
  {
    if frames != [] {
      var n := |frames| - 1;
      var init := frames[..n];
      FramesTotal(f, width, sample, init);
      var subs := FramesLayout(f, width, sample, init).value.1;
      var last := FramesLayout(f, width, sample, frames).value.1[n];
      TotalAppend(subs, [last]);
      assert n > 0 ==> init[n-1] == frames[n-1] && frames[n-1].1 == frames[n].0;
    }
  }

  /** s describes a frame of n bytes in senc's fields, its protected bytes whole blocks unless the header is near 64 KiB. */
  predicate Splits(s: Subsample, n: nat) {
    s.clear + s.protected == n && s.clear <= 0xFFFF && (s.protected % 16 == 0 || s.clear > 0xFFFF - 16)
  }

  /** The frames of a sample that reaches its index tile the bytes before it. */
  lemma FramesTile(sample: seq<byte>)
    requires sample != [] && Reaches(sample)
    ensures var frames := Frames(sample);
      && frames != [] && Consecutive(frames) && InBounds(sample, frames)
      && frames[|frames|-1].1 == |sample| - IndexTail(sample)
  {
    match FindIndex(sample)
    case None =>
    case Some(x) => RangesTile(Sizes(sample, x));
  }

  lemma {:induction false} RangesTile(sizes: seq<nat>)
    ensures Consecutive(Ranges(sizes, |sizes|))
    ensures var r := Ranges(sizes, |sizes|);
      forall i {:trigger r[i]} :: 0 <= i < |r| ==> r[i].0 <= r[i].1 <= Sum(sizes, |sizes|)
  {
    forall i: nat {:trigger sizes[i]} | i < |sizes| ensures Sum(sizes, i) <= Sum(sizes, i + 1) <= Sum(sizes, |sizes|) {
      SumGrows(sizes, i + 1, |sizes|);
    }
  }

  /** A whole sample: its frames' subsamples and its index's. */
  function SampleLayout(f: FrameHeader, width: nat, sample: seq<byte>): Result<(nat, seq<Subsample>)>
    requires sample != [] && Reaches(sample)
  {
    FramesTile(sample);
    match FramesLayout(f, width, sample, Frames(sample))
    case Err(why) => Err(why)
    case Ok(l) =>
      var n := IndexTail(sample);
      Ok((l.0, if n > 0 then l.1 + [ClampSubsample(n, n)] else l.1))
  }

  /** The entries describe exactly the sample: one for each frame, split in two, and the index clear. */
  lemma LayoutPartitions(f: FrameHeader, width: nat, sample: seq<byte>)
    requires sample != [] && Reaches(sample) && SampleLayout(f, width, sample).Ok?
    ensures var subs := SampleLayout(f, width, sample).value.1; var frames := Frames(sample);
      && Total(subs) == |sample|
      && (forall i :: 0 <= i < |frames| ==> i < |subs| && Splits(subs[i], frames[i].1 - frames[i].0))
      && (IndexTail(sample) > 0 ==> subs[|frames|..] == [Subsample(IndexTail(sample), 0)])
      && (IndexTail(sample) == 0 ==> |subs| == |frames|)
  {
    hide Total, ClampSubsample, FramesLayout;
    FramesTile(sample);
    FramesTotal(f, width, sample, Frames(sample));
    WithTail(FramesLayout(f, width, sample, Frames(sample)).value.1, IndexTail(sample));
  }

  lemma {:induction false} WithTail(subs: seq<Subsample>, n: nat)
    requires n <= 34
    ensures ClampSubsample(n, n) == Subsample(n, 0) && Total(subs + [ClampSubsample(n, n)]) == Total(subs) + n
  {
    TotalAppend(subs, [ClampSubsample(n, n)]);
  }

  /** Computes VP9 samples' subsamples, the last frame width in hand. */
  class Vp9Splitter {
    const header: FrameHeader
    var lastWidth: nat

    constructor (header: FrameHeader)
      ensures this.header == header && lastWidth == 0
    {
      this.header := header;
      lastWidth := 0;
    }

    /** Refused unless the frames reach to the index and each is laid out; then the entries are the frames' and, as clear
        bytes, the index's. */
    method Split(sample: seq<byte>) returns (r: Result<seq<Subsample>>)
      modifies this
      ensures r.Ok? <==> sample != [] && Reaches(sample) && SampleLayout(header, old(lastWidth), sample).Ok?
      ensures r.Ok? ==> SampleLayout(header, old(lastWidth), sample) == Ok((lastWidth, r.value))
      ensures sample == [] || !Reaches(sample) ==> lastWidth == old(lastWidth)
      ensures sample != [] && Reaches(sample) ==>
        InBounds(sample, Frames(sample)) && lastWidth == WidthLeft(header, old(lastWidth), sample, Frames(sample))
    {
      if sample == [] {
        return Err("empty sample");
      }
      var split := SplitSuperframe(sample);
      if split.Err? {
        return Err(split.why);
      }
      var (frames, indexLen) := split.value;
      FramesTile(sample);
      var width, laid := LayFrames(header, lastWidth, sample, frames);
      lastWidth := width;
      if laid.Err? {
        return Err(laid.why);
      }
      var subs := laid.value;
      if indexLen > 0 {
        subs := subs + [ClampSubsample(indexLen, indexLen)];
      }
      return Ok(subs);
    }
  }

  /** The loop over a sample's frames, the width of each handed to the next. */
  method LayFrames(f: FrameHeader, width: nat, sample: seq<byte>, frames: seq<(nat, nat)>) returns (w: nat, r: Result<seq<Subsample>>)
    requires InBounds(sample, frames)
    ensures w == WidthLeft(f, width, sample, frames)
    ensures r.Ok? == FramesLayout(f, width, sample, frames).Ok?
    ensures r.Ok? ==> FramesLayout(f, width, sample, frames) == Ok((w, r.value))
  {
    var subs := [];
    w := width;
    for i := 0 to |frames|
      invariant FramesLayout(f, width, sample, frames[..i]) == Ok((w, subs))
    {
      assert frames[..i+1][..i] == frames[..i];
      ErrorStaysIf(f, width, sample, frames, i + 1);
      var fr := sample[frames[i].0..frames[i].1];
      if fr == [] {
        WidthAt(f, width, sample, frames, i);
        return w, Err("empty frame in sample");
      }
      var h := f(fr, w);
      if h.Err? {
        WidthAt(f, width, sample, frames, i);
        return w, Err(h.why);
      }
      if h.value.1 > 0 {
        w := h.value.1;
      }
      subs := subs + [ClampSubsample(h.value.0, |fr|)];
    }
    assert frames[..|frames|] == frames;
    return w, Ok(subs);
  }

  lemma WidthAt(f: FrameHeader, width: nat, sample: seq<byte>, frames: seq<(nat, nat)>, i: nat)
    requires InBounds(sample, frames) && i < |frames|
    requires FramesLayout(f, width, sample, frames[..i]).Ok? && FramesLayout(f, width, sample, frames[..i+1]).Err?
    ensures WidthLeft(f, width, sample, frames) == FramesLayout(f, width, sample, frames[..i]).value.0
  {
    WidthStays(f, width, sample, frames, i + 1);
    assert frames[..i+1][..i] == frames[..i];
  }

  lemma {:induction false} ErrorStaysIf(f: FrameHeader, width: nat, sample: seq<byte>, frames: seq<(nat, nat)>, n: nat)
    requires InBounds(sample, frames)
    requires n <= |frames|
    ensures FramesLayout(f, width, sample, frames[..n]).Err? ==> FramesLayout(f, width, sample, frames).Err?
  {
    if FramesLayout(f, width, sample, frames[..n]).Err? { ErrorStays(f, width, sample, frames, n); }
  }
}
