/** A track's presentation shifted in its edit list (mp4/editshift.go, rewriteTrakEditShift): the empty edits ahead of its
    media grow or shrink by the shift, and its duration with them. */
module EditShift {
  import opened Arith
  import opened Bytes
  import opened Boxes
  import opened EditLists
  import opened FragRoundTrip

  // ---- the delay and the media ----

  /** How long the empty edits ahead of the media last. */
  function Delay(edits: seq<Edit>): int {
    if edits == [] || edits[0].mediaTime >= 0 then 0 else edits[0].segDur + Delay(edits[1..])
  }

  /** The edits from the first of the media on: a pause after it stays. */
  function Media(edits: seq<Edit>): seq<Edit> {
    if edits == [] || edits[0].mediaTime >= 0 then edits else Media(edits[1..])
  }

  method SplitDelay(edits: seq<Edit>) returns (delay: int, kept: seq<Edit>)
    ensures delay == Delay(edits) && kept == Media(edits)
  {
    delay, kept := 0, [];
    assert edits[0..] == edits;
    for i := 0 to |edits|
      invariant kept == [] ==> Delay(edits) == delay + Delay(edits[i..]) && Media(edits) == Media(edits[i..])
      invariant kept != [] ==> delay == Delay(edits) && Media(edits) == kept + edits[i..]
    {
      assert edits[i..][1..] == edits[i + 1..];
      if edits[i].mediaTime < 0 && kept == [] {
        delay := delay + edits[i].segDur;
      } else {
        assert kept == [] ==> edits[i..] == [edits[i]] + edits[i + 1..];
        kept := kept + [edits[i]];
      }
    }
  }

  const ONE := 0x1_0000

  /** The media's edits; when there is none, all of the media, for the time the track has less its delay. */
  function MediaOr(edits: seq<Edit>, oldDur: int): seq<Edit> {
    if Media(edits) == [] then [Edit(Max(oldDur - Delay(edits), 0), 0, ONE)] else Media(edits)
  }

  /** Media behind a delay. */
  function Delayed(delay: int, media: seq<Edit>): seq<Edit> {
    (if delay > 0 then [Edit(delay, -1, ONE)] else []) + media
  }

  // ---- the track rewritten ----

  /** The track's boxes, its header patched and followed by the new edit list, any old one dropped. */
  function Rewritten(boxes: seq<MemBox>, tkhd: seq<byte>, edits: seq<Edit>): seq<MemBox> {
    if boxes == [] then []
    else
      var rest := Rewritten(boxes[1..], tkhd, edits);
      if boxes[0].typ == EDTS then rest
      else if boxes[0].typ == TKHD then [MemBox(TKHD, tkhd), BuildElstBox(edits)] + rest
      else [boxes[0]] + rest
  }

  /** The track shifted by so many ticks, and its new duration. */
  function Shifted(boxes: seq<MemBox>, ticks: int): Result<(seq<MemBox>, int)> {
    match Find(boxes, TKHD)
    case None => Err("trak without tkhd")
    case Some(tkhd) =>
      match TkhdField(tkhd.payload)
      case Err(why) => Err(why)
      case Ok(field) =>
        match TrakEdits(boxes)
        case Err(why) => Err(why)
        case Ok(edits) =>
          var delay, dur := Delay(edits) + ticks, Max(field.1 + ticks, 0);
          if delay < 0 then Err("cannot start before the presentation start")
          else
            match PatchTkhdDuration(tkhd.payload, dur)
            case Err(why) => Err(why)
            case Ok(patched) => Ok((Rewritten(boxes, patched, Delayed(delay, MediaOr(edits, field.1))), dur))
  }

  /** What rewriting a trak comes to: its boxes shifted and laid out. */
  function ShiftedTrak(payload: seq<byte>, ticks: int): Result<(seq<byte>, int)> {
    match Iter(payload)
    case Err(why) => Err(why)
    case Ok(boxes) =>
      match Shifted(boxes, ticks)
      case Err(why) => Err(why)
      case Ok(r) => Ok((Concat(r.0), r.1))
  }

  method Reassemble(boxes: seq<MemBox>, tkhd: seq<byte>, edits: seq<Edit>) returns (children: seq<MemBox>)
    ensures children == Rewritten(boxes, tkhd, edits)
  {
    hide BuildElstBox;
    children := [];
    assert boxes[0..] == boxes;
    for i := 0 to |boxes|
      invariant Rewritten(boxes, tkhd, edits) == children + Rewritten(boxes[i..], tkhd, edits)
    {
      assert boxes[i..][1..] == boxes[i + 1..];
      if boxes[i].typ == EDTS {
        continue;
      } else if boxes[i].typ == TKHD {
        children := children + [MemBox(TKHD, tkhd), BuildElstBox(edits)];
      } else {
        children := children + [boxes[i]];
      }
    }
  }

  method RewriteTrakEditShift(payload: seq<byte>, ns: int, movieTS: nat) returns (r: Result<(seq<byte>, int)>)
    ensures r == ShiftedTrak(payload, RoundTicks(ns, movieTS))
  {
    hide TrakEdits, Rewritten, PatchTkhdDuration, BuildElstBox, Iter;
    var parsed := IterBoxes(payload);
    if parsed.Err? {
      return Err(parsed.why);
    }
    var boxes := parsed.value;
    var tkhd := Find(boxes, TKHD);
    if tkhd.None? {
      return Err("trak without tkhd");
    }
    var field := TkhdField(tkhd.value.payload);
    if field.Err? {
      return Err(field.why);
    }
    var oldDur := field.value.1;
    var entries := TrakElstEntries(boxes);
    if entries.Err? {
      return Err(entries.why);
    }
    var empty, kept := SplitDelay(entries.value);
    var ticks := RoundTicks(ns, movieTS);
    if empty + ticks < 0 {
      return Err("cannot start before the presentation start");
    }
    if kept == [] {
      kept := [Edit(Max(oldDur - empty, 0), 0, ONE)];
    }
    var patched := PatchTkhdDuration(tkhd.value.payload, Max(oldDur + ticks, 0));
    if patched.Err? {
      return Err(patched.why);
    }
    var children := Reassemble(boxes, patched.value, Delayed(empty + ticks, kept));
    return Ok((Concat(children), Max(oldDur + ticks, 0)));
  }

  // ---- what a shift moves and what it keeps ----

  /** Boxes that are neither the header nor an edit list. */
  function Others(boxes: seq<MemBox>): seq<MemBox> {
    if boxes == [] then []
    else (if boxes[0].typ == EDTS || boxes[0].typ == TKHD then [] else [boxes[0]]) + Others(boxes[1..])
  }

  lemma {:induction false} OthersAppend(a: seq<MemBox>, b: seq<MemBox>)
    ensures Others(a + b) == Others(a) + Others(b)
  {
    if a == [] {
      assert a + b == b;
    } else {
      assert (a + b)[1..] == a[1..] + b;
      OthersAppend(a[1..], b);
    }
  }

  lemma {:induction false} FindAppend(a: seq<MemBox>, b: seq<MemBox>, typ: Fourcc)
    ensures Find(a + b, typ) == if Find(a, typ).Some? then Find(a, typ) else Find(b, typ)
  {
    if a == [] {
      assert a + b == b;
    } else {
      assert (a + b)[1..] == a[1..] + b;
      FindAppend(a[1..], b, typ);
    }
  }

  lemma Types()
    ensures EDTS != TKHD
  {
    assert EDTS[0] != TKHD[0];
  }

  /** The two boxes that replace a track's header. */
  lemma Pair(tkhd: seq<byte>, edits: seq<Edit>)
    ensures var p := [MemBox(TKHD, tkhd), BuildElstBox(edits)];
      Find(p, EDTS) == Some(BuildElstBox(edits)) && Find(p, TKHD) == Some(MemBox(TKHD, tkhd)) && Others(p) == []
  {
    Types();
    var p := [MemBox(TKHD, tkhd), BuildElstBox(edits)];
    assert p[1..] == [BuildElstBox(edits)] && p[1..][1..] == [];
    assert p == [p[0]] + [p[1]];
    OthersAppend([p[0]], [p[1]]);
    One(p[0]);
    One(p[1]);
  }

  lemma One(b: MemBox)
    ensures Others([b]) == (if b.typ == EDTS || b.typ == TKHD then [] else [b])
    ensures b.typ != EDTS && b.typ != TKHD ==> Find([b], EDTS).None? && Find([b], TKHD).None?
  {
    assert [b][1..] == [];
  }

  /** The rewritten track has the new header, one edit list, the new one, and every other box as it was. */
  lemma {:induction false} RewrittenHas(boxes: seq<MemBox>, tkhd: seq<byte>, edits: seq<Edit>)
    ensures Others(Rewritten(boxes, tkhd, edits)) == Others(boxes)
    ensures Find(boxes, TKHD).Some? ==>
      Find(Rewritten(boxes, tkhd, edits), TKHD) == Some(MemBox(TKHD, tkhd)) &&
      Find(Rewritten(boxes, tkhd, edits), EDTS) == Some(BuildElstBox(edits))
  {
    hide BuildElstBox;
    if boxes != [] {
      RewrittenHas(boxes[1..], tkhd, edits);
      var rest := Rewritten(boxes[1..], tkhd, edits);
      if boxes[0].typ == TKHD {
        var p := [MemBox(TKHD, tkhd), BuildElstBox(edits)];
        Types();
        Pair(tkhd, edits);
        OthersAppend(p, rest);
        FindAppend(p, rest, TKHD);
        FindAppend(p, rest, EDTS);
      } else if boxes[0].typ != EDTS {
        One(boxes[0]);
        OthersAppend([boxes[0]], rest);
        FindAppend([boxes[0]], rest, TKHD);
        FindAppend([boxes[0]], rest, EDTS);
      }
    }
  }

  lemma {:induction false} MediaStarts(edits: seq<Edit>)
    ensures Media(edits) != [] ==> Media(edits)[0].mediaTime >= 0
  {
    if edits != [] && edits[0].mediaTime < 0 { MediaStarts(edits[1..]); }
  }

  /** Media behind a delay: that delay, and that media. */
  lemma DelayedSplits(delay: int, media: seq<Edit>)
    requires delay >= 0 && media != [] && media[0].mediaTime >= 0
    ensures Delay(Delayed(delay, media)) == delay && Media(Delayed(delay, media)) == media
  {
    if delay > 0 {
      assert Delayed(delay, media)[1..] == media;
    } else {
      assert [] + media == media;
    }
  }

  /** A track that can be shifted: a header and an edit list that read. */
  ghost predicate Readable(boxes: seq<MemBox>) {
    Find(boxes, TKHD).Some? && TkhdField(Find(boxes, TKHD).value.payload).Ok? && TrakEdits(boxes).Ok?
  }

  function Duration(boxes: seq<MemBox>): int
    requires Readable(boxes)
  {
    TkhdField(Find(boxes, TKHD).value.payload).value.1
  }

  function Edits(boxes: seq<MemBox>): seq<Edit>
    requires Readable(boxes)
  {
    TrakEdits(boxes).value
  }

  /** The edit list a shift writes. */
  function NewEdits(boxes: seq<MemBox>, ticks: int): seq<Edit>
    requires Readable(boxes)
  {
    Delayed(Delay(Edits(boxes)) + ticks, MediaOr(Edits(boxes), Duration(boxes)))
  }

  /** The widths a shifted track's values fit. */
  ghost predicate InWidth(boxes: seq<MemBox>, ticks: int) {
    && Readable(boxes) && 0 <= Duration(boxes) && Duration(boxes) + ticks <= MAX_INT64
    && |NewEdits(boxes, ticks)| < P31 && forall i :: 0 <= i < |NewEdits(boxes, ticks)| ==> InInt64(NewEdits(boxes, ticks)[i])
  }

  lemma MediaOrStarts(edits: seq<Edit>, oldDur: int)
    ensures MediaOr(edits, oldDur) != [] && MediaOr(edits, oldDur)[0].mediaTime >= 0
  {
    MediaStarts(edits);
  }

  /** A shift is refused exactly when there is less delay than it removes. */
  lemma ShiftRefusedIff(boxes: seq<MemBox>, ticks: int)
    requires InWidth(boxes, ticks)
    ensures Shifted(boxes, ticks).Ok? <==> Delay(Edits(boxes)) + ticks >= 0
  {
    hide PatchTkhdDuration, Rewritten, TkhdField, TrakEdits;
    PatchedReads(Find(boxes, TKHD).value.payload, Max(Duration(boxes) + ticks, 0));
  }

  /** A shift moves the delay by just its ticks, keeps the media's edits and the pauses behind it, adds its ticks to the
      duration, and leaves every other box alone. The edit list reads back so exactly when the form chosen for it can hold
      its values; a header whose version is neither 0 nor 1 holds 32 bits of duration at most. */
  lemma ShiftExact(boxes: seq<MemBox>, ticks: int)
    requires InWidth(boxes, ticks) && Delay(Edits(boxes)) + ticks >= 0
    ensures Shifted(boxes, ticks).Ok? && var out := Shifted(boxes, ticks).value.0; var edits := NewEdits(boxes, ticks);
      && Readable(out) && Others(out) == Others(boxes) && (Edits(out) == edits <==> Faithful(edits))
      && Delay(edits) == Delay(Edits(boxes)) + ticks && Media(edits) == MediaOr(Edits(boxes), Duration(boxes))
      && Shifted(boxes, ticks).value.1 == Max(Duration(boxes) + ticks, 0)
      && Duration(out) == (if Find(boxes, TKHD).value.payload[0] <= 1 then Max(Duration(boxes) + ticks, 0)
                           else Min(Max(Duration(boxes) + ticks, 0), MAX_UINT32))
  {
    hide PatchTkhdDuration, Rewritten, TkhdField, TrakEdits, Faithful, Others, MediaOr, Delayed, BuildElstBox;
    var p, dur, edits := Find(boxes, TKHD).value.payload, Max(Duration(boxes) + ticks, 0), NewEdits(boxes, ticks);
    PatchedReads(p, dur);
    RewrittenHas(boxes, PatchTkhdDuration(p, dur).value, edits);
    MediaOrStarts(Edits(boxes), Duration(boxes));
    DelayedSplits(Delay(Edits(boxes)) + ticks, MediaOr(Edits(boxes), Duration(boxes)));
    ElstRoundTrip(edits, Shifted(boxes, ticks).value.0);
  }

  lemma VersionKept(boxes: seq<MemBox>, ticks: int)
    requires InWidth(boxes, ticks) && Delay(Edits(boxes)) + ticks >= 0 && Find(boxes, TKHD).value.payload[0] <= 1
    ensures Shifted(boxes, ticks).Ok? && var tkhd := Find(Shifted(boxes, ticks).value.0, TKHD);
      tkhd.Some? && |tkhd.value.payload| > 0 && tkhd.value.payload[0] <= 1
  {
    hide PatchTkhdDuration, Rewritten, TkhdField, TrakEdits, MediaOr, Delayed, BuildElstBox;
    var p, dur := Find(boxes, TKHD).value.payload, Max(Duration(boxes) + ticks, 0);
    PatchedReads(p, dur);
    RewrittenHas(boxes, PatchTkhdDuration(p, dur).value, NewEdits(boxes, ticks));
    PatchedVersion(p, dur);
  }

  lemma PatchedVersion(p: seq<byte>, dur: int)
    requires TkhdField(p).Ok? && 0 <= dur <= MAX_INT64 && p[0] <= 1
    ensures PatchTkhdDuration(p, dur).Ok? && var q := PatchTkhdDuration(p, dur).value; |q| > 0 && q[0] <= 1
  {
    hide PatchTkhdDuration;
    PatchedKeeps(p, dur);
    PatchedReads(p, dur);
    var q := PatchTkhdDuration(p, dur).value;
    if !(p[0] == 0 && dur > MAX_UINT32) {
      var at := TkhdField(p).value.0;
      assert q[0] == q[..at][0] == p[..at][0] == p[0];
    }
  }

  /** A list and its halves: shifting back from what a shift wrote writes the first delay before the same media. */
  lemma BackEdits(boxes: seq<MemBox>, ticks: int, out: seq<MemBox>)
    requires InWidth(boxes, ticks) && Readable(out) && Edits(out) == NewEdits(boxes, ticks)
    requires Delay(Edits(boxes)) >= 0 && Delay(Edits(boxes)) + ticks >= 0 && InInt64(Edit(Delay(Edits(boxes)), -1, ONE))
    requires Duration(out) == Max(Duration(boxes) + ticks, 0) && Duration(boxes) <= MAX_INT64 && -ticks <= MAX_INT64
    requires |NewEdits(boxes, ticks)| + 1 < P31
    ensures NewEdits(out, -ticks) == Delayed(Delay(Edits(boxes)), MediaOr(Edits(boxes), Duration(boxes)))
    ensures InWidth(out, -ticks) && Delay(Edits(out)) == Delay(Edits(boxes)) + ticks
    ensures MediaOr(Edits(out), Duration(out)) == MediaOr(Edits(boxes), Duration(boxes))
  {
    hide Readable, Duration, Edits, Delay, Media, MediaOr;
    var media := MediaOr(Edits(boxes), Duration(boxes));
    MediaOrStarts(Edits(boxes), Duration(boxes));
    DelayedSplits(Delay(Edits(boxes)) + ticks, media);
    MediaOrIs(Edits(out), Duration(out));
    var edits, was := NewEdits(out, -ticks), NewEdits(boxes, ticks);
    var n := |was| - |media|;
    assert was[n..] == media;
    forall i | 0 <= i < |edits| ensures InInt64(edits[i]) {
      var m := |edits| - |media|;
      if i >= m { assert edits[i] == media[i - m] == was[n + i - m]; }
    }
  }

  lemma MediaOrIs(edits: seq<Edit>, dur: int)
    requires Media(edits) != []
    ensures MediaOr(edits, dur) == Media(edits)
  {
  }

  /** A shift and then its opposite restore the delay and the media; they restore the duration too exactly when it was no
      shorter than what the first shift took. */
  lemma ShiftAndBack(boxes: seq<MemBox>, ticks: int)
    requires InWidth(boxes, ticks) && Delay(Edits(boxes)) >= 0 && Delay(Edits(boxes)) + ticks >= 0
    requires Faithful(NewEdits(boxes, ticks)) && Faithful(Delayed(Delay(Edits(boxes)), MediaOr(Edits(boxes), Duration(boxes))))
    requires Find(boxes, TKHD).value.payload[0] <= 1 && InInt64(Edit(Delay(Edits(boxes)), -1, ONE))
    requires Duration(boxes) <= MAX_INT64 && -ticks <= MAX_INT64 && |NewEdits(boxes, ticks)| + 1 < P31
    ensures Shifted(boxes, ticks).Ok? && var out := Shifted(boxes, ticks).value.0;
      && Shifted(out, -ticks).Ok? && var back := Shifted(out, -ticks).value.0;
      && Readable(back) && Delay(Edits(back)) == Delay(Edits(boxes))
      && Media(Edits(back)) == MediaOr(Edits(boxes), Duration(boxes)) && Others(back) == Others(boxes)
      && (Duration(back) == Duration(boxes) <==> Duration(boxes) + ticks >= 0)
  {
    hide Shifted, Faithful, Others, MediaOr, Delayed, Readable, Duration, Edits, Delay, Media, TkhdField;
    ShiftExact(boxes, ticks);
    var out := Shifted(boxes, ticks).value.0;
    BackEdits(boxes, ticks, out);
    VersionKept(boxes, ticks);
    ShiftExact(out, -ticks);
  }
}
