/** The windows a movie's samples are read through (mp4/demux.go, trackWindows): whatever earlier reads left in them, a
    sample's bytes are the source's. */
module TrackWindows {
  import opened Arith
  import opened Bytes

  /** What a window reads at once, and the largest sample. */
  const WINDOW_BYTES := 0x10_0000
  const MAX_SEGMENT_BYTES := 0x1000_0000

  /** Bytes of the source from off on. */
  datatype Window = Window(off: int, buf: seq<byte>) {
    function End(): int { off + |buf| }

    predicate Holds(pos: int) { off <= pos < End() }
  }

  /** A window holds what the source has there. */
  predicate Mirrors(w: Window, src: seq<byte>) {
    0 <= w.off && (w.buf == [] || (w.End() <= |src| && w.buf == src[w.off..w.End()]))
  }

  /** Two windows hold no byte both. */
  predicate Apart(v: Window, w: Window) { v.buf == [] || w.buf == [] || v.End() <= w.off || w.End() <= v.off }

  /** Every window mirrors the source and no byte is in two. */
  predicate Mirror(wins: seq<Window>, src: seq<byte>) {
    (forall i :: 0 <= i < |wins| ==> Mirrors(wins[i], src)) &&
    forall i, j :: 0 <= i < j < |wins| ==> Apart(wins[i], wins[j])
  }

  /** No window starts among the bytes read next, so none is read again; nor does one hold the first. */
  predicate Unread(wins: seq<Window>, pos: int, n: int) {
    forall i :: 0 <= i < |wins| ==> !wins[i].Holds(pos) && !(pos < wins[i].off < pos + n)
  }

  /** A window refilled from pos keeps the mirror. */
  lemma Refilled(wins: seq<Window>, src: seq<byte>, k: nat, pos: int, n: int)
    requires Mirror(wins, src) && k < |wins| && 0 <= pos && 0 < n && pos + n <= |src| && Unread(wins, pos, n)
    ensures Mirror(wins[k := Window(pos, src[pos..pos + n])], src)
  {
    var w := Window(pos, src[pos..pos + n]);
    forall i | 0 <= i < |wins| ensures Apart(wins[i], w) && Apart(w, wins[i]) {
      assert !wins[i].Holds(pos) && !(pos < wins[i].off < pos + n);
    }
  }

  lemma Emptied(wins: seq<Window>, src: seq<byte>, k: nat, pos: int)
    requires Mirror(wins, src) && k < |wins| && 0 <= pos
    ensures Mirror(wins[k := Window(pos, [])], src)
  {
  }

  lemma MirrorSlice(w: Window, src: seq<byte>, pos: int, k: int)
    requires Mirrors(w, src) && w.off <= pos <= k <= w.End() && w.buf != []
    ensures w.End() <= |src| && w.buf[pos - w.off..k - w.off] == src[pos..k]
  {
    var a, b := w.buf[pos - w.off..k - w.off], src[pos..k];
    forall x | 0 <= x < |a| ensures a[x] == b[x] { assert a[x] == w.buf[pos - w.off + x] == src[pos + x]; }
  }

  class Windows {
    const src: seq<byte>
    const size: int
    const wins: array<Window>
    /** Whether the k-th read of the source fails, whatever it asks for; how many there have been. */
    const fails: nat -> bool
    var fetched: nat

    ghost predicate Valid()
      reads wins
    {
      wins.Length > 0 && Mirror(wins[..], src)
    }

    constructor (src: seq<byte>, size: int, tracks: nat, fails: nat -> bool)
      requires tracks > 0
      ensures Valid() && fresh(wins) && this.src == src && this.size == size && wins.Length == tracks && this.fails == fails
    {
      this.src, this.size, this.fails, fetched := src, size, fails, 0;
      wins := new Window[tracks](_ => Window(0, []));
    }

    /** n bytes of the source from off; an error past its end, or when the read fails. */
    method Fetch(off: int, n: int) returns (r: Result<seq<byte>>)
      requires 0 <= off && 0 <= n
      modifies this`fetched
      ensures fetched == old(fetched) + 1
      ensures r.Ok? <==> off + n <= |src| && !fails(old(fetched))
      ensures r.Ok? ==> r.value == src[off..off + n]
    {
      fetched := fetched + 1;
      if off + n > |src| || fails(fetched - 1) {
        return Err("unexpected EOF");
      }
      return Ok(src[off..off + n]);
    }

    /** A window that holds the byte at pos. */
    method Holding(pos: int) returns (k: Option<nat>)
      ensures k.Some? ==> k.value < wins.Length && wins[k.value].Holds(pos)
      ensures k.None? ==> forall i :: 0 <= i < wins.Length ==> !wins[i].Holds(pos)
    {
      for i := 0 to wins.Length
        invariant forall j :: 0 <= j < i ==> !wins[j].Holds(pos)
      {
        if wins[i].Holds(pos) {
          return Some(i);
        }
      }
      return None;
    }

    /** The window to refill: the one that ends first. */
    method Oldest() returns (k: nat)
      requires wins.Length > 0
      ensures k < wins.Length && forall i :: 0 <= i < wins.Length ==> wins[k].End() <= wins[i].End()
    {
      k := 0;
      for i := 0 to wins.Length
        invariant k < wins.Length && forall j :: 0 <= j < i ==> wins[k].End() <= wins[j].End()
      {
        if wins[i].End() < wins[k].End() {
          k := i;
        }
      }
    }

    /** How much to read from pos: a window's worth, up to the declared end and the next window's start. */
    method Reach(pos: int) returns (n: int)
      requires pos < size
      ensures 0 < n <= Min(WINDOW_BYTES, size - pos)
      ensures forall i :: 0 <= i < wins.Length ==> !(pos < wins[i].off < pos + n)
      ensures n == Min(WINDOW_BYTES, size - pos) || exists i :: 0 <= i < wins.Length && wins[i].off == pos + n
    {
      n := Min(WINDOW_BYTES, size - pos);
      for i := 0 to wins.Length
        invariant 0 < n <= Min(WINDOW_BYTES, size - pos)
        invariant forall j :: 0 <= j < i ==> !(pos < wins[j].off < pos + n)
        invariant n == Min(WINDOW_BYTES, size - pos) || exists j :: 0 <= j < wins.Length && wins[j].off == pos + n
      {
        if pos < wins[i].off < pos + n {
          n := wins[i].off - pos;
        }
      }
    }

    /** The oldest window refilled with n bytes from pos, emptied when the source does not give them. */
    method Refill(pos: int, n: int) returns (ok: bool)
      requires Valid() && 0 <= pos && 0 < n && Unread(wins[..], pos, n)
      modifies wins, this`fetched
      ensures Valid() && fetched == old(fetched) + 1 && ok == (pos + n <= |src| && !fails(old(fetched)))
      ensures ok ==> exists k :: 0 <= k < wins.Length && wins[k].Holds(pos)
    {
      var k := Oldest();
      var got := Fetch(pos, n);
      if got.Ok? {
        Refilled(wins[..], src, k, pos, n);
      }
      Emptied(wins[..], src, k, pos);
      ghost var next := wins[..][k := Window(pos, if got.Ok? then got.value else [])];
      wins[k] := Window(pos, if got.Ok? then got.value else []);
      assert wins[..] == next;
      ok := got.Ok?;
      assert ok ==> wins[k].Holds(pos);
    }

    /** out is what the source has from off to pos. */
    predicate Spells(out: seq<byte>, off: nat, pos: int) {
      if pos <= off then out == [] else pos <= |src| && out == src[off..pos]
    }

    lemma Grows(out: seq<byte>, off: nat, pos: nat, k: nat)
      requires off <= pos < k <= |src| && Spells(out, off, pos)
      ensures Spells(out + src[pos..k], off, k)
    {
    }

    /** A sample's bytes, out of the windows that hold them, the oldest refilled from the first byte none holds. */
    method Read(off: int, length: nat) returns (r: Result<seq<byte>>)
      requires Valid()
      modifies wins, this`fetched
      ensures Valid() && fetched >= old(fetched)
      ensures off < 0 || off + length > size || length > MAX_SEGMENT_BYTES ==> r.Err?
      ensures r.Ok? ==> 0 <= off && Spells(r.value, off, off + length)
      ensures 0 <= off && off + length <= size <= |src| && length <= MAX_SEGMENT_BYTES ==>
        r.Ok? || exists k :: old(fetched) <= k < fetched && fails(k)
    {
      var end := off + length;
      if off < 0 || end > size {
        return Err("unexpected EOF");
      }
      if end - off > MAX_SEGMENT_BYTES {
        return Err("sample past what one may hold: the sample table is damaged or forged");
      }
      var out: seq<byte> := [];
      var pos := off;
      while pos < end
        invariant Valid() && off <= pos <= end && Spells(out, off, pos) && fetched >= old(fetched)
        decreases end - pos, if exists k :: 0 <= k < wins.Length && wins[k].Holds(pos) then 0 else 1
        modifies wins, this`fetched
      {
        var held := Holding(pos);
        if held.Some? {
          var w := wins[held.value];
          var k := Min(end, w.End());
          assert Mirrors(w, src) by { assert w == wins[..][held.value]; }
          MirrorSlice(w, src, pos, k);
          Grows(out, off, pos, k);
          out := out + w.buf[pos - w.off..k - w.off];
          pos := k;
          continue;
        }
        var n := Reach(pos);
        if (n < end - pos && n == size - pos) || n <= 0 {
          return Err("unexpected EOF");
        }
        if end - pos > n && n == WINDOW_BYTES {
          var rest := Fetch(pos, end - pos);
          if rest.Err? {
            return Err(rest.why);
          }
          Grows(out, off, pos, end);
          return Ok(out + rest.value);
        }
        var ok := Refill(pos, n);
        if !ok {
          return Err("unexpected EOF");
        }
      }
      return Ok(out);
    }
  }
}
