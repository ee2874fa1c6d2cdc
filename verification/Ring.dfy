/** The scrollback of `internal/pty/ring.go`: a circular byte buffer updated in place. */
module Ring {
  import opened Sequences

  /** Position `i` bytes past `start` in a buffer of `cap` bytes. */
  function At(start: nat, i: nat, cap: nat): (k: nat)
    requires start < cap && i <= cap
    ensures k < cap
  {
    if start + i < cap then start + i else start + i - cap
  }

  /** The buffer index of a position up to one lap past the end. */
  method Wrap(x: nat, cap: nat) returns (k: nat)
    requires x < 2 * cap
    ensures k == if x < cap then x else x - cap
  {
    k := x % cap;
    if x >= cap { assert x == 1 * cap + (x - cap); }
  }

  /** `copy(dst[at:], src)`: as much of src as fits, and how much that was. */
  method CopyInto(dst: array<Byte>, at: nat, src: seq<Byte>) returns (n: nat)
    requires at <= dst.Length
    modifies dst
    ensures n == if |src| <= dst.Length - at then |src| else dst.Length - at
    ensures forall i | 0 <= i < dst.Length ::
              dst[i] == if at <= i < at + n then src[i - at] else old(dst[i])
  {
    n := if |src| <= dst.Length - at then |src| else dst.Length - at;
    for i := 0 to n
      invariant forall k | 0 <= k < dst.Length ::
                  dst[k] == if at <= k < at + i then src[k - at] else old(dst[k])
    {
      dst[at + i] := src[i];
    }
  }

  /** The bytes of a ring, oldest first. */
  function Read(buf: seq<Byte>, start: nat, size: nat): (s: seq<Byte>)
    requires start < |buf| && size <= |buf|
    ensures |s| == size
    ensures forall i | 0 <= i < size :: s[i] == buf[At(start, i, |buf|)]
  {
    seq(size, i requires 0 <= i < size => buf[At(start, i, |buf|)])
  }

  /** What the two copies of a write that fits the buffer leave behind. */
  ghost predicate Copied(before: seq<Byte>, after: seq<Byte>, end: nat, p: seq<Byte>) {
    && |before| == |after| && |p| < |after| && end < |after|
    && var n := if |p| <= |after| - end then |p| else |after| - end;
       forall i | 0 <= i < |after| ::
         after[i] == if i < |p| - n then p[n + i] else if end <= i < end + n then p[i - end] else before[i]
  }

  /** Reading on from the oldest byte that survives gives the newest bytes in order. */
  lemma WriteReads(before: seq<Byte>, after: seq<Byte>, start: nat, size: nat, p: seq<Byte>, overflow: nat)
    requires start < |before| && size <= |before|
    requires Copied(before, after, At(start, size, |before|), p)
    requires overflow == if size + |p| > |before| then size + |p| - |before| else 0
    ensures Read(after, At(start, overflow, |before|), size + |p| - overflow)
            == Tail(Read(before, start, size) + p, |before|)
  {
    var cap := |before|;
    var held := Read(before, start, size);
    var got, want := Read(after, At(start, overflow, cap), size + |p| - overflow), Tail(held + p, cap);
    forall j | 0 <= j < |got|
      ensures got[j] == want[j]
    {
      assert want[j] == (held + p)[overflow + j];
      if overflow + j < size {
        assert At(At(start, overflow, cap), j, cap) == At(start, overflow + j, cap);
      }
    }
  }

  /** The two copies of a write: to the end of the buffer, then from its beginning. */
  method CopyAround(buf: array<Byte>, end: nat, p: seq<Byte>)
    requires end < buf.Length && |p| < buf.Length
    modifies buf
    ensures Copied(old(buf[..]), buf[..], end, p)
  {
    var n := CopyInto(buf, end, p);
    var m := CopyInto(buf, 0, p[n..]);
  }

  class Buffer {
    const buf: array<Byte>
    var start: nat             // index of the oldest byte held
    var size: nat              // bytes currently held
    ghost var writes: seq<seq<Byte>>

    /** The bytes held, oldest first. */
    ghost function Contents(): (s: seq<Byte>)
      reads this, buf
      requires start < buf.Length && size <= buf.Length
      ensures |s| == size
    {
      Read(buf[..], start, size)
    }

    ghost predicate Valid()
      reads this, buf
    {
      && start < buf.Length && size <= buf.Length
      && Contents() == Tail(Flat(writes), buf.Length)
    }

    constructor (capacity: nat)
      requires capacity > 0
      ensures Valid() && fresh(buf) && buf.Length == capacity && writes == []
    {
      buf := new Byte[capacity];
      start, size := 0, 0;
      writes := [];
    }

    /** The two copies of a write that fits the buffer, and the bookkeeping after them. */
    method Append(p: seq<Byte>)
      requires start < buf.Length && size <= buf.Length && |p| < buf.Length
      modifies `start, `size, buf
      ensures start < buf.Length && size <= buf.Length
      ensures Contents() == Tail(old(Contents()) + p, buf.Length)
    {
      var capacity := buf.Length;
      ghost var before, from, held := buf[..], start, Contents();
      var end := Wrap(start + size, capacity);
      CopyAround(buf, end, p);

      var overflow := size + |p| - capacity;
      if overflow > 0 {
        WriteReads(before, buf[..], start, size, p, overflow);
        start := Wrap(start + overflow, capacity);
        size := capacity;
        assert start == At(from, overflow, capacity);
      } else {
        WriteReads(before, buf[..], start, size, p, 0);
        size := size + |p|;
        assert start == At(from, 0, capacity);
      }
      assert held == old(Contents());
    }

    /** Appends p, evicting the oldest bytes when there is not enough room. */
    method Write(p: seq<Byte>)
      requires Valid()
      modifies this, buf
      ensures Valid() && writes == old(writes) + [p]
      ensures Contents() == Tail(old(Contents()) + p, buf.Length)
    {
      if |p| >= buf.Length {
        TailOfLong(Contents(), p, buf.Length);
        var n := CopyInto(buf, 0, p[|p| - buf.Length..]);
        start, size := 0, buf.Length;
        assert Contents() == buf[..] == p[|p| - buf.Length..];
      } else {
        Append(p);
      }
      TailAbsorbs(Flat(writes), p, buf.Length);
      FlatSnoc(writes, p);
      writes := writes + [p];
    }

    /** A copy of the held bytes, oldest first, in storage of its own. */
    method Snapshot() returns (out: array<Byte>)
      requires Valid()
      ensures fresh(out) && out[..] == Contents() == Tail(Flat(writes), buf.Length)
    {
      out := new Byte[size];
      var last := if start + size <= buf.Length then start + size else buf.Length;
      var n := CopyInto(out, 0, buf[start..last]);
      var m := CopyInto(out, n, buf[..size - n]);
      assert out[..] == Contents();
    }
  }
}
