/** Writing across the two spans of a ring, and reading them back as one stream. */
module Spans {
  import opened Core
  import opened PlaybackRing

  /** `s` with the bytes of `t` stored one after the other from `at` on. */
  function Splice(s: seq<Byte>, at: nat, t: seq<Byte>): (r: seq<Byte>)
    requires at + |t| <= |s|
    ensures |r| == |s|
    decreases |t|
  {
    if t == [] then s else Splice(s[at := t[0]], at + 1, t[1..])
  }

  lemma {:induction false} SpliceParts(s: seq<Byte>, at: nat, t: seq<Byte>)
    requires at + |t| <= |s|
    ensures Splice(s, at, t) == s[..at] + t + s[at + |t|..]
    decreases |t|
  {
    if t == [] {
      assert s[..at] + t + s[at..] == s;
    } else {
      var s' := s[at := t[0]];
      SpliceParts(s', at + 1, t[1..]);
      assert s'[..at + 1] == s[..at] + [t[0]] && s'[at + |t|..] == s[at + |t|..];
      assert s[..at] + [t[0]] + t[1..] == s[..at] + t;
    }
  }

  lemma {:induction false} SpliceChain(s: seq<Byte>, at: nat, t: seq<Byte>, u: seq<Byte>)
    requires at + |t| + |u| <= |s|
    ensures Splice(Splice(s, at, t), at + |t|, u) == Splice(s, at, t + u)
    decreases |t|
  {
    if t == [] {
      assert t + u == u;
    } else {
      SpliceChain(s[at := t[0]], at + 1, t[1..], u);
      assert (t + u)[1..] == t[1..] + u;
    }
  }

  lemma SpliceOver(s: seq<Byte>, at: nat, t: seq<Byte>, u: seq<Byte>)
    requires |t| == |u| && at + |t| <= |s|
    ensures Splice(Splice(s, at, t), at, u) == Splice(s, at, u)
  {
    var s' := Splice(s, at, t);
    SpliceParts(s, at, t);
    SpliceParts(s', at, u);
    SpliceParts(s, at, u);
    assert s'[..at] == s[..at] && s'[at + |u|..] == s[at + |u|..];
  }

  /** The two spans fit the storage without overlapping. */
  predicate SpansFit(r: Region, capacity: nat) {
    && r.firstBytes + r.secondBytes == r.frames * r.frameStride
    && r.offset + r.firstBytes <= capacity
    && r.secondBytes <= r.offset
  }

  /** Storage after `t` has been written across two spans: `first` bytes from `offset`, the rest from the start. */
  function Spread(s: seq<Byte>, offset: nat, first: nat, t: seq<Byte>): seq<Byte>
    requires first <= |t| && offset + first <= |s| && |t| - first <= offset
  {
    Splice(Splice(s, offset, t[..first]), 0, t[first..])
  }

  lemma SpreadAt(s: seq<Byte>, offset: nat, first: nat, t: seq<Byte>, i: nat)
    requires first <= |t| && offset + first <= |s| && |t| - first <= offset && i < |s|
    ensures Spread(s, offset, first, t)[i]
            == (if offset <= i < offset + first then t[i - offset] else if i < |t| - first then t[first + i] else s[i])
  {
    SpliceParts(s, offset, t[..first]);
    SpliceParts(Splice(s, offset, t[..first]), 0, t[first..]);
  }

  /** What was spread across the spans is what the stream window there reads. */
  lemma SpreadWindow(s: seq<Byte>, head: nat, t: seq<Byte>)
    requires 0 < |s| && |t| <= |s|
    ensures var offset := head % |s|; var first := Min(|t|, |s| - offset);
            Window(Spread(s, offset, first, t), head, |t|) == t
  {
    var offset := head % |s|;
    var first := Min(|t|, |s| - offset);
    forall k | 0 <= k < |t|
      ensures Spread(s, offset, first, t)[(head + k) % |s|] == t[k]
    {
      WrapIndex(head, k, |s|);
      SpreadAt(s, offset, first, t, (head + k) % |s|);
    }
  }

  /** And what was queued before it is untouched. */
  lemma SpreadKeeps(s: seq<Byte>, tail: nat, head: nat, t: seq<Byte>)
    requires 0 < |s| && tail <= head && head + |t| <= tail + |s|
    ensures var offset := head % |s|; var first := Min(|t|, |s| - offset);
            Window(Spread(s, offset, first, t), tail, head - tail) == Window(s, tail, head - tail)
  {
    var written := Spread(s, head % |s|, Min(|t|, |s| - head % |s|), t);
    var a, b := Window(written, tail, head - tail), Window(s, tail, head - tail);
    forall j | 0 <= j < head - tail
      ensures a[j] == b[j]
    {
      SpreadKeepsByte(s, tail + j, head, t);
    }
  }

  lemma SpreadKeepsByte(s: seq<Byte>, queued: nat, head: nat, t: seq<Byte>)
    requires 0 < |s| && |t| <= |s| && queued < head && head + |t| <= queued + |s|
    ensures Spread(s, head % |s|, Min(|t|, |s| - head % |s|), t)[queued % |s|] == s[queued % |s|]
  {
    QueuedApart(queued, head, |t|, |s|);
    SpreadAt(s, head % |s|, Min(|t|, |s| - head % |s|), t, queued % |s|);
  }

  lemma QueuedApart(queued: nat, head: nat, bytes: nat, capacity: nat)
    requires 0 < capacity && bytes <= capacity && queued < head && head + bytes <= queued + capacity
    ensures var i, offset := queued % capacity, head % capacity; var first := Min(bytes, capacity - offset);
            !(offset <= i < offset + first) && !(i < bytes - first)
  {
    var i, offset := queued % capacity, head % capacity;
    var first := Min(bytes, capacity - offset);
    if offset <= i < offset + first {
      WrapIndex(head, i - offset, capacity);
      DistinctModulo(queued, head + (i - offset), capacity);
    } else if i < bytes - first {
      WrapIndex(head, first + i, capacity);
      DistinctModulo(queued, head + first + i, capacity);
    }
  }

  /** The bytes of a region in stream order. */
  function Stream(s: seq<Byte>, offset: nat, first: nat, second: nat): seq<Byte>
    requires offset + first <= |s| && second <= |s|
  {
    s[offset..offset + first] + s[..second]
  }

  lemma StreamOfSpread(s: seq<Byte>, offset: nat, first: nat, t: seq<Byte>)
    requires first <= |t| && offset + first <= |s| && |t| - first <= offset
    ensures Stream(Spread(s, offset, first, t), offset, first, |t| - first) == t
  {
    var written := Spread(s, offset, first, t);
    forall k | 0 <= k < |t|
      ensures Stream(written, offset, first, |t| - first)[k] == t[k]
    {
      SpreadAt(s, offset, first, t, if k < first then offset + k else k - first);
    }
  }

  lemma SpansOf(capacity: nat, head: nat, r: Region)
    requires 0 < capacity && r.offset == head % capacity && r.firstBytes + r.secondBytes == r.frames * r.frameStride
    requires r.firstBytes == Min(r.frames * r.frameStride, capacity - r.offset) && r.frames * r.frameStride <= capacity
    ensures SpansFit(r, capacity)
  {
  }

  method Copy(destination: array<Byte>, at: nat, source: array<Byte>, from: nat, bytes: nat)
    requires destination != source && at + bytes <= destination.Length && from + bytes <= source.Length
    modifies destination
    ensures destination[..] == Splice(old(destination[..]), at, source[from..from + bytes])
  {
    forall i | 0 <= i < bytes {
      destination[at + i] := source[from + i];
    }
    SpliceParts(old(destination[..]), at, source[from..from + bytes]);
  }

  /** Copies a run of bytes into a ring, around the wrap. */
  method CopyAround(ring: array<Byte>, cursor: nat, source: array<Byte>, from: nat, bytes: nat)
    requires ring != source && 0 < ring.Length && bytes <= ring.Length && from + bytes <= source.Length
    modifies ring
    ensures var offset := cursor % ring.Length;
            ring[..] == Spread(old(ring[..]), offset, Min(bytes, ring.Length - offset), source[from..from + bytes])
  {
    var offset := cursor % ring.Length;
    var first := Min(bytes, ring.Length - offset);
    ghost var t := source[from..from + bytes];
    assert source[from..from + first] == t[..first];
    assert source[from + first..from + first + (bytes - first)] == t[first..];
    Copy(ring, offset, source, from, first);
    Copy(ring, 0, source, from + first, bytes - first);
  }

  /** A stream window is its two spans read one after the other. */
  lemma WindowIsStream(s: seq<Byte>, cursor: nat, bytes: nat)
    requires 0 < |s| && bytes <= |s|
    ensures var offset := cursor % |s|; var first := Min(bytes, |s| - offset);
            Window(s, cursor, bytes) == Stream(s, offset, first, bytes - first)
  {
    var offset := cursor % |s|;
    var first := Min(bytes, |s| - offset);
    var window, stream := Window(s, cursor, bytes), Stream(s, offset, first, bytes - first);
    forall k | 0 <= k < bytes
      ensures window[k] == stream[k]
    {
      WrapIndex(cursor, k, |s|);
    }
  }

  /** A slice of a stretch of `s` is a slice of `s`. */
  lemma SliceSlice(s: seq<Byte>, at: nat, t: seq<Byte>, low: nat, high: nat)
    requires at + |t| <= |s| && s[at..at + |t|] == t && low <= high <= |t|
    ensures s[at + low..at + high] == t[low..high]
  {
    var u, v := s[at + low..at + high], t[low..high];
    forall k | 0 <= k < |u|
      ensures u[k] == v[k]
    {
      assert s[at..at + |t|][low + k] == t[low + k];
    }
  }
}
