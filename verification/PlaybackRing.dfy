/** The playback byte ring over a real array: two-phase producer writes, two-span consumer drains. */
module PlaybackRing {
  import opened Core

  /** Two spans of the ring's storage reserved for the producer, or handed to the consumer. */
  datatype Region = Region(
    offset: nat, firstBytes: nat,   // first span: [offset, offset + firstBytes)
    secondBytes: nat,               // second span: [0, secondBytes)
    cursor: nat, frames: nat, frameStride: nat)

  const NO_REGION := Region(0, 0, 0, 0, 0, 0)

  class ByteRing {
    const data: array<Byte>
    var head: nat    // ringHead_
    var tail: nat    // ringTail_

    ghost predicate Valid()
      reads this
    {
      data.Length > 0 && tail <= head <= tail + data.Length
    }

    ghost function Contents(): (r: seq<Byte>)
      requires Valid()
      reads this, data
    {
      Window(data[..], tail, head - tail)
    }

    constructor (capacity: nat)
      requires capacity > 0
      ensures Valid() && fresh(data) && data.Length == capacity && Contents() == []
    {
      data := new Byte[capacity](_ => 0);
      head, tail := 0, 0;
    }

    /** The oldest `n` bytes, copied out around the wrap. */
    method CopyOut(dst: array<Byte>, at: nat, n: nat)
      requires Valid() && dst != data && at + n <= dst.Length && n <= head - tail
      modifies dst
      ensures dst[at..at + n] == Contents()[..n]
      ensures forall k :: 0 <= k < dst.Length && !(at <= k < at + n) ==> dst[k] == old(dst[k])
    {
      var off := tail % data.Length;
      var first := Min(n, data.Length - off);
      forall k | 0 <= k < first {
        dst[at + k] := data[off + k];
      }
      forall k | 0 <= k < n - first {
        dst[at + first + k] := data[k];
      }
      forall k | 0 <= k < n
        ensures dst[at + k] == Contents()[k]
      {
        WrapIndex(tail, k, data.Length);
      }
    }

    /** `drainRing`: a short ring shortens the result, nothing is made up. */
    method Drain(dst: array<Byte>, at: nat, bytes: nat) returns (n: nat)
      requires Valid() && dst != data && at + bytes <= dst.Length
      modifies this`tail, dst
      ensures Valid() && n == Min(bytes, |old(Contents())|)
      ensures Contents() == old(Contents())[n..]
      ensures dst[at..at + n] == old(Contents())[..n]
      ensures forall k :: 0 <= k < dst.Length && !(at <= k < at + n) ==> dst[k] == old(dst[k])
    {
      n := Min(bytes, head - tail);
      CopyOut(dst, at, n);
      tail := tail + n;
      assert forall k :: 0 <= k < head - tail ==> Contents()[k] == old(Contents())[n + k];
    }

    /** `preparePlaybackWrite`: whole frames, within both the storage and the watermark. */
    method PrepareWrite(requested: int, frameStride: nat, frameLimit: nat) returns (r: Region)
      requires Valid()
      ensures requested <= 0 || frameStride == 0 ==> r == NO_REGION
      ensures requested > 0 && frameStride > 0 ==>
        var queued := |Contents()| / frameStride;
        var physical := (data.Length - |Contents()|) / frameStride;
        r.frames == Min(requested, Min(physical, if queued < frameLimit then frameLimit - queued else 0))
      ensures r.frames > 0 ==> Reserved(r) && r.frameStride == frameStride
    {
      if requested <= 0 || frameStride == 0 {
        return NO_REGION;
      }
      var queuedBytes := head - tail;
      var queuedFrames := queuedBytes / frameStride;
      var physicalFrames := (data.Length - queuedBytes) / frameStride;
      var logicalFrames := if queuedFrames < frameLimit then frameLimit - queuedFrames else 0;
      var admitted := Min(requested, Min(physicalFrames, logicalFrames));
      if admitted == 0 {
        return NO_REGION;
      }
      r := Reserve(admitted, frameStride);
    }

    /** The two spans of `admitted` frames behind the head. */
    method Reserve(admitted: nat, frameStride: nat) returns (r: Region)
      requires Valid() && frameStride > 0 && 0 < admitted <= (data.Length - (head - tail)) / frameStride
      ensures Reserved(r) && r.frameStride == frameStride && r.frames == admitted
    {
      var bytes := admitted * frameStride;
      FitsPhysically(admitted, data.Length - (head - tail), frameStride);
      var offset := head % data.Length;
      var first := Min(bytes, data.Length - offset);
      r := Region(offset, first, bytes - first, head, admitted, frameStride);
    }

    /** The region covers exactly the `frames * frameStride` storage bytes after the head, all of them free. */
    ghost predicate Reserved(r: Region)
      requires Valid()
      reads this
    {
      && r.frames > 0 && r.frameStride > 0
      && r.cursor == head && r.offset == head % data.Length
      && r.firstBytes + r.secondBytes == r.frames * r.frameStride
      && r.firstBytes == Min(r.frames * r.frameStride, data.Length - r.offset)
      && head + r.frames * r.frameStride <= tail + data.Length
    }

    /** `commitPlaybackWrite`: publishes what the two spans now hold. */
    method CommitWrite(r: Region)
      requires Valid() && (r.frames == 0 || Reserved(r))
      modifies this`head
      ensures Valid()
      ensures r.frames == 0 ==> head == old(head)
      ensures r.frames > 0 ==> Contents() == old(Contents()) + Window(data[..], r.cursor, r.frames * r.frameStride)
    {
      if r.frames <= 0 || r.frameStride <= 0 {
        return;
      }
      head := r.cursor + r.frames * r.frameStride;
      ghost var added := Window(data[..], r.cursor, r.frames * r.frameStride);
      ghost var before := old(Contents());
      assert forall k :: 0 <= k < |before| ==> Contents()[k] == before[k];
      assert forall k :: 0 <= k < |added| ==> Contents()[|before| + k] == added[k];
    }
  }

  lemma FitsPhysically(frames: nat, free: nat, stride: nat)
    requires stride > 0 && frames <= free / stride
    ensures frames * stride <= free
  {
    assert (free / stride - frames) * stride >= 0;
  }
}
