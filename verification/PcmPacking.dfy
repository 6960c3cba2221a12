/**
 * The two-span packers: samples are packed straight into ring storage, where a frame may straddle
 * the wrap, and unpacked from it. The reference is plain concatenation of frames.
 */
module PcmPacking {
  import opened Core
  import opened PcmFormat
  import opened PlaybackRing
  import opened Spans

  // ---- Packing in place -----------------------------------------------------------------

  ghost predicate Silent(s: seq<Byte>, at: nat, bytes: nat)
    requires at + bytes <= |s|
  {
    forall k :: at <= k < at + bytes ==> s[k] == 0
  }

  lemma SilentZeros(s: seq<Byte>, at: nat, bytes: nat)
    requires at + bytes <= |s|
    ensures Silent(Splice(s, at, Zeros(bytes)), at, bytes)
  {
    SpliceParts(s, at, Zeros(bytes));
  }

  lemma SilentAfter(s: seq<Byte>, at: nat, bytes: nat, t: seq<Byte>, next: nat)
    requires at + bytes <= |s| && |t| + next <= bytes && Silent(s, at, bytes)
    ensures Silent(Splice(s, at, t), at + |t|, next)
  {
    SpliceParts(s, at, t);
    var r := Splice(s, at, t);
    assert r[at + |t|..] == s[at + |t|..];
    assert forall k :: at + |t| <= k < |s| ==> r[k] == r[at + |t|..][k - at - |t|];
  }

  lemma SilentSlice(s: seq<Byte>, at: nat, bytes: nat, from: nat, n: nat)
    requires at + bytes <= |s| && from + n <= bytes && (n > 0 ==> Silent(s, at, bytes))
    ensures s[at + from..at + from + n] == Zeros(n)
  {
    forall k | 0 <= k < n
      ensures s[at + from..at + from + n][k] == Zeros(n)[k]
    {
      assert s[at + from + k] == 0;
    }
  }

  lemma Regroup(x: seq<Byte>, a: seq<Byte>, t: seq<Byte>, b: seq<Byte>, y: seq<Byte>)
    ensures (x + a) + t + (b + y) == x + (a + t + b) + y
  {
  }

  /** Writing `t` between two stretches is writing all three over the whole. */
  lemma WrittenAround(s: seq<Byte>, at: nat, a: seq<Byte>, t: seq<Byte>, b: seq<Byte>)
    requires at + |a| + |t| + |b| <= |s|
    requires s[at..at + |a|] == a && s[at + |a| + |t|..at + |a| + |t| + |b|] == b
    ensures s[..at + |a|] + t + s[at + |a| + |t|..] == s[..at] + (a + t + b) + s[at + |a| + |t| + |b|..]
  {
    var from, to := at + |a| + |t|, at + |a| + |t| + |b|;
    assert s[..at] + s[at..at + |a|] == s[..at + |a|];
    assert s[from..to] + s[to..] == s[from..];
    Regroup(s[..at], a, t, b, s[to..]);
  }

  lemma SilentAround(s: seq<Byte>, at: nat, lead: nat, t: seq<Byte>, rest: nat)
    requires at + lead + |t| + rest <= |s|
    requires lead + rest > 0 ==> Silent(s, at, lead + |t| + rest)
    ensures Splice(s, at + lead, t) == Splice(s, at, Zeros(lead) + t + Zeros(rest))
  {
    var a, b := Zeros(lead), Zeros(rest);
    SilentSlice(s, at, lead + |t| + rest, 0, lead);
    SilentSlice(s, at, lead + |t| + rest, lead + |t|, rest);
    WrittenAround(s, at, a, t, b);
    SpliceParts(s, at + lead, t);
    SpliceParts(s, at, a + t + b);
  }

  /** Two adjacent subslots written into a frame whose remaining bytes are already silent. */
  lemma PairFrame(s: seq<Byte>, at: nat, left: int, right: int, l: Layout)
    requires l.Legal() && at + l.stride <= |s|
    requires l.channels != 2 ==> Silent(s, at, l.stride)
    ensures Splice(Splice(s, at + l.left, Subslot(left, l.bits, l.bytes)), at + l.left + l.bytes, Subslot(right, l.bits, l.bytes))
            == Splice(s, at, Frame(left, right, l))
  {
    var a, b := Subslot(left, l.bits, l.bytes), Subslot(right, l.bits, l.bytes);
    SpliceChain(s, at + l.left, a, b);
    SilentAround(s, at, l.left, a + b, l.stride - l.left - 2 * l.bytes);
  }

  /** `packPcm` after conversion to an integer sample. */
  method PackPcm(out: array<Byte>, at: nat, sample: int, bits: nat, bytes: nat)
    requires ValidBytes(bits) <= bytes && at + bytes <= out.Length
    modifies out
    ensures out[..] == Splice(old(out[..]), at, Subslot(sample, bits, bytes))
  {
    var subslot := SubslotWord(sample, bits, bytes);
    for byte := 0 to bytes
      invariant out[at..at + byte] == Subslot(sample, bits, bytes)[..byte]
      invariant forall k :: 0 <= k < out.Length && !(at <= k < at + byte) ==> out[k] == old(out[k])
    {
      out[at + byte] := Digit(subslot, byte);
    }
    SpliceParts(old(out[..]), at, Subslot(sample, bits, bytes));
  }

  /** Both subslots of one frame, the rest of which is already silent. */
  method PackFrame(out: array<Byte>, at: nat, left: int, right: int, l: Layout)
    requires l.Legal() && at + l.stride <= out.Length
    requires l.channels != 2 ==> Silent(out[..], at, l.stride)
    modifies out
    ensures out[..] == Splice(old(out[..]), at, Frame(left, right, l))
  {
    PairFrame(out[..], at, left, right, l);
    PackPcm(out, at + l.left, left, l.bits, l.bytes);
    PackPcm(out, at + l.left + l.bytes, right, l.bits, l.bytes);
  }

  method Silence(out: array<Byte>, at: nat, bytes: nat)
    requires at + bytes <= out.Length
    modifies out
    ensures out[..] == Splice(old(out[..]), at, Zeros(bytes))
  {
    forall k | at <= k < at + bytes {
      out[k] := 0;
    }
    SpliceParts(old(out[..]), at, Zeros(bytes));
  }

  /** One more frame behind the ones already packed. */
  lemma SpliceNext(s: seq<Byte>, at: nat, run: seq<seq<Byte>>, f: nat)
    requires f < |run| && at + |Join(run)| <= |s|
    ensures |Join(run[..f])| + |run[f]| == |Join(run[..f + 1])| <= |Join(run)|
    ensures Splice(Splice(s, at, Join(run[..f])), at + |Join(run[..f])|, run[f]) == Splice(s, at, Join(run[..f + 1]))
  {
    assert run[..f + 1][..f] == run[..f];
    JoinCut(run, f + 1);
    SpliceChain(s, at, Join(run[..f]), run[f]);
  }

  /** The frame loop of `packStereoRun`, over bytes that are silent wherever the pair leaves gaps. */
  method PackFrames(destination: array<Byte>, at: nat, frames: nat, left: seq<int>, right: seq<int>, from: nat,
                    l: Layout, ghost block: seq<seq<Byte>>)
    requires l.Legal() && FramesOf(block, left, right, l) && from + frames <= |block|
    requires at + |Join(block[from..from + frames])| <= destination.Length
    requires l.channels != 2 ==> Silent(destination[..], at, |Join(block[from..from + frames])|)
    modifies destination
    ensures destination[..] == Splice(old(destination[..]), at, Join(block[from..from + frames]))
  {
    ghost var quiet, run := destination[..], block[from..from + frames];
    var output := at;
    for frame := 0 to frames
      invariant output == at + |Join(run[..frame])| && |Join(run[..frame])| <= |Join(run)|
      invariant destination[..] == Splice(quiet, at, Join(run[..frame]))
    {
      SpliceNext(quiet, at, run, frame);
      if l.channels != 2 {
        SilentAfter(quiet, at, |Join(run)|, Join(run[..frame]), l.stride);
      }
      assert run[frame] == Frame(left[from + frame], right[from + frame], l);
      ghost var packed := Join(run[..frame]);
      PackFrame(destination, output, left[from + frame], right[from + frame], l);
      assert destination[..] == Splice(Splice(quiet, at, packed), at + |packed|, run[frame]);
      output := output + l.stride;
    }
    assert run[..frames] == run;
  }

  /** `packStereoRun`: whole frames into one span, every other channel silenced. */
  method PackStereoRun(destination: array<Byte>, at: nat, frames: nat, left: seq<int>, right: seq<int>, from: nat,
                       l: Layout, ghost block: seq<seq<Byte>>)
    requires l.Legal() && FramesOf(block, left, right, l) && from + frames <= |block|
    requires at + |Join(block[from..from + frames])| <= destination.Length
    modifies destination
    ensures destination[..] == Splice(old(destination[..]), at, Join(block[from..from + frames]))
  {
    if l.channels != 2 {
      JoinLength(block[from..from + frames], l.stride);
      SilentZeros(destination[..], at, frames * l.stride);
      Silence(destination, at, frames * l.stride);
      SpliceOver(old(destination[..]), at, Zeros(frames * l.stride), Join(block[from..from + frames]));
    }
    PackFrames(destination, at, frames, left, right, from, l, block);
  }

  /** Where the wrap falls: `k` whole frames, then possibly part of one more. */
  lemma RegionCut(block: seq<seq<Byte>>, stride: nat, first: nat, second: nat)
    requires stride > 0 && Uniform(block, stride) && first + second == |block| * stride
    ensures var k := first / stride;
            && |Join(block)| == first + second
            && k <= |block| && |Join(block[..k])| == k * stride <= first < k * stride + stride
            && (k * stride < first ==> k < |block|)
            && Join(block) == Join(block[..k]) + Join(block[k..])
  {
    var k := first / stride;
    JoinLength(block, stride);
    QuotientBound(first, second, |block|, stride);
    JoinLength(block[..k], stride);
    JoinCut(block, k);
  }

  lemma QuotientBound(first: nat, second: nat, frames: nat, stride: nat)
    requires stride > 0 && first + second == frames * stride
    ensures var k := first / stride;
            k <= frames && k * stride <= first < k * stride + stride && (k * stride < first ==> k < frames)
  {
    var k := first / stride;
    assert first == k * stride + first % stride;
    DivMonotone(first, frames * stride, stride);
    WholeProduct(frames, stride);
    assert k == frames ==> k * stride == frames * stride;
  }

  lemma CutInside(a: seq<Byte>, f: seq<Byte>, b: seq<Byte>, split: nat)
    requires split <= |f|
    ensures (a + f + b)[..|a| + split] == a + f[..split]
    ensures (a + f + b)[|a| + split..] == f[split..] + b
  {
  }

  /** `splitFrame`, packed on its own. */
  method ScratchFrame(left: int, right: int, l: Layout) returns (splitFrame: array<Byte>)
    requires l.Legal()
    ensures fresh(splitFrame) && splitFrame.Length == l.stride && splitFrame[..] == Frame(left, right, l)
  {
    splitFrame := new Byte[l.stride](_ => 0);
    ghost var zeros := splitFrame[..];
    PackFrame(splitFrame, 0, left, right, l);
    SpliceParts(zeros, 0, Frame(left, right, l));
  }

  /** The straddling frame, by way of a scratch frame. */
  method PackAcrossWrap(ring: array<Byte>, at: nat, left: int, right: int, l: Layout, split: nat)
    requires l.Legal() && 0 < split < l.stride && at + split <= ring.Length && l.stride - split <= ring.Length
    modifies ring
    ensures var frame := Frame(left, right, l);
            ring[..] == Splice(Splice(old(ring[..]), at, frame[..split]), 0, frame[split..])
  {
    var splitFrame := ScratchFrame(left, right, l);
    ghost var frame := splitFrame[..];
    assert splitFrame[0..0 + split] == frame[..split] && splitFrame[split..split + (l.stride - split)] == frame[split..];
    Copy(ring, at, splitFrame, 0, split);
    Copy(ring, 0, splitFrame, split, l.stride - split);
  }

  /** From the straddling frame on: both halves of it, then the whole frames of the second span. */
  method PackFromSplit(ring: array<Byte>, at: nat, left: seq<int>, right: seq<int>, k: nat, l: Layout, split: nat,
                       ghost block: seq<seq<Byte>>)
    requires l.Legal() && FramesOf(block, left, right, l) && k < |block| && 0 < split < l.stride
    requires at + split <= ring.Length && l.stride - split + |Join(block[k + 1..])| <= ring.Length
    modifies ring
    ensures |block[k]| == l.stride
    ensures ring[..] == Splice(Splice(old(ring[..]), at, block[k][..split]), 0, block[k][split..] + Join(block[k + 1..]))
  {
    PackAcrossWrap(ring, at, left[k], right[k], l, split);
    assert block[k + 1..k + 1 + (|left| - k - 1)] == block[k + 1..];
    SpliceChain(Splice(old(ring[..]), at, block[k][..split]), 0, block[k][split..], Join(block[k + 1..]));
    PackStereoRun(ring, l.stride - split, |left| - k - 1, left, right, k + 1, l, block);
  }

  /** Both spans when frame `k` straddles the wrap. */
  method PackSplitSpans(ring: array<Byte>, offset: nat, first: nat, left: seq<int>, right: seq<int>, k: nat, whole: nat,
                        l: Layout, ghost block: seq<seq<Byte>>)
    requires l.Legal() && FramesOf(block, left, right, l) && k < |block| && |block[k]| == l.stride
    requires |Join(block[..k])| == whole < first < whole + l.stride
    requires |Join(block)| == whole + l.stride + |Join(block[k + 1..])|
    requires offset + first <= ring.Length && |Join(block)| - first <= offset
    modifies ring
    ensures ring[..] == Spread(old(ring[..]), offset, first, Join(block))
  {
    ghost var before := ring[..];
    assert block[0..0 + k] == block[..k];
    PackStereoRun(ring, offset, k, left, right, 0, l, block);
    ghost var half := ring[..];
    PackFromSplit(ring, offset + whole, left, right, k, l, first - whole, block);
    SplitWritten(before, half, ring[..], offset, block, k, whole, first);
  }

  lemma SplitWritten(s: seq<Byte>, half: seq<Byte>, done: seq<Byte>, offset: nat, block: seq<seq<Byte>>, k: nat, whole: nat, first: nat)
    requires k < |block| && whole == |Join(block[..k])| <= first <= whole + |block[k]| && offset + first <= |s|
    requires |Join(block)| == whole + |block[k]| + |Join(block[k + 1..])| && |Join(block)| - first <= offset
    requires half == Splice(s, offset, Join(block[..k]))
    requires done == Splice(Splice(half, offset + whole, block[k][..first - whole]), 0,
                            block[k][first - whole..] + Join(block[k + 1..]))
    ensures done == Spread(s, offset, first, Join(block))
  {
    SplitSpread(s, offset, block, k, first - whole);
  }

  lemma SplitSpread(s: seq<Byte>, offset: nat, block: seq<seq<Byte>>, k: nat, split: nat)
    requires k < |block| && split <= |block[k]| && offset + |Join(block[..k])| + split <= |s|
    requires |block[k]| - split + |Join(block[k + 1..])| <= offset
    ensures |Join(block)| == |Join(block[..k])| + |block[k]| + |Join(block[k + 1..])|
    ensures Splice(Splice(Splice(s, offset, Join(block[..k])), offset + |Join(block[..k])|, block[k][..split]),
                   0, block[k][split..] + Join(block[k + 1..]))
            == Spread(s, offset, |Join(block[..k])| + split, Join(block))
  {
    JoinSplit(block, k);
    CutInside(Join(block[..k]), block[k], Join(block[k + 1..]), split);
    SpliceChain(s, offset, Join(block[..k]), block[k][..split]);
  }

  lemma EvenCut(a: seq<Byte>, b: seq<Byte>)
    ensures (a + b)[..|a|] == a && (a + b)[|a|..] == b
  {
  }

  /** Both spans when the wrap falls between two frames. */
  method PackEvenSpans(ring: array<Byte>, offset: nat, left: seq<int>, right: seq<int>, k: nat, l: Layout,
                       ghost block: seq<seq<Byte>>)
    requires l.Legal() && FramesOf(block, left, right, l) && k <= |block|
    requires offset + |Join(block[..k])| <= ring.Length && |Join(block[k..])| <= ring.Length
    modifies ring
    ensures ring[..] == Splice(Splice(old(ring[..]), offset, Join(block[..k])), 0, Join(block[k..]))
  {
    assert block[0..0 + k] == block[..k] && block[k..k + (|left| - k)] == block[k..];
    PackStereoRun(ring, offset, k, left, right, 0, l, block);
    PackStereoRun(ring, 0, |left| - k, left, right, k, l, block);
  }

  /** Both spans, once it is known how many whole frames precede the wrap. */
  method PackSpans(ring: array<Byte>, offset: nat, first: nat, left: seq<int>, right: seq<int>, k: nat, whole: nat,
                   l: Layout, ghost block: seq<seq<Byte>>)
    requires l.Legal() && FramesOf(block, left, right, l) && k <= |block|
    requires |Join(block[..k])| == whole <= first <= |Join(block)| && (whole < first ==> k < |block| && first < whole + l.stride)
    requires Join(block) == Join(block[..k]) + Join(block[k..])
    requires offset + first <= ring.Length && |Join(block)| - first <= offset
    modifies ring
    ensures ring[..] == Spread(old(ring[..]), offset, first, Join(block))
  {
    if whole < first {
      JoinSplit(block, k);
      PackSplitSpans(ring, offset, first, left, right, k, whole, l, block);
    } else {
      PackEvenSpans(ring, offset, left, right, k, l, block);
      EvenCut(Join(block[..k]), Join(block[k..]));
    }
  }

  /** `packPlaybackRegion`: packing through the spans is packing flat and copying around the wrap. */
  method PackPlaybackRegion(ring: array<Byte>, r: Region, left: seq<int>, right: seq<int>, l: Layout,
                            ghost block: seq<seq<Byte>>)
    requires l.Legal() && FramesOf(block, left, right, l) && |block| == r.frames && r.frameStride == l.stride
    requires SpansFit(r, ring.Length)
    modifies ring
    ensures |Join(block)| == r.firstBytes + r.secondBytes
    ensures ring[..] == Spread(old(ring[..]), r.offset, r.firstBytes, Join(block))
  {
    var stride := r.frameStride;
    var firstFrames := r.firstBytes / stride;
    RegionCut(block, stride, r.firstBytes, r.secondBytes);
    var wholeBytes := firstFrames * stride;
    PackSpans(ring, r.offset, r.firstBytes, left, right, firstFrames, wholeBytes, l, block);
  }

  // ---- Unpacking in place ---------------------------------------------------------------

  /** Any stream of whole frames is the flat layout of its frames. */
  function Chop(stream: seq<Byte>, stride: nat): (frames: seq<seq<Byte>>)
    requires stride > 0
    decreases |stream|
  {
    if |stream| < stride then []
    else Chop(stream[..|stream| - stride], stride) + [stream[|stream| - stride..]]
  }

  lemma {:induction false} ChopJoins(stream: seq<Byte>, stride: nat)
    requires stride > 0 && |stream| % stride == 0
    ensures Join(Chop(stream, stride)) == stream && Uniform(Chop(stream, stride), stride)
    decreases |stream|
  {
    if |stream| >= stride {
      WholeProduct(1, stride);
      WholeDifference(|stream|, stride, stride);
      var front, last := stream[..|stream| - stride], stream[|stream| - stride..];
      ChopJoins(front, stride);
      assert Chop(stream, stride)[..|Chop(front, stride)|] == Chop(front, stride);
      assert front + last == stream;
    }
  }

  /** `unpackPcm`, to the integer sample. */
  method UnpackPcm(input: array<Byte>, at: nat, bits: nat) returns (sample: int)
    requires (bits == 16 || bits == 24 || bits == 32) && at + ValidBytes(bits) <= input.Length
    ensures sample == Decode(input[..], at, bits)
  {
    var raw := input[at] as int + 0x100 * input[at + 1] as int;
    if bits == 16 {
      sample := AsInt32(if raw >= 0x8000 then raw + 0xffff_0000 else raw);
    } else {
      raw := raw + 0x1_0000 * input[at + 2] as int;
      if bits == 24 {
        sample := AsInt32(if raw >= 0x80_0000 then raw + 0xff00_0000 else raw);
      } else {
        sample := AsInt32(raw + 0x100_0000 * input[at + 3] as int);
      }
    }
  }

  /** Frame `f` of a run, seen in the bytes that hold the run. */
  lemma PieceAt(s: seq<Byte>, at: nat, run: seq<seq<Byte>>, f: nat)
    requires f < |run| && at + |Join(run)| <= |s| && s[at..at + |Join(run)|] == Join(run)
    ensures var input := at + |Join(run[..f])|;
            input + |run[f]| <= at + |Join(run)| && s[input..input + |run[f]|] == run[f]
    ensures |Join(run[..f + 1])| == |Join(run[..f])| + |run[f]|
  {
    assert run[..f + 1][..f] == run[..f];
    JoinSplit(run, f);
    var a, b, c := Join(run[..f]), run[f], Join(run[f + 1..]);
    assert (a + b + c)[|a|..|a| + |b|] == b;
    SliceSlice(s, at, Join(run), |a|, |a| + |b|);
  }

  /** `unpackCaptureRun` for frames `from .. from + frames` of the stream. */
  method UnpackCaptureRun(source: array<Byte>, at: nat, frames: nat, frameStride: nat, sampleOffset: nat, bits: nat,
                          destination: array<int>, from: nat, ghost run: seq<seq<Byte>>)
    requires bits == 16 || bits == 24 || bits == 32
    requires |run| == frames && Uniform(run, frameStride) && sampleOffset + ValidBytes(bits) <= frameStride
    requires at + |Join(run)| <= source.Length && source[at..at + |Join(run)|] == Join(run)
    requires from + frames <= destination.Length
    modifies destination
    ensures forall f :: from <= f < from + frames ==> destination[f] == Decode(run[f - from], sampleOffset, bits)
    ensures forall f :: 0 <= f < destination.Length && !(from <= f < from + frames) ==> destination[f] == old(destination[f])
  {
    var input := at;
    for frame := 0 to frames
      invariant input == at + |Join(run[..frame])|
      invariant forall f :: from <= f < from + frame ==> destination[f] == Decode(run[f - from], sampleOffset, bits)
      invariant forall f :: 0 <= f < destination.Length && !(from <= f < from + frame) ==>
                  destination[f] == old(destination[f])
    {
      PieceAt(source[..], at, run, frame);
      ReadsFrame(source[..], input, run[frame], sampleOffset, bits);
      var sample := UnpackPcm(source, input + sampleOffset, bits);
      destination[from + frame] := sample;
      input := input + frameStride;
    }
  }

  lemma ReadsFrame(s: seq<Byte>, at: nat, frame: seq<Byte>, offset: nat, bits: nat)
    requires bits == 16 || bits == 24 || bits == 32
    requires at + |frame| <= |s| && s[at..at + |frame|] == frame && offset + ValidBytes(bits) <= |frame|
    ensures Decode(s, at + offset, bits) == Decode(frame, offset, bits)
  {
    assert s == s[..at] + frame + s[at + |frame|..];
    DecodeInside(s[..at], frame, s[at + |frame|..], offset, bits);
  }

  lemma StreamPrefix(s: seq<Byte>, offset: nat, first: nat, second: nat, block: seq<seq<Byte>>, k: nat)
    requires offset + first <= |s| && second <= |s| && Stream(s, offset, first, second) == Join(block)
    requires k <= |block| && |Join(block[..k])| <= first
    ensures offset + |Join(block[..k])| <= |s| && s[offset..offset + |Join(block[..k])|] == Join(block[..k])
  {
    JoinCut(block, k);
    var a, b := Join(block[..k]), Join(block[k..]);
    assert (a + b)[..|a|] == a;
    assert Stream(s, offset, first, second)[..|a|] == s[offset..offset + |a|];
  }

  /** The stream at a wrap inside frame `k`: the two pieces of that frame, and the frames behind it. */
  lemma StreamSplit(s: seq<Byte>, offset: nat, first: nat, second: nat, block: seq<seq<Byte>>, k: nat, split: nat)
    requires offset + first <= |s| && second <= |s| && Stream(s, offset, first, second) == Join(block)
    requires k < |block| && first == |Join(block[..k])| + split && split <= |block[k]|
    ensures |block[k]| - split + |Join(block[k + 1..])| == second
    ensures s[offset + first - split..offset + first] + s[..|block[k]| - split] == block[k]
    ensures s[|block[k]| - split..second] == Join(block[k + 1..])
  {
    JoinSplit(block, k);
    var a, f, b := Join(block[..k]), block[k], Join(block[k + 1..]);
    var t := Stream(s, offset, first, second);
    CutInside(a, f, b, split);
    assert t[..first] == s[offset..offset + first] && t[first..] == s[..second];
    assert s[offset + first - split..offset + first] == s[offset..offset + first][|a|..] == (a + f[..split])[|a|..] == f[..split];
    assert s[..|f| - split] == s[..second][..|f| - split] == (f[split..] + b)[..|f| - split] == f[split..];
    assert s[|f| - split..second] == s[..second][|f| - split..] == (f[split..] + b)[|f| - split..] == b;
  }

  /** The straddling frame of a capture region, reassembled in a scratch frame. */
  method Reassemble(ring: array<Byte>, at: nat, split: nat, frameStride: nat) returns (splitFrame: array<Byte>)
    requires split <= frameStride && at + split <= ring.Length && frameStride - split <= ring.Length
    ensures fresh(splitFrame) && splitFrame[..] == ring[at..at + split] + ring[..frameStride - split]
  {
    splitFrame := new Byte[frameStride](_ => 0);
    forall i | 0 <= i < split {
      splitFrame[i] := ring[at + i];
    }
    forall i | 0 <= i < frameStride - split {
      splitFrame[split + i] := ring[i];
    }
  }

  method UnpackStraddler(ring: array<Byte>, at: nat, split: nat, frameStride: nat, sampleOffset: nat, bits: nat,
                         destination: array<int>, k: nat, ghost frame: seq<Byte>)
    requires (bits == 16 || bits == 24 || bits == 32) && sampleOffset + ValidBytes(bits) <= frameStride == |frame|
    requires split <= frameStride && at + split <= ring.Length && frameStride - split <= ring.Length
    requires ring[..][at..at + split] + ring[..][..frameStride - split] == frame
    requires k < destination.Length
    modifies destination
    ensures destination[k] == Decode(frame, sampleOffset, bits)
    ensures forall f :: 0 <= f < destination.Length && f != k ==> destination[f] == old(destination[f])
  {
    var splitFrame := Reassemble(ring, at, split, frameStride);
    assert ring[at..at + split] == ring[..][at..at + split] && ring[..frameStride - split] == ring[..][..frameStride - split];
    destination[k] := UnpackPcm(splitFrame, sampleOffset, bits);
  }

  /** Frame `k` lies across the wrap, `split` bytes of it at `at`; the frames behind it end at `end`. */
  ghost predicate Straddles(s: seq<Byte>, at: nat, split: nat, end: nat, stride: nat, block: seq<seq<Byte>>, k: nat) {
    && k < |block| && |block[k]| == stride && split <= stride && at + split <= |s| && stride - split <= end <= |s|
    && s[at..at + split] + s[..stride - split] == block[k]
    && s[stride - split..end] == Join(block[k + 1..])
  }

  lemma SplitPieces(s: seq<Byte>, r: Region, block: seq<seq<Byte>>, k: nat, whole: nat, at: nat, split: nat)
    requires r.offset + r.firstBytes <= |s| && r.secondBytes <= |s|
    requires at == r.offset + whole && r.firstBytes == whole + split && split < r.frameStride
    requires Uniform(block, r.frameStride) && Stream(s, r.offset, r.firstBytes, r.secondBytes) == Join(block)
    requires k < |block| && |Join(block[..k])| == whole
    ensures Straddles(s, at, split, r.secondBytes, r.frameStride, block, k)
  {
    StreamSplit(s, r.offset, r.firstBytes, r.secondBytes, block, k, split);
    assert r.offset + r.firstBytes - split == at;
  }

  /** The straddling frame, and the frames asked for behind it. */
  method UnpackSplit(ring: array<Byte>, at: nat, split: nat, end: nat, frameStride: nat, sampleOffset: nat, bits: nat,
                     destination: array<int>, k: nat, frames: nat, ghost block: seq<seq<Byte>>)
    requires (bits == 16 || bits == 24 || bits == 32) && sampleOffset + ValidBytes(bits) <= frameStride
    requires Uniform(block, frameStride) && k < frames <= |block| && frames <= destination.Length
    requires Straddles(ring[..], at, split, end, frameStride, block, k)
    modifies destination
    ensures forall f :: k <= f < frames ==> destination[f] == Decode(block[f], sampleOffset, bits)
    ensures forall f :: 0 <= f < destination.Length && !(k <= f < frames) ==> destination[f] == old(destination[f])
  {
    assert ring[frameStride - split..end] == ring[..][frameStride - split..end];
    UnpackStraddler(ring, at, split, frameStride, sampleOffset, bits, destination, k, block[k]);
    UnpackTail(ring, frameStride - split, end, frameStride, sampleOffset, bits, destination, k + 1, frames, block);
  }

  /** The whole frames of the second span, as many as were asked for. */
  method UnpackTail(ring: array<Byte>, at: nat, end: nat, frameStride: nat, sampleOffset: nat, bits: nat,
                    destination: array<int>, from: nat, frames: nat, ghost block: seq<seq<Byte>>)
    requires (bits == 16 || bits == 24 || bits == 32) && sampleOffset + ValidBytes(bits) <= frameStride
    requires Uniform(block, frameStride) && from <= frames <= |block| && frames <= destination.Length
    requires at <= end <= ring.Length && ring[at..end] == Join(block[from..])
    modifies destination
    ensures forall f :: from <= f < frames ==> destination[f] == Decode(block[f], sampleOffset, bits)
    ensures forall f :: 0 <= f < destination.Length && !(from <= f < frames) ==> destination[f] == old(destination[f])
  {
    ghost var tail := block[from..];
    ghost var run := tail[..frames - from];
    JoinCut(tail, frames - from);
    assert ring[at..at + |Join(run)|] == ring[at..end][..|Join(run)|] == Join(run);
    UnpackCaptureRun(ring, at, frames - from, frameStride, sampleOffset, bits, destination, from, run);
  }

  /** `unpackCaptureChannel`: unpacking through the spans is unpacking the flat stream. */
  method UnpackCaptureChannel(ring: array<Byte>, r: Region, sampleOffset: nat, bits: nat, destination: array<int>, frames: nat,
                              ghost block: seq<seq<Byte>>)
    requires (bits == 16 || bits == 24 || bits == 32) && sampleOffset + ValidBytes(bits) <= r.frameStride
    requires SpansFit(r, ring.Length) && frames <= r.frames && frames <= destination.Length
    requires |block| == r.frames && Uniform(block, r.frameStride)
    requires Join(block) == Stream(ring[..], r.offset, r.firstBytes, r.secondBytes)
    modifies destination
    ensures forall f :: 0 <= f < frames ==> destination[f] == Decode(block[f], sampleOffset, bits)
    ensures forall f :: frames <= f < destination.Length ==> destination[f] == old(destination[f])
  {
    var stride := r.frameStride;
    RegionCut(block, stride, r.firstBytes, r.secondBytes);
    var wholeFrames := r.firstBytes / stride;
    var wholeBytes := wholeFrames * stride;
    UnpackSpans(ring, r, wholeFrames, wholeBytes, sampleOffset, bits, destination, frames, block);
  }

  /** The leading frames of the stream, up to the wrap. */
  method UnpackLeading(ring: array<Byte>, at: nat, n: nat, frameStride: nat, sampleOffset: nat, bits: nat,
                       destination: array<int>, ghost block: seq<seq<Byte>>)
    requires (bits == 16 || bits == 24 || bits == 32) && sampleOffset + ValidBytes(bits) <= frameStride
    requires Uniform(block, frameStride) && n <= |block| && n <= destination.Length
    requires at + |Join(block[..n])| <= ring.Length && ring[..][at..at + |Join(block[..n])|] == Join(block[..n])
    modifies destination
    ensures forall f :: 0 <= f < n ==> destination[f] == Decode(block[f], sampleOffset, bits)
    ensures forall f :: n <= f < destination.Length ==> destination[f] == old(destination[f])
  {
    ghost var run := block[..n];
    assert ring[at..at + |Join(run)|] == ring[..][at..at + |Join(run)|];
    UnpackCaptureRun(ring, at, n, frameStride, sampleOffset, bits, destination, 0, run);
  }

  method UnpackSpans(ring: array<Byte>, r: Region, k: nat, whole: nat, sampleOffset: nat, bits: nat,
                     destination: array<int>, frames: nat, ghost block: seq<seq<Byte>>)
    requires (bits == 16 || bits == 24 || bits == 32) && sampleOffset + ValidBytes(bits) <= r.frameStride
    requires r.offset + r.firstBytes <= ring.Length && r.secondBytes <= ring.Length
    requires Uniform(block, r.frameStride) && Stream(ring[..], r.offset, r.firstBytes, r.secondBytes) == Join(block)
    requires k <= |block| && frames <= |block| && frames <= destination.Length
    requires |Join(block[..k])| == whole <= r.firstBytes < whole + r.frameStride
    modifies destination
    ensures forall f :: 0 <= f < frames ==> destination[f] == Decode(block[f], sampleOffset, bits)
    ensures forall f :: frames <= f < destination.Length ==> destination[f] == old(destination[f])
  {
    var firstFrames := Min(frames, k);
    FirstRun(ring[..], r, block, k, firstFrames);
    UnpackLeading(ring, r.offset, firstFrames, r.frameStride, sampleOffset, bits, destination, block);
    if firstFrames < frames {
      UnpackRest(ring, r, k, whole, sampleOffset, bits, destination, frames, block);
    }
  }

  /** The frames `unpackCaptureChannel` sees in a region always exist: its bytes chopped at the stride. */
  lemma ChopRegion(s: seq<Byte>, r: Region, block: seq<seq<Byte>>)
    requires r.frameStride > 0 && SpansFit(r, |s|)
    requires block == Chop(Stream(s, r.offset, r.firstBytes, r.secondBytes), r.frameStride)
    ensures |block| == r.frames && Uniform(block, r.frameStride)
    ensures Join(block) == Stream(s, r.offset, r.firstBytes, r.secondBytes)
  {
    WholeProduct(r.frames, r.frameStride);
    ChopJoins(Stream(s, r.offset, r.firstBytes, r.secondBytes), r.frameStride);
    JoinLength(block, r.frameStride);
    WholeProduct(|block|, r.frameStride);
  }

  lemma FirstRun(s: seq<Byte>, r: Region, block: seq<seq<Byte>>, k: nat, n: nat)
    requires r.offset + r.firstBytes <= |s| && r.secondBytes <= |s|
    requires Stream(s, r.offset, r.firstBytes, r.secondBytes) == Join(block)
    requires n <= k <= |block| && |Join(block[..k])| <= r.firstBytes
    ensures r.offset + |Join(block[..n])| <= |s|
    ensures s[r.offset..r.offset + |Join(block[..n])|] == Join(block[..n])
  {
    JoinCut(block[..k], n);
    assert block[..k][..n] == block[..n];
    StreamPrefix(s, r.offset, r.firstBytes, r.secondBytes, block, n);
  }

  method UnpackRest(ring: array<Byte>, r: Region, k: nat, whole: nat, sampleOffset: nat, bits: nat,
                    destination: array<int>, frames: nat, ghost block: seq<seq<Byte>>)
    requires (bits == 16 || bits == 24 || bits == 32) && sampleOffset + ValidBytes(bits) <= r.frameStride
    requires r.offset + r.firstBytes <= ring.Length && r.secondBytes <= ring.Length
    requires Uniform(block, r.frameStride) && Stream(ring[..], r.offset, r.firstBytes, r.secondBytes) == Join(block)
    requires k < frames <= |block| && frames <= destination.Length
    requires |Join(block[..k])| == whole <= r.firstBytes < whole + r.frameStride
    modifies destination
    ensures forall f :: k <= f < frames ==> destination[f] == Decode(block[f], sampleOffset, bits)
    ensures forall f :: 0 <= f < destination.Length && !(k <= f < frames) ==> destination[f] == old(destination[f])
  {
    if whole < r.firstBytes {
      var at, split := r.offset + whole, r.firstBytes - whole;
      SplitPieces(ring[..], r, block, k, whole, at, split);
      UnpackSplit(ring, at, split, r.secondBytes, r.frameStride, sampleOffset, bits, destination, k, frames, block);
    } else {
      JoinCut(block, k);
      assert Stream(ring[..], r.offset, r.firstBytes, r.secondBytes)[whole..] == ring[0..r.secondBytes];
      UnpackTail(ring, 0, r.secondBytes, r.frameStride, sampleOffset, bits, destination, k, frames, block);
    }
  }

  // ---- A quantum through the ring ---------------------------------------------------------

  /** The block a stereo quantum lays out. */
  function QuantumFrames(left: seq<int>, right: seq<int>, l: Layout): (frames: seq<seq<Byte>>)
    requires l.Legal() && |left| == |right|
    ensures FramesOf(frames, left, right, l)
  {
    seq(|left|, i requires 0 <= i < |left| => Frame(left[i], right[i], l))
  }

  const MAX_FRAMES_PER_WRITE: nat := 1024

  lemma PackedBehind(before: seq<Byte>, after: seq<Byte>, tail: nat, head: nat, r: Region, bytes: seq<Byte>)
    requires 0 < |before| && tail <= head && head + |bytes| <= tail + |before|
    requires r.offset == head % |before| && r.firstBytes == Min(|bytes|, |before| - r.offset)
    requires after == Spread(before, r.offset, r.firstBytes, bytes)
    ensures |after| == |before| && Window(after, head, |bytes|) == bytes
    ensures Window(after, tail, head - tail) == Window(before, tail, head - tail)
  {
    SpreadWindow(before, head, bytes);
    SpreadKeeps(before, tail, head, bytes);
  }

  /** Packing into a reserved region: the stream behind the head becomes the quantum, the queue stays as it was. */
  method PackReserved(ring: ByteRing, region: Region, left: seq<int>, right: seq<int>, l: Layout)
    requires ring.Valid() && ring.Reserved(region) && l.Legal()
    requires |left| == |right| == region.frames && region.frameStride == l.stride
    modifies ring.data
    ensures ring.Contents() == old(ring.Contents())
    ensures Window(ring.data[..], region.cursor, region.frames * region.frameStride) == Join(QuantumFrames(left, right, l))
  {
    ghost var before, block := ring.data[..], QuantumFrames(left, right, l);
    SpansOf(ring.data.Length, ring.head, region);
    PackPlaybackRegion(ring.data, region, left, right, l, block);
    PackedBehind(before, ring.data[..], ring.tail, ring.head, region, Join(block));
  }

  /**
   * The round trip through ring storage: pack a quantum across whatever wrap, read the region's bytes back
   * in stream order, and either channel of every frame is the sample that went in.
   */
  lemma RegionRoundTrip(s: seq<Byte>, r: Region, left: seq<int>, right: seq<int>, l: Layout, f: nat)
    requires l.Legal() && f < |left| == |right| == r.frames && r.frameStride == l.stride && SpansFit(r, |s|)
    requires InRange(left[f], l.bits) && InRange(right[f], l.bits)
    ensures var block := Join(QuantumFrames(left, right, l));
            && |block| == r.firstBytes + r.secondBytes
            && var stream := Stream(Spread(s, r.offset, r.firstBytes, block), r.offset, r.firstBytes, r.secondBytes);
            && f < |stream| / l.stride
            && FrameSample(stream, f, l.stride, SampleOffset(l, false), l.bits) == left[f]
            && FrameSample(stream, f, l.stride, SampleOffset(l, true), l.bits) == right[f]
  {
    var frames := QuantumFrames(left, right, l);
    var block := Join(frames);
    JoinLength(frames, l.stride);
    BlockRoundTrip(left, right, l, frames, f);
    StreamOfSpread(s, r.offset, r.firstBytes, block);
  }
}
