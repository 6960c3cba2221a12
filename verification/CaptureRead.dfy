/** `readInputChannels`: one whole quantum of every capture channel, or nothing. */
module CaptureRead {
  import opened Core
  import opened PlaybackRing
  import opened Spans
  import opened PcmFormat
  import opened PcmPacking
  import opened CaptureStream
  import opened CaptureRing

  const MAX_FRAMES_PER_READ: nat := 1024

  /** The negotiated capture format. */
  datatype Format = Format(bits: nat, bytes: nat, channels: nat) {
    predicate Legal(stride: nat) {
      && (bits == 16 || bits == 24 || bits == 32)
      && ValidBytes(bits) <= bytes <= 4 && channels > 0 && stride == channels * bytes
    }

    /** Where the valid bytes of a channel lie inside a frame. */
    function Offset(channel: nat): nat
      requires ValidBytes(bits) <= bytes
    {
      channel * bytes + (bytes - ValidBytes(bits))
    }
  }

  lemma ChannelInside(format: Format, channel: nat, stride: nat)
    requires format.Legal(stride) && channel < format.channels
    ensures format.Offset(channel) + ValidBytes(format.bits) <= stride
  {
    assert (format.channels - channel - 1) * format.bytes >= 0;
  }

  /** `destination` holds the channel at `offset` of the first `n` frames. */
  ghost predicate Decoded(destination: array<int>, frames: seq<seq<Byte>>, offset: nat, bits: nat, n: nat, stride: nat)
    requires bits == 16 || bits == 24 || bits == 32
    requires Uniform(frames, stride) && offset + ValidBytes(bits) <= stride
    reads destination
  {
    && n <= |frames| && n <= destination.Length
    && forall f :: 0 <= f < n ==> destination[f] == Decode(frames[f], offset, bits)
  }

  ghost predicate Zeroed(destination: array<int>, n: nat)
    reads destination
  {
    n <= destination.Length && forall f :: 0 <= f < n ==> destination[f] == 0
  }

  /** Every destination plane: its channel if the format has one, silence if not. */
  ghost predicate Planes(destinations: seq<array<int>>, from: nat, to: nat, format: Format,
                         frames: seq<seq<Byte>>, n: nat, stride: nat)
    requires format.Legal(stride) && Uniform(frames, stride) && from <= to <= |destinations|
    reads destinations
  {
    forall c :: from <= c < to ==>
      if c < format.channels
      then (ChannelInside(format, c, stride); Decoded(destinations[c], frames, format.Offset(c), format.bits, n, stride))
      else Zeroed(destinations[c], n)
  }

  ghost predicate Apart(destinations: seq<array<int>>, n: nat) {
    && (forall i, j :: 0 <= i < j < |destinations| ==> destinations[i] != destinations[j])
    && forall i :: 0 <= i < |destinations| ==> destinations[i].Length >= n
  }

  method FillPlane(destination: array<int>, n: nat)
    requires n <= destination.Length
    modifies destination
    ensures Zeroed(destination, n)
  {
    forall f | 0 <= f < n {
      destination[f] := 0;
    }
  }

  /** Planes the format has no channel for. */
  method SilencePlanes(destinations: seq<array<int>>, from: nat, n: nat)
    requires Apart(destinations, n) && from <= |destinations|
    modifies destinations
    ensures forall c :: from <= c < |destinations| ==> Zeroed(destinations[c], n)
  {
    for c := from to |destinations|
      invariant forall d :: from <= d < c ==> Zeroed(destinations[d], n)
    {
      FillPlane(destinations[c], n);
    }
  }

  /** One channel of the region. */
  method DecodePlane(data: array<Byte>, region: Region, destination: array<int>, c: nat, format: Format,
                     ghost frames: seq<seq<Byte>>)
    requires format.Legal(region.frameStride) && SpansFit(region, data.Length) && c < format.channels
    requires |frames| == region.frames && Uniform(frames, region.frameStride) && region.frames <= destination.Length
    requires Join(frames) == Stream(data[..], region.offset, region.firstBytes, region.secondBytes)
    modifies destination
    ensures format.Offset(c) + ValidBytes(format.bits) <= region.frameStride
    ensures Decoded(destination, frames, format.Offset(c), format.bits, region.frames, region.frameStride)
  {
    ChannelInside(format, c, region.frameStride);
    UnpackCaptureChannel(data, region, format.Offset(c), format.bits, destination, region.frames, frames);
  }

  /** The two channel loops over a reserved region. */
  method DecodePlanes(data: array<Byte>, region: Region, destinations: seq<array<int>>, format: Format,
                      ghost frames: seq<seq<Byte>>)
    requires format.Legal(region.frameStride) && SpansFit(region, data.Length)
    requires |frames| == region.frames && Uniform(frames, region.frameStride)
    requires Join(frames) == Stream(data[..], region.offset, region.firstBytes, region.secondBytes)
    requires Apart(destinations, region.frames)
    modifies destinations
    ensures Planes(destinations, 0, |destinations|, format, frames, region.frames, region.frameStride)
  {
    var decodeChannels := Min(|destinations|, format.channels);
    SilencePlanes(destinations, decodeChannels, region.frames);
    for c := 0 to decodeChannels
      invariant data[..] == old(data[..])
      invariant Planes(destinations, 0, c, format, frames, region.frames, region.frameStride)
      invariant forall d :: decodeChannels <= d < |destinations| ==> Zeroed(destinations[d], region.frames)
    {
      assert forall d :: 0 <= d < |destinations| && d != c ==> destinations[d] != destinations[c];
      DecodePlane(data, region, destinations[c], c, format, frames);
    }
  }

  /** The frames of the slice of the admitted stream that a read of `frames` reserves. */
  function ReadFrames(s: State, frames: int, limit: nat): (read: seq<seq<Byte>>)
    requires Inv(s)
  {
    var r := Reserve(s, frames, limit);
    ReserveBytes(s, frames, limit);
    Chop(s.written[r.cursor..r.cursor + r.firstBytes + r.secondBytes], s.stride)
  }

  lemma ReservedFrames(s: State, r: Region, read: seq<seq<Byte>>)
    requires Inv(s) && s.region == r && r.frames > 0 && r.cursor + r.firstBytes + r.secondBytes <= |s.written|
    requires read == Chop(s.written[r.cursor..r.cursor + r.firstBytes + r.secondBytes], s.stride)
    ensures SpansFit(r, |s.ring|) && r.frameStride == s.stride
    ensures |read| == r.frames && Uniform(read, s.stride)
    ensures Join(read) == Stream(s.ring, r.offset, r.firstBytes, r.secondBytes)
  {
    RegionIsStream(s, r);
    ChopRegion(s.ring, r, read);
  }

  /** What a reserved region holds, seen as frames. */
  lemma RegionFrames(s: State, data: seq<Byte>, frames: int, limit: nat, r: Region, read: seq<seq<Byte>>)
    requires Inv(s) && data == s.ring && r == Reserve(s, frames, limit) && r.frames > 0
    requires read == ReadFrames(s, frames, limit)
    ensures SpansFit(r, |data|) && r.frameStride == s.stride
    ensures |read| == r.frames && Uniform(read, s.stride)
    ensures Join(read) == Stream(data, r.offset, r.firstBytes, r.secondBytes)
  {
    ReserveKeeps(s, frames, limit);
    ReserveBytes(s, frames, limit);
    ReservedFrames(s.(region := r), r, read);
  }

  /**
   * A whole quantum of every plane, decoded from the oldest untrimmed frames of the admitted stream; or
   * zero, with every plane as it was. Either way what was reserved is released.
   */
  method ReadInputChannels(ring: Ring, destinations: seq<array<int>>, frames: int, limit: nat, format: Format)
      returns (n: nat)
    requires ring.Mirrors() && Inv(ring.spec) && ring.spec.region == NO_REGION && format.Legal(ring.stride)
    requires frames > 0 ==> Apart(destinations, Min(frames, MAX_FRAMES_PER_READ))
    modifies ring`tail, ring`spec, destinations
    ensures ring.Mirrors()
    ensures frames <= 0 || destinations == [] ==> n == 0 && ring.spec == old(ring.spec)
    ensures frames > 0 && destinations != [] ==>
      var asked := Min(frames, MAX_FRAMES_PER_READ);
      && ring.spec == Next(Next(old(ring.spec), Prepare(asked, limit)), Commit)
      && n == (if Reserve(old(ring.spec), asked, limit).frames == asked then asked else 0)
    ensures n == 0 ==> forall c :: 0 <= c < |destinations| ==> destinations[c][..] == old(destinations[c][..])
    ensures n > 0 ==>
      var read := ReadFrames(old(ring.spec), n, limit);
      && |read| == n && Uniform(read, ring.stride)
      && Planes(destinations, 0, |destinations|, format, read, n, ring.stride)
  {
    if destinations == [] || frames <= 0 {
      return 0;
    }
    var asked := Min(frames, MAX_FRAMES_PER_READ);
    ghost var before := ring.spec;
    StepKeeps(before, Prepare(asked, limit));
    var region := ring.PrepareRead(asked, limit);
    if region.frames < asked {
      ring.CommitRead(region);
      return 0;
    }
    DecodeRegion(ring, destinations, asked, limit, format, region, before);
    ring.CommitRead(region);
    n := asked;
  }

  /** The decode between reservation and release. */
  method DecodeRegion(ring: Ring, destinations: seq<array<int>>, asked: nat, limit: nat, format: Format, region: Region,
                      ghost before: State)
    requires ring.Mirrors() && Inv(before) && format.Legal(ring.stride) && before.stride == ring.stride
    requires ring.spec == Next(before, Prepare(asked, limit)) && before.region == NO_REGION
    requires region == Reserve(before, asked, limit) && 0 < asked == region.frames && Apart(destinations, asked)
    modifies destinations
    ensures ring.Mirrors()
    ensures var read := ReadFrames(before, asked, limit);
            && |read| == asked && Uniform(read, ring.stride)
            && Planes(destinations, 0, |destinations|, format, read, asked, ring.stride)
  {
    ghost var read := ReadFrames(before, asked, limit);
    RegionFrames(before, ring.data[..], asked, limit, region, read);
    DecodePlanes(ring.data, region, destinations, format, read);
  }

  /**
   * A reader that waited for `frames` and then reads as many is never served short, however many
   * completions land in between, so no capture frame is dropped by a partial read.
   */
  lemma WaitedReadIsWhole(s: State, steps: seq<Step>, frames: nat, limit: nat)
    requires Inv(s) && 0 < frames <= MAX_FRAMES_PER_READ && Available(s, limit) >= frames
    requires forall k :: 0 <= k < |steps| ==> Callback(steps[k])
    ensures var t := Run(s, steps);
            && Inv(t) && Reserve(t, Min(frames, MAX_FRAMES_PER_READ), limit).frames == frames
            && |ReadFrames(t, frames, limit)| == frames
  {
    AvailableDelivers(s, steps, frames, limit);
    var t := Run(s, steps);
    RegionFrames(t, t.ring, frames, limit, Reserve(t, frames, limit), ReadFrames(t, frames, limit));
  }

  /**
   * Loopback: when the slice a read reserves is what packing a quantum laid out, the planes of the pair
   * decode to the quantum that was packed.
   */
  lemma LoopbackReturnsTheQuantum(left: seq<int>, right: seq<int>, bits: nat, bytes: nat, channels: nat, pair: nat,
                                  stream: seq<Byte>, f: nat)
    requires (bits == 16 || bits == 24 || bits == 32) && ValidBytes(bits) <= bytes <= 4 && pair * 2 + 1 < channels
    requires f < |left| == |right| && InRange(left[f], bits) && InRange(right[f], bits)
    requires stream == Join(QuantumFrames(left, right, PairLayout(bits, bytes, channels, pair)))
    ensures var format := Format(bits, bytes, channels); var stride := channels * bytes;
            && stride > 0 && f < |stream| / stride
            && format.Legal(stride)
            && (ChannelInside(format, pair * 2, stride);
                FrameSample(stream, f, stride, format.Offset(pair * 2), bits) == left[f])
            && (ChannelInside(format, pair * 2 + 1, stride);
                FrameSample(stream, f, stride, format.Offset(pair * 2 + 1), bits) == right[f])
  {
    var l := PairLayout(bits, bytes, channels, pair);
    BlockRoundTrip(left, right, l, QuantumFrames(left, right, l), f);
    var format := Format(bits, bytes, channels);
    assert format.Offset(pair * 2) == SampleOffset(l, false);
    assert format.Offset(pair * 2 + 1) == SampleOffset(l, true) by {
      assert (pair * 2 + 1) * bytes == pair * 2 * bytes + bytes;
    }
  }
}
