/**
 * PCM subslots: left-justified little-endian samples, frames of several channels, and the flat
 * layout of a block of frames, which is the reference the packers are proved against.
 */
module PcmFormat {
  import opened Core
  import opened PlaybackRing

  const WORD: nat := 0x1_0000_0000

  function ValidBytes(bits: nat): nat {
    (bits + 7) / 8
  }

  /** A session's fixed format: valid bits, subslot bytes, frame stride and the offset of the stereo pair in it. */
  datatype Layout = Layout(bits: nat, bytes: nat, channels: nat, stride: nat, left: nat) {
    predicate Legal() {
      && (bits == 16 || bits == 24 || bits == 32)
      && ValidBytes(bits) <= bytes <= 4
      && left + 2 * bytes <= stride
      && (channels == 2 ==> left == 0 && stride == 2 * bytes)
    }
  }

  /** The layout of an output pair on a device. */
  function PairLayout(bits: nat, bytes: nat, channels: nat, pair: nat): (l: Layout)
    requires (bits == 16 || bits == 24 || bits == 32) && ValidBytes(bits) <= bytes <= 4 && pair * 2 + 1 < channels
    ensures l.Legal()
  {
    PairInside(bytes, channels, pair);
    Layout(bits, bytes, channels, channels * bytes, pair * 2 * bytes)
  }

  lemma PairInside(bytes: nat, channels: nat, pair: nat)
    requires pair * 2 + 1 < channels
    ensures pair * 2 * bytes + 2 * bytes <= channels * bytes
    ensures channels == 2 ==> pair * 2 * bytes == 0 && channels * bytes == 2 * bytes
  {
    assert (channels - 2 - pair * 2) * bytes >= 0;
    assert channels == 2 ==> pair == 0;
  }

  predicate InRange(sample: int, bits: nat) {
    match bits
    case 16 => -0x8000 <= sample < 0x8000
    case 24 => -0x80_0000 <= sample < 0x80_0000
    case _ => -0x8000_0000 <= sample < 0x8000_0000
  }

  // ---- Reference: one subslot, one frame, a block of frames ------------------------------

  function Pow256(n: nat): (p: nat)
    ensures p > 0
  {
    match n
    case 0 => 1
    case 1 => 0x100
    case 2 => 0x1_0000
    case 3 => 0x100_0000
    case _ => 0x1_0000_0000
  }

  /** Byte `k` of a word, least significant first: the word shifted right by `8 * k`, truncated. */
  function Digit(word: nat, k: nat): Byte {
    if k == 0 then word % 256 else Digit(word / 256, k - 1)
  }

  /** The left-justified 32-bit subslot word: unsigned wrap of the sample, then an unsigned shift. */
  function SubslotWord(sample: int, bits: nat, bytes: nat): nat
    requires ValidBytes(bits) <= bytes
  {
    sample % WORD * Pow256(bytes - ValidBytes(bits)) % WORD
  }

  function Subslot(sample: int, bits: nat, bytes: nat): (s: seq<Byte>)
    requires ValidBytes(bits) <= bytes
    ensures |s| == bytes
  {
    seq(bytes, k requires 0 <= k < bytes => Digit(SubslotWord(sample, bits, bytes), k))
  }

  function Zeros(n: nat): (s: seq<Byte>)
    ensures |s| == n && forall k :: 0 <= k < n ==> s[k] == 0
  {
    seq(n, _ => 0)
  }

  function Frame(left: int, right: int, l: Layout): (s: seq<Byte>)
    requires l.Legal()
    ensures |s| == l.stride
  {
    Zeros(l.left) + (Subslot(left, l.bits, l.bytes) + Subslot(right, l.bits, l.bytes))
    + Zeros(l.stride - l.left - 2 * l.bytes)
  }

  /** A block of frames laid out flat, one after the other. */
  function Join(frames: seq<seq<Byte>>): seq<Byte> {
    if frames == [] then [] else Join(frames[..|frames| - 1]) + frames[|frames| - 1]
  }

  ghost predicate FramesOf(frames: seq<seq<Byte>>, left: seq<int>, right: seq<int>, l: Layout)
    requires l.Legal()
  {
    && |frames| == |left| == |right|
    && forall i :: 0 <= i < |frames| ==> frames[i] == Frame(left[i], right[i], l)
  }

  ghost predicate Uniform(frames: seq<seq<Byte>>, stride: nat) {
    forall i :: 0 <= i < |frames| ==> |frames[i]| == stride
  }

  lemma {:induction false} JoinLength(frames: seq<seq<Byte>>, stride: nat)
    requires Uniform(frames, stride)
    ensures |Join(frames)| == |frames| * stride
  {
    if frames != [] {
      JoinLength(frames[..|frames| - 1], stride);
      NextMultiple(|frames| - 1, stride);
    }
  }

  lemma NextMultiple(n: nat, stride: nat)
    ensures (n + 1) * stride == n * stride + stride
  {
  }

  lemma {:induction false} JoinConcat(a: seq<seq<Byte>>, b: seq<seq<Byte>>)
    ensures Join(a + b) == Join(a) + Join(b)
  {
    if b == [] {
      assert a + b == a;
    } else {
      var n := |b| - 1;
      JoinConcat(a, b[..n]);
      assert (a + b)[..|a| + n] == a + b[..n];
    }
  }

  lemma JoinCut(frames: seq<seq<Byte>>, k: nat)
    requires k <= |frames|
    ensures Join(frames) == Join(frames[..k]) + Join(frames[k..])
  {
    JoinConcat(frames[..k], frames[k..]);
    assert frames[..k] + frames[k..] == frames;
  }

  /** The block cut at one of its frames: everything before it, the frame, everything after it. */
  lemma JoinSplit(frames: seq<seq<Byte>>, k: nat)
    requires k < |frames|
    ensures Join(frames) == Join(frames[..k]) + frames[k] + Join(frames[k + 1..])
    ensures |Join(frames)| == |Join(frames[..k])| + |frames[k]| + |Join(frames[k + 1..])|
  {
    JoinCut(frames, k + 1);
    assert frames[..k + 1][..k] == frames[..k];
  }

  /** Sign extension of the subslot's valid bytes, in 32-bit arithmetic. */
  function Decode(s: seq<Byte>, at: nat, bits: nat): int
    requires at + ValidBytes(bits) <= |s| && (bits == 16 || bits == 24 || bits == 32)
  {
    match bits
    case 16 =>
      var raw: int := s[at] as int + 0x100 * s[at + 1] as int;
      AsInt32(if raw >= 0x8000 then raw + 0xffff_0000 else raw)
    case 24 =>
      var raw: int := s[at] as int + 0x100 * s[at + 1] as int + 0x1_0000 * s[at + 2] as int;
      AsInt32(if raw >= 0x80_0000 then raw + 0xff00_0000 else raw)
    case _ =>
      AsInt32(s[at] as int + 0x100 * s[at + 1] as int + 0x1_0000 * s[at + 2] as int + 0x100_0000 * s[at + 3] as int)
  }

  function AsInt32(word: int): int {
    if word >= 0x8000_0000 then word - WORD else word
  }

  /** Sample `f` of the channel at `offset` within each frame of a byte stream. */
  function FrameSample(stream: seq<Byte>, f: nat, stride: nat, offset: nat, bits: nat): int
    requires stride > 0 && offset + ValidBytes(bits) <= stride && f < |stream| / stride
    requires bits == 16 || bits == 24 || bits == 32
  {
    FitsPhysically(f + 1, |stream|, stride);
    Decode(stream, f * stride + offset, bits)
  }

  // ---- Round trip -----------------------------------------------------------------------

  lemma DropHigh(x: nat, q: nat, n: nat, k: nat)
    requires k < n <= 3
    ensures Digit(x + q * Pow256(n), k) == Digit(x, k)
  {
    var y := q * Pow256(n - 1);
    ScalePower(q, n);
    ByteCarry(x, y);
    if k > 0 {
      DropHigh(x / 256, q, n - 1, k - 1);
    }
  }

  lemma ScalePower(q: nat, n: nat)
    requires 0 < n <= 3
    ensures q * Pow256(n) == q * Pow256(n - 1) * 256
  {
    if n == 1 {
      assert Pow256(1) == 256 && Pow256(0) == 1;
    } else if n == 2 {
      assert Pow256(2) == 0x1_0000 && Pow256(1) == 0x100;
    } else {
      assert Pow256(3) == 0x100_0000 && Pow256(2) == 0x1_0000;
    }
  }

  lemma ByteCarry(x: nat, y: nat)
    ensures (x + y * 256) / 256 == x / 256 + y && (x + y * 256) % 256 == x % 256
  {
  }

  lemma ShiftOnce(x: nat, k: nat)
    ensures Digit(x * 0x100, k + 1) == Digit(x, k)
  {
    assert x * 0x100 / 256 == x;
  }

  lemma ScaleOnce(u: nat)
    ensures u * 0x100 % WORD == u % 0x100_0000 * 0x100
    ensures u == u % 0x100_0000 + u / 0x100_0000 * 0x100_0000
  {
  }

  lemma ScaleTwice(u: nat)
    ensures u * 0x1_0000 % WORD == u % 0x1_0000 * 0x1_0000
    ensures u == u % 0x1_0000 + u / 0x1_0000 * 0x1_0000
  {
  }

  /** Left-justifying by whole bytes moves every digit up unchanged. */
  lemma DigitShift(u: nat, s: nat, k: nat)
    requires u < WORD && s + k <= 3 && s <= 2
    ensures Digit(u * Pow256(s) % WORD, k + s) == Digit(u, k)
  {
    if s == 1 {
      ScaleOnce(u);
      ShiftOnce(u % 0x100_0000, k);
      DropHigh(u % 0x100_0000, u / 0x100_0000, 3, k);
    } else if s == 2 {
      ScaleTwice(u);
      var m := u % 0x1_0000;
      ShiftOnce(m, k);
      ShiftOnce(m * 0x100, k + 1);
      DropHigh(m, u / 0x1_0000, 2, k);
    }
  }

  function Low16(u: nat): int {
    Digit(u, 0) as int + 0x100 * Digit(u, 1) as int
  }

  function Low24(u: nat): int {
    Low16(u) + 0x1_0000 * Digit(u, 2) as int
  }

  function Low32(u: nat): int {
    Low24(u) + 0x100_0000 * Digit(u, 3) as int
  }

  lemma Digits16(u: nat)
    ensures Low16(u) == u % 0x1_0000
  {
    assert Digit(u, 1) == Digit(u / 256, 0);
  }

  lemma Digits24(u: nat)
    ensures Low24(u) == u % 0x100_0000
  {
    Digits16(u / 256);
    assert Digit(u, 1) == Digit(u / 256, 0) && Digit(u, 2) == Digit(u / 256, 1);
  }

  lemma Digits32(u: nat)
    requires u < WORD
    ensures Low32(u) == u
  {
    Digits24(u / 256);
    assert Digit(u, 1) == Digit(u / 256, 0) && Digit(u, 2) == Digit(u / 256, 1) && Digit(u, 3) == Digit(u / 256, 2);
  }

  /** Reading the valid bytes of a subslot gives back the sample that was left-justified into it. */
  lemma SubslotRoundTrip(sample: int, bits: nat, bytes: nat)
    requires (bits == 16 || bits == 24 || bits == 32) && ValidBytes(bits) <= bytes <= 4 && InRange(sample, bits)
    ensures Decode(Subslot(sample, bits, bytes), bytes - ValidBytes(bits), bits) == sample
  {
    match bits
    case 16 => RoundTrip16(sample, bytes);
    case 24 => RoundTrip24(sample, bytes);
    case _ => RoundTrip32(sample);
  }

  lemma RoundTrip32(sample: int)
    requires InRange(sample, 32)
    ensures Decode(Subslot(sample, 32, 4), 0, 32) == sample
  {
    var u := sample % WORD;
    WholeWord(sample);
    Decode32(Subslot(sample, 32, 4), u);
    Digits32(u);
    Unwrap(sample);
  }

  lemma WholeWord(sample: int)
    ensures SubslotWord(sample, 32, 4) == sample % WORD
  {
    assert ValidBytes(32) == 4 && Pow256(0) == 1;
  }

  lemma Unwrap(sample: int)
    requires InRange(sample, 32)
    ensures AsInt32(sample % WORD) == sample
  {
  }

  lemma Decode32(s: seq<Byte>, u: nat)
    requires |s| == 4 && forall k :: 0 <= k < 4 ==> s[k] == Digit(u, k)
    ensures Decode(s, 0, 32) == AsInt32(Low32(u))
  {
    assert s[0] == Digit(u, 0) && s[1] == Digit(u, 1) && s[2] == Digit(u, 2) && s[3] == Digit(u, 3);
  }

  lemma RoundTrip16(sample: int, bytes: nat)
    requires 2 <= bytes <= 4 && InRange(sample, 16)
    ensures Decode(Subslot(sample, 16, bytes), bytes - 2, 16) == sample
  {
    var u, s := sample % WORD, bytes - 2;
    DigitShift(u, s, 0);
    DigitShift(u, s, 1);
    Digits16(u);
    SignExtend16(sample);
  }

  lemma RoundTrip24(sample: int, bytes: nat)
    requires 3 <= bytes <= 4 && InRange(sample, 24)
    ensures Decode(Subslot(sample, 24, bytes), bytes - 3, 24) == sample
  {
    var u, s := sample % WORD, bytes - 3;
    DigitShift(u, s, 0);
    DigitShift(u, s, 1);
    DigitShift(u, s, 2);
    Digits24(u);
    SignExtend24(sample);
  }

  lemma SignExtend16(sample: int)
    requires InRange(sample, 16)
    ensures var raw := sample % WORD % 0x1_0000; AsInt32(if raw >= 0x8000 then raw + 0xffff_0000 else raw) == sample
  {
  }

  lemma SignExtend24(sample: int)
    requires InRange(sample, 24)
    ensures var raw := sample % WORD % 0x100_0000; AsInt32(if raw >= 0x80_0000 then raw + 0xff00_0000 else raw) == sample
  {
  }

  /** The low bytes a left-justified sample does not fill are zero. */
  lemma PaddingZero(u: nat, s: nat, k: nat)
    requires u < WORD && k < s <= 2
    ensures Digit(u * Pow256(s) % WORD, k) == 0
  {
    if s == 1 {
      ScaleOnce(u);
    } else {
      ScaleTwice(u);
      var m := u % 0x1_0000;
      OneByteUp(m * 0x100);
      OneByteUp(m);
    }
  }

  lemma OneByteUp(m: nat)
    ensures m * 0x100 % 0x100 == 0 && m * 0x100 / 0x100 == m
  {
  }

  /** Below the sample a subslot is silent; `SubslotRoundTrip` pins the bytes above. */
  lemma SubslotPadding(sample: int, bits: nat, bytes: nat, k: nat)
    requires (bits == 16 || bits == 24 || bits == 32) && ValidBytes(bits) <= bytes <= 4 && k < bytes - ValidBytes(bits)
    ensures Subslot(sample, bits, bytes)[k] == 0
  {
    assert SubslotWord(sample, bits, bytes) == sample % WORD * Pow256(bytes - ValidBytes(bits)) % WORD;
    PaddingZero(sample % WORD, bytes - ValidBytes(bits), k);
  }

  lemma UnsignedIs(s: seq<Byte>, u: nat)
    requires 2 <= |s| <= 4 && forall k :: 0 <= k < |s| ==> s[k] == Digit(u, k)
    ensures Unsigned(s) == match |s| case 2 => Low16(u) case 3 => Low24(u) case _ => Low32(u)
  {
    UnsignedNext(s, 0);
    UnsignedNext(s, 1);
    if |s| > 2 {
      UnsignedNext(s, 2);
    }
    if |s| > 3 {
      UnsignedNext(s, 3);
    }
    assert s[0..] == s;
  }

  lemma LowDigits(u: nat)
    requires u < WORD
    ensures Low16(u) == u % 0x1_0000 && Low24(u) == u % 0x100_0000 && Low32(u) == u
  {
    Digits16(u);
    Digits24(u);
    Digits32(u);
  }

  /** The low end of a word survives its truncation to 32 bits. */
  lemma Truncated(x: int, bytes: nat)
    requires 2 <= bytes <= 4
    ensures x % WORD % Pow256(bytes) == x % Pow256(bytes)
  {
  }

  lemma SameWord(a: int, b: int, n: int)
    requires a == b + n * WORD
    ensures a % WORD == b % WORD
  {
  }

  lemma ShiftedWord(sample: int, pad: nat)
    requires pad <= 2
    ensures sample % WORD * Pow256(pad) % WORD == sample * Pow256(pad) % WORD
  {
    var q, u := sample / WORD, sample % WORD;
    match pad {
      case 0 =>
      case 1 => SameWord(sample * 0x100, u * 0x100, q * 0x100);
      case _ => SameWord(sample * 0x1_0000, u * 0x1_0000, q * 0x1_0000);
    }
  }

  /** On the wire a subslot is little-endian: the sample in two's complement, shifted up past the padding. */
  lemma SubslotIsLittleEndian(sample: int, bits: nat, bytes: nat)
    requires (bits == 16 || bits == 24 || bits == 32) && ValidBytes(bits) <= bytes <= 4
    ensures Unsigned(Subslot(sample, bits, bytes)) == sample * Pow256(bytes - ValidBytes(bits)) % Pow256(bytes)
  {
    var word := SubslotWord(sample, bits, bytes);
    UnsignedIs(Subslot(sample, bits, bytes), word);
    LowDigits(word);
    ShiftedWord(sample, bytes - ValidBytes(bits));
    Truncated(sample * Pow256(bytes - ValidBytes(bits)), bytes);
  }

  /** Every byte of a frame outside its pair of subslots is silent too. */
  lemma FrameSilence(left: int, right: int, l: Layout, k: nat)
    requires l.Legal() && k < l.stride && !(l.left <= k < l.left + 2 * l.bytes)
    ensures Frame(left, right, l)[k] == 0
  {
  }

  /** Equal bytes decode equally, wherever they lie. */
  lemma DecodeMoved(s: seq<Byte>, at: nat, t: seq<Byte>, from: nat, bits: nat)
    requires bits == 16 || bits == 24 || bits == 32
    requires at + ValidBytes(bits) <= |s| && from + ValidBytes(bits) <= |t|
    requires s[at..at + ValidBytes(bits)] == t[from..from + ValidBytes(bits)]
    ensures Decode(s, at, bits) == Decode(t, from, bits)
  {
    var a, b := s[at..at + ValidBytes(bits)], t[from..from + ValidBytes(bits)];
    assert s[at] == a[0] == b[0] == t[from];
    assert s[at + 1] == a[1] == b[1] == t[from + 1];
    assert bits > 16 ==> s[at + 2] == a[2] == b[2] == t[from + 2];
    assert bits > 24 ==> s[at + 3] == a[3] == b[3] == t[from + 3];
  }

  /** Byte offset of the left (`right == false`) or right channel's valid bytes inside a frame. */
  function SampleOffset(l: Layout, right: bool): nat
    requires l.Legal()
  {
    l.left + (if right then l.bytes else 0) + (l.bytes - ValidBytes(l.bits))
  }

  lemma FrameDecodes(left: int, right: int, l: Layout)
    requires l.Legal() && InRange(left, l.bits) && InRange(right, l.bits)
    ensures Decode(Frame(left, right, l), SampleOffset(l, false), l.bits) == left
    ensures Decode(Frame(left, right, l), SampleOffset(l, true), l.bits) == right
  {
    FrameLeft(left, right, l);
    FrameRight(left, right, l);
    SubslotRoundTrip(left, l.bits, l.bytes);
    SubslotRoundTrip(right, l.bits, l.bytes);
  }

  lemma FrameLeft(left: int, right: int, l: Layout)
    requires l.Legal()
    ensures Decode(Frame(left, right, l), SampleOffset(l, false), l.bits)
            == Decode(Subslot(left, l.bits, l.bytes), l.bytes - ValidBytes(l.bits), l.bits)
  {
    var lead, rest := Zeros(l.left), Zeros(l.stride - l.left - 2 * l.bytes);
    var a, b := Subslot(left, l.bits, l.bytes), Subslot(right, l.bits, l.bytes);
    Regroup(lead, a, b, rest);
    DecodeInside(lead, a, b + rest, l.bytes - ValidBytes(l.bits), l.bits);
  }

  lemma FrameRight(left: int, right: int, l: Layout)
    requires l.Legal()
    ensures Decode(Frame(left, right, l), SampleOffset(l, true), l.bits)
            == Decode(Subslot(right, l.bits, l.bytes), l.bytes - ValidBytes(l.bits), l.bits)
  {
    var lead, rest := Zeros(l.left), Zeros(l.stride - l.left - 2 * l.bytes);
    var a, b := Subslot(left, l.bits, l.bytes), Subslot(right, l.bits, l.bytes);
    Regroup(lead, a, b, rest);
    DecodeInside(lead + a, b, rest, l.bytes - ValidBytes(l.bits), l.bits);
  }

  lemma Regroup(lead: seq<Byte>, a: seq<Byte>, b: seq<Byte>, rest: seq<Byte>)
    ensures lead + (a + b) + rest == lead + a + (b + rest)
    ensures lead + (a + b) + rest == lead + a + b + rest
  {
  }

  lemma DecodeInside(before: seq<Byte>, s: seq<Byte>, after: seq<Byte>, at: nat, bits: nat)
    requires bits == 16 || bits == 24 || bits == 32
    requires at + ValidBytes(bits) <= |s|
    ensures Decode(before + s + after, |before| + at, bits) == Decode(s, at, bits)
  {
    var t, v := before + s + after, ValidBytes(bits);
    assert t[|before| + at..|before| + at + v] == s[at..at + v];
    DecodeMoved(t, |before| + at, s, at, bits);
  }

  /** Unpacking either channel of a flat block gives back every sample of that channel. */
  lemma BlockRoundTrip(left: seq<int>, right: seq<int>, l: Layout, frames: seq<seq<Byte>>, f: nat)
    requires l.Legal() && FramesOf(frames, left, right, l) && f < |frames|
    requires InRange(left[f], l.bits) && InRange(right[f], l.bits)
    ensures |Join(frames)| / l.stride == |frames|
    ensures FrameSample(Join(frames), f, l.stride, SampleOffset(l, false), l.bits) == left[f]
    ensures FrameSample(Join(frames), f, l.stride, SampleOffset(l, true), l.bits) == right[f]
  {
    JoinLength(frames, l.stride);
    WholeProduct(|frames|, l.stride);
    FrameDecodes(left[f], right[f], l);
    FrameInBlock(frames, f, l.stride, SampleOffset(l, false), l.bits);
    FrameInBlock(frames, f, l.stride, SampleOffset(l, true), l.bits);
  }

  /** A frame's samples read the same inside the block. */
  lemma FrameInBlock(frames: seq<seq<Byte>>, f: nat, stride: nat, offset: nat, bits: nat)
    requires bits == 16 || bits == 24 || bits == 32
    requires stride > 0 && f < |frames| && Uniform(frames, stride) && f < |Join(frames)| / stride
    requires offset + ValidBytes(bits) <= stride
    ensures FrameSample(Join(frames), f, stride, offset, bits) == Decode(frames[f], offset, bits)
  {
    JoinSplit(frames, f);
    JoinLength(frames[..f], stride);
    DecodeInside(Join(frames[..f]), frames[f], Join(frames[f + 1..]), offset, bits);
  }
}
