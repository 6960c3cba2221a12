/**
 * Packet pacing: the exact rational scheduler, the Q16 accumulator driven by explicit feedback
 * (section 5.12.4.2 of the USB 2.0 specification), and the runway conversion, in the widths the
 * driver computes them in.
 */
module Pacing {
  import opened Core

  newtype uint32 = x: int | 0 <= x < 0x1_0000_0000
  newtype uint64 = x: int | 0 <= x < 0x1_0000_0000_0000_0000

  const Q16: nat := 0x1_0000

  // ---- Rational scheduler ---------------------------------------------------------------

  /** Frames due after `n` packets at `rate` frames per `period` packets. */
  function Due(n: nat, rate: nat, period: nat): nat
    requires period > 0
  {
    n * rate / period
  }

  class RationalPacketScheduler {
    var whole: uint32
    var fraction: uint32
    var period: uint32
    var remainder: uint32
    ghost var rate: nat
    ghost var calls: nat

    ghost predicate Valid()
      reads this
    {
      && period > 0
      && whole as int == rate / period as int
      && fraction as int == rate % period as int
      && remainder as int == calls * rate % period as int
      && rate < 0x1_0000_0000
    }

    constructor (rate: uint32, packetsPerSecond: uint32)
      ensures Valid() && calls == 0 && this.rate == rate as int
      ensures period == if packetsPerSecond > 0 then packetsPerSecond else 1
    {
      var p := if packetsPerSecond > 0 then packetsPerSecond else 1;
      period, whole, fraction := p, rate / p, rate % p;
      remainder := 0;
      this.rate := rate as int;
      calls := 0;
      WholeProduct(0, p as int);
    }

    /** Emits exactly the frames that fell due since the last packet, without leaving 32 bits. */
    method Next() returns (frames: uint32)
      requires Valid()
      modifies this`remainder, this`calls
      ensures Valid() && calls == old(calls) + 1
      ensures frames as int == Due(calls, rate, period as int) - Due(old(calls), rate, period as int)
    {
      DueStep(calls, rate, period as int);
      WholeBound(rate, period as int);
      frames := whole;
      if remainder >= period - fraction {
        remainder := remainder - (period - fraction);
        frames := frames + 1;
      } else {
        remainder := remainder + fraction;
      }
      calls := calls + 1;
    }
  }

  lemma WholeBound(rate: nat, period: nat)
    requires period > 0 && rate < 0x1_0000_0000
    ensures rate % period > 0 ==> rate / period + 1 < 0x1_0000_0000
  {
    var q, r := rate / period, rate % period;
    assert rate == q * period + r;
    NoSmaller(q, period);
  }

  lemma NoSmaller(q: nat, period: nat)
    requires period > 0
    ensures q <= q * period
  {
    assert q * (period - 1) >= 0;
  }

  /** One more packet's worth of frames carries into the quotient exactly when the remainder wraps. */
  lemma DueStep(n: nat, rate: nat, period: nat)
    requires period > 0
    ensures var r := n * rate % period; var w, f := rate / period, rate % period;
            if r >= period - f
            then Due(n + 1, rate, period) == Due(n, rate, period) + w + 1
                 && (n + 1) * rate % period == r - (period - f)
            else Due(n + 1, rate, period) == Due(n, rate, period) + w
                 && (n + 1) * rate % period == r + f
  {
    CarryDue(n * rate, rate, period);
    assert (n + 1) * rate == n * rate + rate;
  }

  lemma CarryDue(x: nat, rate: nat, period: nat)
    requires period > 0
    ensures var r := x % period; var w, f := rate / period, rate % period;
            if r >= period - f
            then (x + rate) / period == x / period + w + 1 && (x + rate) % period == r - (period - f)
            else (x + rate) / period == x / period + w && (x + rate) % period == r + f
  {
    var d, r, w, f := x / period, x % period, rate / period, rate % period;
    assert x == d * period + r;
    assert rate == w * period + f;
    CarryStep(d, r, w, f, period);
  }

  lemma CarryStep(d: nat, r: nat, w: nat, f: nat, period: nat)
    requires r < period && f < period
    ensures var x := d * period + r + (w * period + f);
            if r >= period - f then x / period == d + w + 1 && x % period == r - (period - f)
            else x / period == d + w && x % period == r + f
  {
    var x := d * period + r + (w * period + f);
    if r >= period - f {
      assert x == (d + w + 1) * period + (r - (period - f));
      DivModUnique(d + w + 1, r - (period - f), period);
    } else {
      assert x == (d + w) * period + (r + f);
      DivModUnique(d + w, r + f, period);
    }
  }

  lemma Positive(a: nat, b: nat)
    requires a > 0 && b > 0
    ensures a * b > 0
  {
  }

  /** `nominalTransferFrames`: the ceiling of the transfer's share, or the largest `int` when that is no larger. */
  function NominalTransferFrames(sampleRate: int, packets: int, packetsPerSecond: int): (r: int)
    ensures sampleRate <= 0 || packets <= 0 || packetsPerSecond <= 0 ==> r == 0
    ensures sampleRate > 0 && packets > 0 && packetsPerSecond > 0 ==>
              && 0 < r <= 0x7fff_ffff && (r - 1) * packetsPerSecond < sampleRate * packets
              && (r < 0x7fff_ffff ==> sampleRate * packets <= r * packetsPerSecond)
  {
    if sampleRate <= 0 || packets <= 0 || packetsPerSecond <= 0 then 0
    else
      var numerator := sampleRate * packets;
      var ceiling := (numerator + packetsPerSecond - 1) / packetsPerSecond;
      Positive(sampleRate, packets);
      CeilingBounds(numerator, packetsPerSecond, ceiling, Min(0x7fff_ffff, ceiling));
      Min(0x7fff_ffff, ceiling)
  }

  lemma CeilingBounds(share: nat, perSecond: nat, ceiling: nat, r: nat)
    requires share > 0 && perSecond > 0 && ceiling == (share + perSecond - 1) / perSecond
    requires r == Min(0x7fff_ffff, ceiling)
    ensures 0 < r && (r - 1) * perSecond < share
    ensures r < 0x7fff_ffff ==> share <= r * perSecond
  {
    var whole := share + perSecond - 1;
    DivMonotone(perSecond, whole, perSecond);
    WholeProduct(1, perSecond);
    assert ceiling * perSecond == whole - whole % perSecond;
    Scaled(ceiling - r, perSecond);
    assert (ceiling - r) * perSecond == ceiling * perSecond - r * perSecond;
    assert (r - 1) * perSecond == r * perSecond - perSecond;
  }

  lemma Scaled(n: nat, unit: nat)
    ensures n * unit >= 0
  {
  }

  /** Any `k` consecutive packets carry the floor or the ceiling of their share. */
  lemma WindowExact(n: nat, k: nat, rate: nat, period: nat)
    requires period > 0
    ensures var sent := Due(n + k, rate, period) - Due(n, rate, period);
            sent * period < k * rate + period && k * rate < sent * period + period
  {
    var a, b := n * rate, (n + k) * rate;
    assert b == a + k * rate;
    assert a == a / period * period + a % period && b == b / period * period + b % period;
    assert (b / period - a / period) * period == b / period * period - a / period * period;
  }

  /** So a transfer never exceeds its nominal frame count, saturation aside. */
  lemma WindowWithinNominal(n: nat, k: nat, rate: nat, period: nat)
    requires period > 0 && rate > 0 && k > 0 && NominalTransferFrames(rate, k, period) < 0x7fff_ffff
    ensures Due(n + k, rate, period) - Due(n, rate, period) <= NominalTransferFrames(rate, k, period)
  {
    WindowExact(n, k, rate, period);
    assert rate * k == k * rate;
    WithinCeiling(Due(n + k, rate, period) - Due(n, rate, period), NominalTransferFrames(rate, k, period), k * rate, period);
  }

  lemma WithinCeiling(sent: int, nominal: int, share: nat, period: nat)
    requires period > 0 && sent * period < share + period && share <= nominal * period
    ensures sent <= nominal
  {
    assert (sent - nominal) * period == sent * period - nominal * period;
    if sent > nominal {
      LargeMultiple(sent - nominal, period);
    }
  }

  /** `nominalMaxFrames`, and the ceiling `startIsoPump` derives from it when it accepts the endpoint. */
  function NominalMax(rate: nat, period: nat): nat
    requires period > 0
  {
    rate / period + (if rate % period > 0 then 1 else 0)
  }

  function MaxFramesPerPacket(physical: nat, rate: nat, period: nat): nat
    requires period > 0
  {
    Min(physical, NominalMax(rate, period) + 1)
  }

  /** `seed_q16`. */
  function Seed(rate: nat, period: nat): nat
    requires period > 0
  {
    rate / period * Q16 + rate % period * Q16 / period
  }

  /** `onIso` after the scheduler: the zero fallback and the per-packet clamp. */
  function Clamped(frames: nat, rateQ16: nat, maxFrames: nat): nat {
    Min(if frames == 0 then rateQ16 / Q16 else frames, maxFrames)
  }

  /** `nominalMaxFrames` is the ceiling of a packet's share, the packet maximum one frame more where the endpoint has room, the seed the floor in Q16. */
  lemma NominalIsCeiling(rate: nat, period: nat)
    requires period > 0
    ensures rate <= NominalMax(rate, period) * period < rate + period
    ensures Seed(rate, period) * period <= rate * Q16 < Seed(rate, period) * period + period
    ensures forall physical: nat :: MaxFramesPerPacket(physical, rate, period)
                                    == if physical <= NominalMax(rate, period) then physical else NominalMax(rate, period) + 1
  {
    var q, r := rate / period, rate % period;
    var f := r * Q16 / period;
    assert rate == q * period + r;
    assert r * Q16 == f * period + r * Q16 % period;
    assert (q + 1) * period == q * period + period;
    SeedScales(q, r, f, period);
  }

  lemma SeedScales(q: nat, r: nat, f: nat, period: nat)
    ensures (q * Q16 + f) * period == q * period * Q16 + f * period
    ensures (q * period + r) * Q16 == q * period * Q16 + r * Q16
  {
  }

  lemma SeedWhole(rate: nat, period: nat)
    requires period > 0
    ensures Seed(rate, period) / Q16 == rate / period
    ensures Seed(rate, period) <= NominalMax(rate, period) * Q16
  {
    var f := rate % period * Q16 / period;
    var r := rate % period;
    assert r * Q16 == f * period + r * Q16 % period;
    assert (period - r) * Q16 == period * Q16 - r * Q16;
    assert (f - Q16) * period == f * period - period * Q16;
  }

  /** On a paced endpoint neither the zero fallback nor the clamp ever alters what the scheduler said. */
  lemma PacedClampIsDead(n: nat, rate: nat, period: nat, physical: nat)
    requires period > 0 && physical >= NominalMax(rate, period)
    ensures var frames := Due(n + 1, rate, period) - Due(n, rate, period);
            frames >= 0 && Clamped(frames, Seed(rate, period), MaxFramesPerPacket(physical, rate, period)) == frames
  {
    DueStep(n, rate, period);
    SeedWhole(rate, period);
  }

  /** One transfer's descriptors: what the scheduler owes each packet from call `from` on. */
  ghost predicate RowDue(row: seq<nat>, from: nat, packets: nat, stride: nat, rate: nat, period: nat)
    requires period > 0
  {
    && |row| == packets
    && forall p :: 0 <= p < packets ==> row[p] == (Due(from + p + 1, rate, period) - Due(from + p, rate, period)) * stride
  }

  /** `startIsoPump`'s priming loop: the first plan carries exactly the frames due over all its packets. */
  method PrimeDescriptors(scheduler: RationalPacketScheduler, transfers: nat, packets: nat, stride: nat)
      returns (lengths: seq<seq<nat>>, exactFrames: nat)
    requires scheduler.Valid() && scheduler.calls == 0 && stride > 0
    modifies scheduler`remainder, scheduler`calls
    ensures |lengths| == transfers && forall t :: 0 <= t < transfers ==> |lengths[t]| == packets
    ensures forall t, p :: 0 <= t < transfers && 0 <= p < packets ==>
              lengths[t][p] == (Due(t * packets + p + 1, scheduler.rate, scheduler.period as int)
                                - Due(t * packets + p, scheduler.rate, scheduler.period as int)) * stride
    ensures exactFrames == Due(transfers * packets, scheduler.rate, scheduler.period as int)
  {
    lengths, exactFrames := [], 0;
    ghost var rate, period := scheduler.rate, scheduler.period as int;
    for t := 0 to transfers
      invariant scheduler.Valid() && scheduler.rate == rate && scheduler.period as int == period
      invariant |lengths| == t && scheduler.calls == t * packets && exactFrames == Due(t * packets, rate, period)
      invariant forall i :: 0 <= i < t ==> RowDue(lengths[i], i * packets, packets, stride, rate, period)
    {
      var row, frames := PrimeTransfer(scheduler, packets, stride);
      lengths := lengths + [row];
      exactFrames := exactFrames + frames;
      assert (t + 1) * packets == t * packets + packets;
    }
  }

  method PrimeTransfer(scheduler: RationalPacketScheduler, packets: nat, stride: nat)
      returns (row: seq<nat>, total: nat)
    requires scheduler.Valid() && stride > 0
    modifies scheduler`remainder, scheduler`calls
    ensures scheduler.Valid() && scheduler.calls == old(scheduler.calls) + packets && |row| == packets
    ensures total == Due(scheduler.calls, scheduler.rate, scheduler.period as int)
                     - Due(old(scheduler.calls), scheduler.rate, scheduler.period as int)
    ensures RowDue(row, old(scheduler.calls), packets, stride, scheduler.rate, scheduler.period as int)
  {
    row, total := [], 0;
    ghost var first, rate, period := scheduler.calls, scheduler.rate, scheduler.period as int;
    for p := 0 to packets
      invariant scheduler.Valid() && scheduler.rate == rate && scheduler.period as int == period
      invariant scheduler.calls == first + p && |row| == p
      invariant total == Due(first + p, rate, period) - Due(first, rate, period)
      invariant forall q :: 0 <= q < p ==>
                  row[q] == (Due(first + q + 1, rate, period) - Due(first + q, rate, period)) * stride
    {
      var frames := scheduler.Next();
      row := row + [frames as nat * stride];
      total := total + frames as nat;
    }
  }

  // ---- Explicit feedback ----------------------------------------------------------------

  function LittleEndian(b0: int, b1: int, b2: int, b3: int): int {
    b0 + 0x100 * b1 + 0x1_0000 * b2 + 0x100_0000 * b3
  }

  /** The value in a feedback packet as Q16: four bytes carry 16.16, three carry 10.14. */
  function FeedbackQ16(packet: seq<Byte>): (v: nat)
    ensures v < 0x1_0000_0000
  {
    if |packet| >= 4 then LittleEndian(packet[0], packet[1], packet[2], packet[3])
    else if |packet| == 3 then LittleEndian(packet[0], packet[1], packet[2], 0) * 4
    else 0
  }

  /** The rate a report asks for, in Q16 frames per microframe: a 16.16 number as it is, a 10.14 one times four, nothing from less. */
  ghost function Asked(packet: seq<Byte>): nat {
    if |packet| >= 4 then Unsigned(packet[..4]) else if |packet| == 3 then 4 * Unsigned(packet) else 0
  }

  lemma UnsignedOf(bytes: seq<Byte>)
    ensures |bytes| == 3 ==> Unsigned(bytes) == LittleEndian(bytes[0], bytes[1], bytes[2], 0)
    ensures |bytes| == 4 ==> Unsigned(bytes) == LittleEndian(bytes[0], bytes[1], bytes[2], bytes[3])
  {
    if |bytes| >= 3 {
      UnsignedNext(bytes, 0);
      UnsignedNext(bytes, 1);
      UnsignedNext(bytes, 2);
      assert bytes[0..] == bytes;
    }
    if |bytes| == 4 {
      UnsignedNext(bytes, 3);
    }
  }

  lemma DecodesAsked(packet: seq<Byte>)
    ensures FeedbackQ16(packet) == Asked(packet)
  {
    if |packet| >= 4 {
      UnsignedOf(packet[..4]);
    } else {
      UnsignedOf(packet);
    }
  }

  /** Three bytes are read as 10.14, four and more as 16.16 from the first four, and decoding gives that very rate in Q16. */
  lemma FeedbackDecodes(packet: seq<Byte>)
    ensures |packet| == 3 ==> FeedbackQ16(packet) * 0x4000 == Unsigned(packet) * 0x1_0000
    ensures |packet| >= 4 ==> FeedbackQ16(packet) == Unsigned(packet[..4])
    ensures |packet| < 3 ==> FeedbackQ16(packet) == 0
  {
    DecodesAsked(packet);
  }

  /** `onFeedback`'s acceptance bound, after scaling by the endpoint's service interval. */
  predicate Accepts(value: nat, interval: nat, maxFrames: nat) {
    0 < value * interval <= maxFrames * Q16
  }

  datatype Tick = Report(packet: seq<Byte>) | Packet

  /** The feedback-driven pacer, with the frames it scheduled on the side, before and after the clamp. */
  datatype Pacer = Pacer(rate: nat, accumulator: nat, frames: nat, clamped: nat)

  /** One callback's worth of pacing, in exact integers. */
  function Tock(p: Pacer, tick: Tick, interval: nat, maxFrames: nat): Pacer {
    match tick
    case Report(packet) =>
      var v := FeedbackQ16(packet);
      if Accepts(v, interval, maxFrames) then p.(rate := v * interval) else p
    case Packet =>
      var sum := p.accumulator + p.rate;
      var frames := sum / Q16;
      p.(accumulator := sum % Q16, frames := p.frames + frames,
         clamped := p.clamped + Clamped(frames, p.rate, maxFrames))
  }

  function Pace(p: Pacer, ticks: seq<Tick>, interval: nat, maxFrames: nat): Pacer {
    if ticks == [] then p
    else Tock(Pace(p, ticks[..|ticks| - 1], interval, maxFrames), ticks[|ticks| - 1], interval, maxFrames)
  }

  /** The last rate reported within the endpoint's capacity, scaled to its service interval; the seed before any. */
  ghost function RateInForce(seed: nat, ticks: seq<Tick>, interval: nat, maxFrames: nat): nat {
    if ticks == [] then seed
    else
      var before := RateInForce(seed, ticks[..|ticks| - 1], interval, maxFrames);
      match ticks[|ticks| - 1]
      case Packet => before
      case Report(packet) => if 0 < Asked(packet) * interval <= maxFrames * Q16 then Asked(packet) * interval else before
  }

  /** The rates in force at every packet, added up. */
  ghost function RatesUsed(seed: nat, ticks: seq<Tick>, interval: nat, maxFrames: nat): nat {
    if ticks == [] then 0
    else
      var front := ticks[..|ticks| - 1];
      RatesUsed(seed, front, interval, maxFrames)
      + (if ticks[|ticks| - 1].Packet? then RateInForce(seed, front, interval, maxFrames) else 0)
  }

  /**
   * Whatever the device reports and whenever: scheduled frames plus what the accumulator holds is
   * exactly the sum of the rates used, the accumulator sum fits 32 bits, and the fallback and the
   * clamp never change a scheduled count, so no frame is discarded.
   */
  lemma {:induction false} FeedbackConserved(start: Pacer, ticks: seq<Tick>, interval: nat, maxFrames: nat)
    requires start.accumulator == 0 && start.frames == 0 && start.clamped == 0
    requires start.rate <= maxFrames * Q16 && maxFrames < Q16
    ensures var p := Pace(start, ticks, interval, maxFrames);
            && Q16 * p.frames + p.accumulator == RatesUsed(start.rate, ticks, interval, maxFrames)
            && p.rate == RateInForce(start.rate, ticks, interval, maxFrames)
            && p.clamped == p.frames
            && p.accumulator < Q16 && p.rate <= maxFrames * Q16
            && p.accumulator + p.rate < 0x1_0000_0000
  {
    if ticks != [] {
      FeedbackConserved(start, ticks[..|ticks| - 1], interval, maxFrames);
      if ticks[|ticks| - 1].Report? {
        DecodesAsked(ticks[|ticks| - 1].packet);
      }
    }
  }

  /** The same pacer in the driver's own widths: 32-bit accumulator and rate, a 64-bit product. */
  class FeedbackPacer {
    var framesPerUframe: uint32   // framesPerUframe_q16_
    var accumulator: uint32       // fracAccumulator_q16_
    const interval: uint32        // packetIntervalUframes_
    const maxFrames: uint32       // maxFramesPerPacket_
    ghost var spec: Pacer

    ghost predicate Valid()
      reads this
    {
      && maxFrames as int < Q16 && interval as int < Q16
      && spec.rate == framesPerUframe as int <= maxFrames as int * Q16
      && spec.accumulator == accumulator as int < Q16
    }

    constructor (seed: uint32, interval: uint32, maxFrames: uint32)
      requires maxFrames as int < Q16 && interval as int < Q16 && seed as int <= maxFrames as int * Q16
      ensures Valid() && spec == Pacer(seed as int, 0, 0, 0)
    {
      framesPerUframe, accumulator := seed, 0;
      this.interval, this.maxFrames := interval, maxFrames;
      spec := Pacer(seed as int, 0, 0, 0);
    }

    method OnReport(packet: seq<Byte>)
      requires Valid()
      modifies this
      ensures Valid() && spec == Tock(old(spec), Report(packet), interval as int, maxFrames as int)
      ensures var rate := Asked(packet) * interval as int;
              framesPerUframe as int
              == if 0 < rate <= maxFrames as int * 0x1_0000 then rate else old(framesPerUframe) as int
      ensures accumulator == old(accumulator)
    {
      DecodesAsked(packet);
      var value := FeedbackQ16(packet);
      ProductFits(value, interval as int);
      var packetRate := PacketRate(value as uint64, interval as uint64);
      if packetRate > 0 && packetRate <= maxFrames as uint64 * 0x1_0000 {
        framesPerUframe := packetRate as uint32;
      }
      spec := Tock(spec, Report(packet), interval as int, maxFrames as int);
    }

    method NextPacket() returns (frames: uint32)
      requires Valid()
      modifies this
      ensures Valid() && spec == Tock(old(spec), Packet, interval as int, maxFrames as int)
      ensures frames as int == spec.clamped - old(spec.clamped)
      ensures 0x1_0000 * frames as int + accumulator as int == old(accumulator) as int + framesPerUframe as int
      ensures framesPerUframe == old(framesPerUframe) && accumulator < 0x1_0000
    {
      accumulator := accumulator + framesPerUframe;
      frames := accumulator / 0x1_0000;
      accumulator := accumulator % 0x1_0000;
      if frames == 0 {
        frames := framesPerUframe / 0x1_0000;
      }
      if frames > maxFrames {
        frames := maxFrames;
      }
      spec := Tock(spec, Packet, interval as int, maxFrames as int);
    }
  }

  /** The 64-bit product. */
  function PacketRate(value: uint64, interval: uint64): (r: uint64)
    requires value as int * interval as int < 0x1_0000_0000_0000_0000
    ensures r as int == value as int * interval as int
  {
    value * interval
  }

  lemma ProductFits(value: nat, interval: nat)
    requires value < 0x1_0000_0000 && interval < Q16
    ensures value * interval < 0x1_0000_0000_0000_0000
  {
    assert (0x1_0000_0000 - value) * interval >= 0;
  }

  // ---- Runway ---------------------------------------------------------------------------

  const NS_PER_SECOND: uint64 := 1_000_000_000
  const UINT64_MAX: uint64 := 0xffff_ffff_ffff_ffff

  /** `playbackRunwayNanoseconds`: the exact duration, saturated, with no wider intermediate. */
  function PlaybackRunwayNanoseconds(queuedFrames: uint64, sampleRate: uint32): (ns: uint64)
    ensures sampleRate == 0 ==> ns == 0
    ensures sampleRate > 0 ==>
              ns as int == Min(UINT64_MAX as int, queuedFrames as int * NS_PER_SECOND as int / sampleRate as int)
  {
    if queuedFrames == 0 || sampleRate == 0 then
      NoFrames(sampleRate as int);
      0
    else
      var rate := sampleRate as uint64;
      var wholeSeconds := queuedFrames / rate;
      var remainderFrames := queuedFrames % rate;
      SplitSeconds(queuedFrames as int, rate as int, NS_PER_SECOND as int);
      RemainderFits(remainderFrames as int, rate as int);
      if wholeSeconds > UINT64_MAX / NS_PER_SECOND then UINT64_MAX
      else
        var runway := wholeSeconds * NS_PER_SECOND;
        var remainderNs := remainderFrames * NS_PER_SECOND / rate;
        if runway > UINT64_MAX - remainderNs then UINT64_MAX else runway + remainderNs
  }

  lemma NoFrames(rate: nat)
    ensures rate > 0 ==> 0 * NS_PER_SECOND as int / rate == 0
  {
    if rate > 0 {
      WholeProduct(0, rate);
    }
  }

  lemma RemainderFits(remainder: nat, rate: nat)
    requires remainder < rate < 0x1_0000_0000
    ensures remainder * NS_PER_SECOND as int < 0x1_0000_0000_0000_0000
    ensures 0 <= remainder * NS_PER_SECOND as int / rate < 0x1_0000_0000_0000_0000
  {
    DivMonotone(remainder * NS_PER_SECOND as int, NS_PER_SECOND as int * rate, rate);
    WholeProduct(NS_PER_SECOND as int, rate);
  }

  lemma SplitSeconds(frames: nat, rate: nat, ns: nat)
    requires rate > 0
    ensures frames * ns / rate == frames / rate * ns + frames % rate * ns / rate
  {
    var q, m := frames / rate, frames % rate;
    var y := m * ns;
    var e, r := y / rate, y % rate;
    assert frames == q * rate + m;
    assert y == e * rate + r;
    Distribute(q, rate, m, ns);
    Regroup(q * ns, e, rate, r);
    DivModUnique(q * ns + e, r, rate);
  }

  lemma Distribute(q: nat, rate: nat, m: nat, ns: nat)
    ensures (q * rate + m) * ns == q * ns * rate + m * ns
  {
    assert (q * rate + m) * ns == q * rate * ns + m * ns;
    assert q * rate * ns == q * (rate * ns) == q * (ns * rate) == q * ns * rate;
  }

  lemma Regroup(a: nat, e: nat, rate: nat, r: nat)
    ensures (a + e) * rate + r == a * rate + (e * rate + r)
  {
  }
}
