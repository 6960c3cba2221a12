/**
 * What the published limits let a producer of whole quanta do: whether it can reach the prime the start check
 * waits for, and how far drains may fall behind before it is refused.
 */
module QuantumAdmission {
  import opened Core
  import opened Transport
  import opened QuantumSubmission
  import BufferPolicy

  /** One submission as `submitQuantum` decides it, gate open: the block is published whole or not at all. */
  function Offer(s: State, pcm: seq<Byte>, headroom: nat, capacity: nat, charge: bool): State
    requires s.cfg.stride > 0
  {
    var frames := |pcm| / s.cfg.stride;
    if RoomFor(s, frames, headroom, capacity) && (charge ==> CreditAdmits(s, frames, s.bus.queued))
    then Published(s, pcm, charge, s.bus.queued) else s
  }

  function Offers(s: State, blocks: seq<seq<Byte>>, headroom: nat, capacity: nat, charge: bool): (u: State)
    requires s.cfg.stride > 0
    ensures u.cfg == s.cfg
  {
    if blocks == [] then s
    else Offer(Offers(s, blocks[..|blocks| - 1], headroom, capacity, charge), blocks[|blocks| - 1], headroom, capacity, charge)
  }

  ghost predicate Quanta(blocks: seq<seq<Byte>>, quantum: nat, stride: nat) {
    forall k :: 0 <= k < |blocks| ==> |blocks[k]| == quantum * stride
  }

  /** Frames that may be queued before the start. */
  function PrimeLimit(prime: nat, headroom: nat, physical: nat): nat {
    Min(prime + headroom, physical)
  }

  function LeastMultiple(quantum: nat, frames: nat): nat
    requires quantum > 0
  {
    (frames + quantum - 1) / quantum * quantum
  }

  // ---- Reaching the prime -----------------------------------------------------------------------

  /** `k` quanta are in the ring and playback has not started. */
  ghost predicate Holds(s: State, k: nat, quantum: nat)
    requires s.cfg.stride > 0
  {
    !s.flags.started && |s.stream.ring| == k * quantum * s.cfg.stride
  }

  lemma RoomIs(s: State, queued: nat, quantum: nat, headroom: nat, capacity: nat)
    requires s.cfg.stride > 0 && !s.flags.started && |s.stream.ring| == queued * s.cfg.stride <= capacity
    ensures RingFrames(s) == queued
    ensures RoomFor(s, quantum, headroom, capacity)
            <==> queued + quantum <= PrimeLimit(s.cfg.primeFrames, headroom, capacity / s.cfg.stride)
  {
    WholeProduct(queued, s.cfg.stride);
    BufferPolicy.FreeFrames(capacity, queued, s.cfg.stride);
  }

  lemma OneMoreFits(s: State, k: nat, quantum: nat, headroom: nat, capacity: nat)
    requires s.cfg.stride > 0 && quantum > 0 && Holds(s, k, quantum) && |s.stream.ring| <= capacity
    ensures RingFrames(s) == k * quantum
    ensures RoomFor(s, quantum, headroom, capacity)
            <==> k + 1 <= PrimeLimit(s.cfg.primeFrames, headroom, capacity / s.cfg.stride) / quantum
  {
    RoomIs(s, k * quantum, quantum, headroom, capacity);
    Distribute(k, 1, quantum);
    QuotientFits(k + 1, PrimeLimit(s.cfg.primeFrames, headroom, capacity / s.cfg.stride), quantum);
  }

  lemma QuotientFits(k: nat, limit: nat, quantum: nat)
    requires quantum > 0
    ensures k <= limit / quantum <==> k * quantum <= limit
  {
    if k <= limit / quantum {
      assert (limit / quantum - k) * quantum >= 0;
      assert limit / quantum * quantum == limit - limit % quantum;
    }
    if k * quantum <= limit {
      WholeProduct(k, quantum);
      DivMonotone(k * quantum, limit, quantum);
    }
  }

  /** Before the start nothing drains, so `n` offers leave as many quanta as the limit holds, and no more. */
  lemma {:induction false} OffersHold(s: State, blocks: seq<seq<Byte>>, quantum: nat, headroom: nat, capacity: nat, charge: bool)
    requires s.cfg.stride > 0 && quantum > 0 && !s.flags.started && s.stream.ring == []
    requires Quanta(blocks, quantum, s.cfg.stride)
    ensures var u := Offers(s, blocks, headroom, capacity, charge);
            var most := PrimeLimit(s.cfg.primeFrames, headroom, capacity / s.cfg.stride) / quantum;
            && Holds(u, Min(|blocks|, most), quantum) && u.flags == s.flags && u.bus == s.bus
            && RingFrames(u) == Min(|blocks|, most) * quantum
    decreases |blocks|
  {
    var most := PrimeLimit(s.cfg.primeFrames, headroom, capacity / s.cfg.stride) / quantum;
    if blocks == [] {
      WholeProduct(0, s.cfg.stride);
      assert 0 * quantum * s.cfg.stride == 0;
    } else {
      var n := |blocks| - 1;
      OffersHold(s, blocks[..n], quantum, headroom, capacity, charge);
      var u := Offers(s, blocks[..n], headroom, capacity, charge);
      OfferHolds(u, blocks[n], Min(n, most), quantum, headroom, capacity, charge, most);
    }
  }

  lemma OfferHolds(s: State, pcm: seq<Byte>, k: nat, quantum: nat, headroom: nat, capacity: nat, charge: bool, most: nat)
    requires s.cfg.stride > 0 && quantum > 0 && Holds(s, k, quantum) && |pcm| == quantum * s.cfg.stride
    requires most == PrimeLimit(s.cfg.primeFrames, headroom, capacity / s.cfg.stride) / quantum && k <= most
    ensures var u := Offer(s, pcm, headroom, capacity, charge); var next := Min(k + 1, most);
            Holds(u, next, quantum) && u.flags == s.flags && u.bus == s.bus && RingFrames(u) == next * quantum
  {
    WholeProduct(quantum, s.cfg.stride);
    WithinCapacity(k, quantum, most, PrimeLimit(s.cfg.primeFrames, headroom, capacity / s.cfg.stride), capacity, s.cfg.stride);
    OneMoreFits(s, k, quantum, headroom, capacity);
    OneMoreHeld(s, pcm, k, quantum, charge);
  }

  lemma OneMoreHeld(s: State, pcm: seq<Byte>, k: nat, quantum: nat, charge: bool)
    requires s.cfg.stride > 0 && Holds(s, k, quantum) && |pcm| == quantum * s.cfg.stride
    ensures var u := Published(s, pcm, charge, s.bus.queued);
            Holds(u, k + 1, quantum) && u.flags == s.flags && u.bus == s.bus && RingFrames(u) == (k + 1) * quantum
  {
    OneMoreBytes(k, quantum, s.cfg.stride);
    WholeProduct((k + 1) * quantum, s.cfg.stride);
  }

  lemma OneMoreBytes(k: nat, quantum: nat, stride: nat)
    ensures k * quantum * stride + quantum * stride == (k + 1) * quantum * stride
  {
    assert k * quantum + quantum == (k + 1) * quantum;
    Distribute(k * quantum, quantum, stride);
  }

  lemma WithinCapacity(k: nat, quantum: nat, most: nat, limit: nat, capacity: nat, stride: nat)
    requires stride > 0 && quantum > 0 && k <= most == limit / quantum && limit <= capacity / stride
    ensures k * quantum * stride <= capacity
  {
    QuotientFits(k, limit, quantum);
    QuotientFits(k * quantum, capacity, stride);
  }

  /**
   * Exactly when a producer of whole quanta reaches the prime from an empty ring: enough of them are offered, and the
   * least multiple of the quantum that is no less than the prime fits both the pre-start limit and the storage.
   */
  lemma PrimeReachedExactlyWhen(s: State, blocks: seq<seq<Byte>>, quantum: nat, headroom: nat, capacity: nat, charge: bool)
    requires s.cfg.stride > 0 && quantum > 0 && !s.flags.started && s.stream.ring == []
    requires Quanta(blocks, quantum, s.cfg.stride)
    ensures var p := s.cfg.primeFrames;
            RingFrames(Offers(s, blocks, headroom, capacity, charge)) >= p
            <==> |blocks| * quantum >= p && LeastMultiple(quantum, p) <= PrimeLimit(p, headroom, capacity / s.cfg.stride)
  {
    OffersHold(s, blocks, quantum, headroom, capacity, charge);
    ReachedWithin(|blocks|, PrimeLimit(s.cfg.primeFrames, headroom, capacity / s.cfg.stride), quantum, s.cfg.primeFrames);
  }

  lemma ReachedWithin(n: nat, limit: nat, quantum: nat, prime: nat)
    requires quantum > 0
    ensures Min(n, limit / quantum) * quantum >= prime <==> n * quantum >= prime && LeastMultiple(quantum, prime) <= limit
  {
    var k, most := (prime + quantum - 1) / quantum, limit / quantum;
    LeastEnough(k, n, quantum, prime);
    LeastEnough(k, most, quantum, prime);
    LeastEnough(k, Min(n, most), quantum, prime);
    QuotientFits(k, limit, quantum);
  }

  /** `k` quanta are the fewest that make the prime. */
  lemma LeastEnough(k: nat, n: nat, quantum: nat, prime: nat)
    requires quantum > 0 && k == (prime + quantum - 1) / quantum
    ensures n * quantum >= prime <==> n >= k
  {
    var whole := prime + quantum - 1;
    assert k * quantum == whole - whole % quantum;
    if n >= k {
      assert (n - k) * quantum >= 0;
      assert n * quantum == k * quantum + (n - k) * quantum;
    } else {
      assert (k - 1 - n) * quantum >= 0;
      assert n * quantum == k * quantum - quantum - (k - 1 - n) * quantum;
    }
  }

  /** And so exactly when the start check passes, whatever was offered. */
  lemma StartPassesExactlyWhen(s: State, blocks: seq<seq<Byte>>, quantum: nat, headroom: nat, capacity: nat, charge: bool)
    requires s.cfg.stride > 0 && quantum > 0 && !s.flags.started && !s.flags.stopRequested && s.stream.ring == []
    requires Quanta(blocks, quantum, s.cfg.stride)
    ensures var p := s.cfg.primeFrames; var u := Offers(s, blocks, headroom, capacity, charge);
            StartPlayback(u, u.bus.feedbackPool, |u.bus.transfers|).flags.started
            <==> |blocks| * quantum >= p && LeastMultiple(quantum, p) <= PrimeLimit(p, headroom, capacity / s.cfg.stride)
  {
    OffersHold(s, blocks, quantum, headroom, capacity, charge);
    PrimeReachedExactlyWhen(s, blocks, quantum, headroom, capacity, charge);
  }

  /** With headroom for a quantum, as automatic headroom always has, only the storage can be in the way. */
  lemma HeadroomLeavesStorage(quantum: nat, prime: nat, headroom: nat, physical: nat)
    requires quantum > 0 && headroom >= quantum
    ensures LeastMultiple(quantum, prime) <= PrimeLimit(prime, headroom, physical) <==> LeastMultiple(quantum, prime) <= physical
  {
    var whole := prime + quantum - 1;
    assert whole / quantum * quantum == whole - whole % quantum;
  }

  /** An accepted configuration with automatic headroom: the prime is reached when its multiple of the quantum fits the ring. */
  lemma AcceptedReachesExactlyWhen(frames: int, user: BufferPolicy.Config, periodMultiplier: int, g: BufferPolicy.Geometry,
                                   s: State, blocks: seq<seq<Byte>>, charge: bool)
    requires g.frameStride == s.cfg.stride > 0 && !s.flags.started && s.stream.ring == [] && user.writeHeadroomFrames == 0
    requires var r := BufferPolicy.Resolve(frames, user, periodMultiplier, g);
             BufferPolicy.Fits(r, g) && s.cfg.primeFrames == r.prime && Quanta(blocks, r.quantum, s.cfg.stride)
    ensures var r := BufferPolicy.Resolve(frames, user, periodMultiplier, g);
            RingFrames(Offers(s, blocks, r.headroom, g.ringBytes, charge)) >= r.prime
            <==> |blocks| * r.quantum >= r.prime && LeastMultiple(r.quantum, r.prime) <= g.ringBytes / g.frameStride
  {
    var r := BufferPolicy.Resolve(frames, user, periodMultiplier, g);
    PrimeReachedExactlyWhen(s, blocks, r.quantum, r.headroom, g.ringBytes, charge);
    HeadroomLeavesStorage(r.quantum, r.prime, r.headroom, g.ringBytes / g.frameStride);
  }

  /** Eight bytes a frame, a 4096-byte ring, two transfers of 24 frames. */
  const TWO_TRANSFERS: BufferPolicy.Geometry := BufferPolicy.Geometry(8, 8, 4096, 2, 48, 24, 24)
  const SHORT_HEADROOM: BufferPolicy.Config := BufferPolicy.Config(0, 0, 4, 0, 0, 0, 0)
  const FULL_PRIME: BufferPolicy.Config := BufferPolicy.Config(0, 512, 0, 0, 0, 0, 0)

  /** An accepted configuration whose headroom is below the quantum: the producer is refused for good at 32 frames of 56. */
  lemma ShortHeadroomNeverStarts(s: State, blocks: seq<seq<Byte>>, charge: bool)
    requires s.cfg.stride == 8 && s.cfg.primeFrames == 56 && !s.flags.started && s.stream.ring == []
    requires Quanta(blocks, 32, 8)
    ensures var r := BufferPolicy.Resolve(32, SHORT_HEADROOM, 3, TWO_TRANSFERS);
            BufferPolicy.Fits(r, TWO_TRANSFERS) && r.quantum == 32 && r.headroom == 4 && r.prime == 56
    ensures RingFrames(Offers(s, blocks, 4, 4096, charge)) <= 32
  {
    OffersHold(s, blocks, 32, 4, 4096, charge);
  }

  /** One with a prime as large as the ring, and a quantum that does not divide it, whatever its headroom. */
  lemma FullPrimeNeverStarts(s: State, blocks: seq<seq<Byte>>, charge: bool)
    requires s.cfg.stride == 8 && s.cfg.primeFrames == 512 && !s.flags.started && s.stream.ring == []
    requires Quanta(blocks, 48, 8)
    ensures var r := BufferPolicy.Resolve(48, FULL_PRIME, 1, TWO_TRANSFERS);
            && BufferPolicy.Fits(r, TWO_TRANSFERS) && r.quantum == 48 && r.prime == 512 && r.headroom == 72
            && RingFrames(Offers(s, blocks, r.headroom, 4096, charge)) <= 480
  {
    OffersHold(s, blocks, 48, 72, 4096, charge);
  }

  // ---- Drains that fall behind ------------------------------------------------------------------

  /** `writableToTargetFrames` for a started producer: room below the target, not below the ceiling. */
  function WritableToTarget(s: State, capacity: nat): int
    requires s.cfg.stride > 0
  {
    Min((capacity - |s.stream.ring|) / s.cfg.stride, if RingFrames(s) < s.cfg.target then s.cfg.target - RingFrames(s) else 0)
  }

  /** What the wait looks for, in frames and bytes: so many more fit below the target and in the storage. */
  lemma TargetRoomExactlyWhen(s: State, frames: nat, capacity: nat)
    requires s.cfg.stride > 0 && frames > 0 && |s.stream.ring| <= capacity
    ensures frames <= WritableToTarget(s, capacity)
            <==> |s.stream.ring| / s.cfg.stride + frames <= s.cfg.target && |s.stream.ring| + frames * s.cfg.stride <= capacity
  {
    QuotientFits(frames, capacity - |s.stream.ring|, s.cfg.stride);
  }

  /** `writableFrames` answers at least a quantum exactly when the quantum is admitted. */
  lemma WritableExactlyWhen(settings: BufferPolicy.Settings, s: State, frames: nat, headroom: nat, capacity: nat)
    requires s.cfg.stride > 0 && frames > 0 && |s.stream.ring| <= capacity && headroom == settings.writeHeadroomFrames
    requires s.cfg.target == settings.playbackTargetFrames && s.cfg.primeFrames == settings.startupPrimeFrames
    ensures frames <= settings.Writable(s.flags.started, |s.stream.ring|, capacity, s.cfg.stride)
            <==> |s.stream.ring| / s.cfg.stride + frames <= headroom + (if s.flags.started then s.cfg.target else s.cfg.primeFrames)
                 && |s.stream.ring| + frames * s.cfg.stride <= capacity
  {
    QuotientFits(frames, capacity - |s.stream.ring|, s.cfg.stride);
  }

  /** A quantum offered once the wait has found that much room leaves the ring at the target or below. */
  lemma WaitLeavesTarget(s: State, pcm: seq<Byte>, frames: nat, headroom: nat, capacity: nat, charge: bool)
    requires s.cfg.stride > 0 && s.flags.started && |pcm| == frames * s.cfg.stride && |s.stream.ring| % s.cfg.stride == 0
    requires 0 < frames <= WritableToTarget(s, capacity)
    ensures RingFrames(Offer(s, pcm, headroom, capacity, charge)) <= s.cfg.target
  {
    WholeProduct(frames, s.cfg.stride);
    WholeSum(|s.stream.ring|, |pcm|, s.cfg.stride);
  }

  /** Occupancy after as many cycles as there are drains, each followed by one quantum. */
  function Level(occupancy: nat, drains: seq<nat>, quantum: nat): int {
    occupancy + |drains| * quantum - Sum(drains)
  }

  /** In every cycle the quantum offered behind the drain fits the limit. */
  predicate AllIn(occupancy: nat, drains: seq<nat>, quantum: nat, limit: int)
    decreases |drains|
  {
    drains == [] ||
      (var n := |drains| - 1; var before := Level(occupancy, drains[..n], quantum);
       AllIn(occupancy, drains[..n], quantum, limit) && before - drains[n] + quantum <= limit)
  }

  /** Every quantum is admitted exactly while production is ahead of the drains by no more than the limit leaves. */
  lemma {:induction false} AllInExactlyWhen(occupancy: nat, drains: seq<nat>, quantum: nat, limit: int)
    ensures AllIn(occupancy, drains, quantum, limit)
            <==> forall k :: 0 < k <= |drains| ==> Level(occupancy, drains[..k], quantum) <= limit
    decreases |drains|
  {
    if drains != [] {
      var n := |drains| - 1;
      AllInExactlyWhen(occupancy, drains[..n], quantum, limit);
      LevelNext(occupancy, drains, quantum);
      assert drains[..|drains|] == drains;
      assert forall k :: 0 < k <= n ==> drains[..n][..k] == drains[..k];
    }
  }

  lemma LevelNext(occupancy: nat, drains: seq<nat>, quantum: nat)
    requires drains != []
    ensures Level(occupancy, drains, quantum)
            == Level(occupancy, drains[..|drains| - 1], quantum) - drains[|drains| - 1] + quantum
  {
    assert |drains| * quantum == (|drains| - 1) * quantum + quantum;
  }

  // ---- The same cycles against the ring ---------------------------------------------------------

  /** A completion takes `frames` from the ring. */
  function Drained(s: State, frames: nat): State {
    s.(stream := s.stream.(ring := if frames * s.cfg.stride <= |s.stream.ring| then s.stream.ring[frames * s.cfg.stride..] else []))
  }

  /** The producer offers one block behind every drain, under the room policy. */
  function Cycles(s: State, drains: seq<nat>, blocks: seq<seq<Byte>>, headroom: nat, capacity: nat): (u: State)
    requires s.cfg.stride > 0 && |drains| == |blocks|
    ensures u.cfg == s.cfg && u.flags == s.flags
  {
    if drains == [] then s
    else
      var n := |drains| - 1;
      Offer(Drained(Cycles(s, drains[..n], blocks[..n], headroom, capacity), drains[n]), blocks[n], headroom, capacity, false)
  }

  /** Every offer so far was taken: each left the ring a block longer than its drain did. */
  predicate NoneRefused(s: State, drains: seq<nat>, blocks: seq<seq<Byte>>, headroom: nat, capacity: nat)
    requires s.cfg.stride > 0 && |drains| == |blocks|
    decreases |drains|
  {
    drains == [] ||
      (var n := |drains| - 1; var before := Drained(Cycles(s, drains[..n], blocks[..n], headroom, capacity), drains[n]);
       && NoneRefused(s, drains[..n], blocks[..n], headroom, capacity)
       && Cycles(s, drains, blocks, headroom, capacity).stream.ring == before.stream.ring + blocks[n])
  }

  /** No drain takes more than an unrefused producer has put there. */
  ghost predicate Buffered(occupancy: nat, drains: seq<nat>, quantum: nat) {
    forall k :: 0 <= k < |drains| ==> drains[k] <= Level(occupancy, drains[..k], quantum)
  }

  lemma OfferAfterDrain(s: State, level: nat, drain: nat, pcm: seq<Byte>, quantum: nat, headroom: nat, capacity: nat)
    requires s.cfg.stride > 0 && s.flags.started && |s.stream.ring| == level * s.cfg.stride && drain <= level
    requires 0 < quantum && |pcm| == quantum * s.cfg.stride
    requires s.cfg.target + headroom <= capacity / s.cfg.stride
    ensures var before := Drained(s, drain); var u := Offer(before, pcm, headroom, capacity, false);
            && (u.stream.ring == before.stream.ring + pcm <==> level - drain + quantum <= s.cfg.target + headroom)
            && (u.stream.ring == before.stream.ring + pcm ==> |u.stream.ring| == (level - drain + quantum) * s.cfg.stride)
  {
    var stride, left := s.cfg.stride, level - drain;
    Distribute(left, drain, stride);
    assert |Drained(s, drain).stream.ring| == left * stride by {
      ProductUp(drain, level, stride);
    }
    Distribute(left, quantum, stride);
    WholeProduct(left, stride);
    WholeProduct(quantum, stride);
    ProductUp(1, quantum, stride);
    if left + quantum <= s.cfg.target + headroom {
      QuotientFits(left + quantum, capacity, stride);
      QuotientFits(quantum, capacity - left * stride, stride);
    }
  }

  lemma ProductUp(a: nat, b: nat, stride: nat)
    requires a <= b
    ensures a * stride <= b * stride
  {
    assert (b - a) * stride >= 0;
  }

  /**
   * A started producer that offers one quantum behind every drain is never refused exactly while production is ahead of
   * the drains by no more than target plus headroom leaves; and what is then in the ring is what was there, plus the
   * quanta, less the drains.
   */
  lemma {:induction false} NoneRefusedExactlyWhen(s: State, occupancy: nat, drains: seq<nat>, blocks: seq<seq<Byte>>, quantum: nat,
                                                  headroom: nat, capacity: nat)
    requires s.cfg.stride > 0 && s.flags.started && |s.stream.ring| == occupancy * s.cfg.stride
    requires 0 < quantum && |drains| == |blocks| && Quanta(blocks, quantum, s.cfg.stride) && Buffered(occupancy, drains, quantum)
    requires s.cfg.target + headroom <= capacity / s.cfg.stride
    ensures NoneRefused(s, drains, blocks, headroom, capacity) <==> AllIn(occupancy, drains, quantum, s.cfg.target + headroom)
    ensures NoneRefused(s, drains, blocks, headroom, capacity) ==>
              Level(occupancy, drains, quantum) >= 0
              && |Cycles(s, drains, blocks, headroom, capacity).stream.ring| == Level(occupancy, drains, quantum) * s.cfg.stride
    decreases |drains|
  {
    if drains != [] {
      var n := |drains| - 1;
      BufferedFront(occupancy, drains, quantum);
      NoneRefusedExactlyWhen(s, occupancy, drains[..n], blocks[..n], quantum, headroom, capacity);
      CycleCounts(s, occupancy, drains, blocks, quantum, headroom, capacity, Level(occupancy, drains[..n], quantum),
                  Level(occupancy, drains, quantum));
    }
  }

  lemma BufferedFront(occupancy: nat, drains: seq<nat>, quantum: nat)
    requires drains != [] && Buffered(occupancy, drains, quantum)
    ensures Buffered(occupancy, drains[..|drains| - 1], quantum)
    ensures drains[|drains| - 1] <= Level(occupancy, drains[..|drains| - 1], quantum)
    ensures Level(occupancy, drains, quantum) == Level(occupancy, drains[..|drains| - 1], quantum) - drains[|drains| - 1] + quantum
  {
    var front := drains[..|drains| - 1];
    forall k | 0 <= k < |front|
      ensures front[k] <= Level(occupancy, front[..k], quantum)
    {
      assert front[..k] == drains[..k];
    }
    LevelNext(occupancy, drains, quantum);
  }

  /** One more cycle, given what the ones before it come to. */
  lemma CycleCounts(s: State, occupancy: nat, drains: seq<nat>, blocks: seq<seq<Byte>>, quantum: nat, headroom: nat, capacity: nat,
                    level: int, next: int)
    requires s.cfg.stride > 0 && s.flags.started && 0 < quantum && s.cfg.target + headroom <= capacity / s.cfg.stride
    requires 0 < |drains| == |blocks| && |blocks[|drains| - 1]| == quantum * s.cfg.stride && drains[|drains| - 1] <= level
    requires level == Level(occupancy, drains[..|drains| - 1], quantum) && next == level - drains[|drains| - 1] + quantum
    requires var front, those := drains[..|drains| - 1], blocks[..|drains| - 1];
             && (NoneRefused(s, front, those, headroom, capacity) <==> AllIn(occupancy, front, quantum, s.cfg.target + headroom))
             && (NoneRefused(s, front, those, headroom, capacity) ==>
                   |Cycles(s, front, those, headroom, capacity).stream.ring| == level * s.cfg.stride)
    ensures NoneRefused(s, drains, blocks, headroom, capacity) <==> AllIn(occupancy, drains, quantum, s.cfg.target + headroom)
    ensures NoneRefused(s, drains, blocks, headroom, capacity) ==>
              |Cycles(s, drains, blocks, headroom, capacity).stream.ring| == next * s.cfg.stride
  {
    var n := |drains| - 1;
    if NoneRefused(s, drains[..n], blocks[..n], headroom, capacity) {
      NextCycle(s, level, drains, blocks, quantum, headroom, capacity);
    }
  }

  lemma NextCycle(s: State, level: nat, drains: seq<nat>, blocks: seq<seq<Byte>>, quantum: nat, headroom: nat, capacity: nat)
    requires s.cfg.stride > 0 && s.flags.started && 0 < quantum && s.cfg.target + headroom <= capacity / s.cfg.stride
    requires 0 < |drains| == |blocks| && |blocks[|drains| - 1]| == quantum * s.cfg.stride && drains[|drains| - 1] <= level
    requires NoneRefused(s, drains[..|drains| - 1], blocks[..|drains| - 1], headroom, capacity)
    requires |Cycles(s, drains[..|drains| - 1], blocks[..|drains| - 1], headroom, capacity).stream.ring| == level * s.cfg.stride
    ensures var next := level - drains[|drains| - 1] + quantum;
            && (NoneRefused(s, drains, blocks, headroom, capacity) <==> next <= s.cfg.target + headroom)
            && (NoneRefused(s, drains, blocks, headroom, capacity) ==>
                  |Cycles(s, drains, blocks, headroom, capacity).stream.ring| == next * s.cfg.stride)
  {
    var n := |drains| - 1;
    OfferAfterDrain(Cycles(s, drains[..n], blocks[..n], headroom, capacity), level, drains[n], blocks[n], quantum, headroom, capacity);
  }

  /** Automatic headroom absorbs drains that are behind production by up to what one skipped drain of `chunk` leaves. */
  lemma HeadroomAbsorbsSkippedDrain(occupancy: nat, target: int, drains: seq<nat>, quantum: nat, chunk: nat)
    requires BufferPolicy.MIN_GRAPH_QUANTUM <= quantum <= BufferPolicy.MAX_GRAPH_QUANTUM && chunk > 0 && occupancy <= target
    requires forall k :: 0 < k <= |drains| ==> Level(0, drains[..k], quantum) <= quantum + Max(0, quantum - chunk)
    ensures AllIn(occupancy, drains, quantum, target + BufferPolicy.AutomaticWriteHeadroom(quantum, chunk))
  {
    var limit := target + BufferPolicy.AutomaticWriteHeadroom(quantum, chunk);
    forall k | 0 < k <= |drains|
      ensures Level(occupancy, drains[..k], quantum) <= limit
    {
      assert Level(occupancy, drains[..k], quantum) == occupancy + Level(0, drains[..k], quantum);
    }
    AllInExactlyWhen(occupancy, drains, quantum, limit);
  }
}
