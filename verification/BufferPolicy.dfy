/**
 * Frame budgets: how a userspace buffer configuration is resolved, checked and published, and what the
 * published limits guarantee to the ring and to the initial prime.
 */
module BufferPolicy {
  import opened Core

  const EXPLICIT_ZERO_FRAMES: int := -1
  const MIN_GRAPH_QUANTUM: int := 4
  const MAX_GRAPH_QUANTUM: int := 1024
  const INT_MAX: int := 0x7fff_ffff

  // In force until a configuration is applied.
  const DEFAULT_QUANTUM: int := 64
  const DEFAULT_TARGET: int := 128
  const DEFAULT_HEADROOM: int := 64

  datatype Config = Config(
    playbackTargetFrames: int, startupPrimeFrames: int, writeHeadroomFrames: int,
    captureLimitFrames: int, captureTargetFrames: int, captureHeadroomFrames: int,
    captureDeadlineSlackFrames: int)

  /** What stream negotiation fixed before the configuration is applied. */
  datatype Geometry = Geometry(
    frameStride: nat, captureStride: nat, ringBytes: nat,
    transferCount: nat, exactInitialFrames: nat, nominalChunk: nat, captureTransferFrames: nat)

  function Clamp(x: int, low: int, high: int): int {
    Max(low, Min(x, high))
  }

  function CheckedFrameBudgetFits(first: int, second: int, third: int, capacity: int): (fits: bool)
    ensures fits <==> first >= 0 && second >= 0 && third >= 0 && first + second + third <= capacity
  {
    if first < 0 || second < 0 || third < 0 || capacity < 0 then false else first + second + third <= capacity
  }

  function ResolveOptional(requested: int, automatic: int): int {
    if requested == EXPLICIT_ZERO_FRAMES then 0 else if requested == 0 then automatic else requested
  }

  function AutomaticWriteHeadroom(graphQuantum: int, drainChunk: int): int {
    var quantum := Max(0, graphQuantum);
    if drainChunk <= 0 then quantum
    else
      var step := if quantum > drainChunk then quantum - drainChunk else 0;
      if quantum > INT_MAX - step then INT_MAX else quantum + step
  }

  function AutomaticPlaybackTarget(quantum: int, drainChunk: int, periodTarget: int): int {
    if quantum <= 0 || drainChunk <= 0 then periodTarget
    else if quantum > MAX_GRAPH_QUANTUM - drainChunk then MAX_GRAPH_QUANTUM
    else quantum + drainChunk
  }

  function StartupPrime(maxTarget: int, exactInitial: int, target: int): int {
    if maxTarget <= 0 then 0 else Min(maxTarget, Max(0, Max(exactInitial, target)))
  }

  /** The automatic prime covers the initial plan exactly when the ceiling leaves room for it. */
  lemma PrimeCoversPlan(maxTarget: int, exactInitial: nat, target: int)
    ensures StartupPrime(maxTarget, exactInitial, target) >= exactInitial <==> exactInitial <= Max(0, maxTarget)
  {
  }

  /** A configuration with every automatic term filled in. */
  datatype Resolved = Resolved(
    quantum: int, target: int, prime: int, headroom: int,
    captureTarget: int, captureHeadroom: int, captureSlack: int)

  function Resolve(frames: int, user: Config, periodMultiplier: int, g: Geometry): Resolved
    requires g.frameStride > 0
  {
    var quantum := Clamp(frames, MIN_GRAPH_QUANTUM, MAX_GRAPH_QUANTUM);
    var periodTarget := Min(MAX_GRAPH_QUANTUM, quantum * Clamp(periodMultiplier, 1, 8));
    var drainChunk := if g.transferCount > 0 then g.exactInitialFrames / g.transferCount else 0;
    var headroom := if user.writeHeadroomFrames == 0 then AutomaticWriteHeadroom(quantum, drainChunk)
                    else user.writeHeadroomFrames;
    var target := if user.playbackTargetFrames == 0
                  then AutomaticPlaybackTarget(quantum, g.nominalChunk, periodTarget)
                  else user.playbackTargetFrames;
    var prime := if user.startupPrimeFrames == 0
                 then StartupPrime(g.ringBytes / g.frameStride, g.exactInitialFrames, target)
                 else user.startupPrimeFrames;
    var wave := Max(1, g.captureTransferFrames);
    Resolved(quantum, target, prime, headroom,
             ResolveOptional(user.captureTargetFrames, wave),
             ResolveOptional(user.captureHeadroomFrames, wave),
             ResolveOptional(user.captureDeadlineSlackFrames, wave))
  }

  /** The budgets the ring must hold for a configuration to be accepted. */
  predicate Fits(r: Resolved, g: Geometry)
    requires g.frameStride > 0
  {
    var physical := g.ringBytes / g.frameStride;
    && r.target >= 0 && r.headroom >= 0 && r.target + r.headroom <= physical
    && g.exactInitialFrames <= r.prime <= physical
    && r.captureTarget >= 0 && r.captureHeadroom >= 0
    && Max(1, g.captureTransferFrames) + r.captureTarget + r.captureHeadroom <= physical
  }

  /**
   * What each field comes to. Explicit terms are taken as they are; automatic ones are the graph quantum and the drain
   * chunk put together, and one capture wave for every capture term, which alone can be asked to be zero.
   */
  lemma ResolvedTerms(frames: int, user: Config, periodMultiplier: int, g: Geometry)
    requires g.frameStride > 0
    ensures var r := Resolve(frames, user, periodMultiplier, g);
            var chunk := if g.transferCount > 0 then g.exactInitialFrames / g.transferCount else 0;
            var physical := g.ringBytes / g.frameStride;
            && 4 <= r.quantum <= 1024 && (4 <= frames <= 1024 ==> r.quantum == frames)
            && (frames < 4 ==> r.quantum == 4) && (frames > 1024 ==> r.quantum == 1024)
            && (user.writeHeadroomFrames != 0 ==> r.headroom == user.writeHeadroomFrames)
            && (user.writeHeadroomFrames == 0 ==>
                  r.headroom == if 0 < chunk < r.quantum then 2 * r.quantum - chunk else r.quantum)
            && (user.playbackTargetFrames != 0 ==> r.target == user.playbackTargetFrames)
            && (user.playbackTargetFrames == 0 && g.nominalChunk > 0 ==> r.target == Min(1024, r.quantum + g.nominalChunk))
            && (user.playbackTargetFrames == 0 && g.nominalChunk == 0 ==>
                  && (periodMultiplier < 1 ==> r.target == r.quantum)
                  && (1 <= periodMultiplier <= 8 ==> r.target == Min(1024, r.quantum * periodMultiplier))
                  && (8 < periodMultiplier ==> r.target == Min(1024, r.quantum * 8)))
            && (user.startupPrimeFrames != 0 ==> r.prime == user.startupPrimeFrames)
            && (user.startupPrimeFrames == 0 ==>
                  && 0 <= r.prime <= physical && r.prime <= Max(0, Max(g.exactInitialFrames, r.target))
                  && (r.prime == physical || (r.prime >= g.exactInitialFrames && r.prime >= r.target)))
  {
    DivMonotone(0, g.ringBytes, g.frameStride);
    WholeProduct(0, g.frameStride);
  }

  /** Capture target, headroom and deadline slack alike: zero asks for a wave, -1 for none, anything else for itself. */
  ghost predicate CaptureTerm(resolved: int, asked: int, wave: nat) {
    resolved == match asked case 0 => (if wave > 0 then wave else 1) case -1 => 0 case _ => asked
  }

  lemma ResolvedCaptureTerms(frames: int, user: Config, periodMultiplier: int, g: Geometry)
    requires g.frameStride > 0
    ensures var r := Resolve(frames, user, periodMultiplier, g);
            && CaptureTerm(r.captureTarget, user.captureTargetFrames, g.captureTransferFrames)
            && CaptureTerm(r.captureHeadroom, user.captureHeadroomFrames, g.captureTransferFrames)
            && CaptureTerm(r.captureSlack, user.captureDeadlineSlackFrames, g.captureTransferFrames)
  {
  }

  /** Accepted exactly when playback target and headroom, the prime, and wave, capture target and headroom each fit the ring's bytes. */
  lemma AcceptedExactlyWhen(frames: int, user: Config, periodMultiplier: int, g: Geometry)
    requires g.frameStride > 0
    ensures var r := Resolve(frames, user, periodMultiplier, g); var stride := g.frameStride;
            Fits(r, g) <==>
              && 0 <= r.target && 0 <= r.headroom && (r.target + r.headroom) * stride <= g.ringBytes
              && g.exactInitialFrames <= r.prime && r.prime * stride <= g.ringBytes
              && 0 <= r.captureTarget && 0 <= r.captureHeadroom
              && ((if g.captureTransferFrames > 0 then g.captureTransferFrames else 1) + r.captureTarget + r.captureHeadroom) * stride
                 <= g.ringBytes
  {
    var r := Resolve(frames, user, periodMultiplier, g);
    InBytes(r.target + r.headroom, g.ringBytes, g.frameStride);
    InBytes(r.prime, g.ringBytes, g.frameStride);
    InBytes(Max(1, g.captureTransferFrames) + r.captureTarget + r.captureHeadroom, g.ringBytes, g.frameStride);
  }

  lemma InBytes(frames: int, bytes: nat, stride: nat)
    requires stride > 0
    ensures frames <= bytes / stride <==> frames * stride <= bytes
  {
    assert bytes / stride * stride == bytes - bytes % stride;
    if frames <= bytes / stride {
      assert (bytes / stride - frames) * stride >= 0;
    } else {
      LargeMultiple(frames - bytes / stride, stride);
      assert (frames - bytes / stride) * stride == frames * stride - bytes / stride * stride;
    }
  }

  /** An automatic prime never refuses a configuration whose initial plan and target fit the ring. */
  lemma AutomaticPrimeFits(frames: int, user: Config, periodMultiplier: int, g: Geometry)
    requires g.frameStride > 0 && user.startupPrimeFrames == 0
    ensures var r := Resolve(frames, user, periodMultiplier, g);
            g.exactInitialFrames <= r.prime <= g.ringBytes / g.frameStride
            <==> g.exactInitialFrames <= g.ringBytes / g.frameStride
  {
    DivMonotone(0, g.ringBytes, g.frameStride);
    PrimeCoversPlan(g.ringBytes / g.frameStride, g.exactInitialFrames,
                    Resolve(frames, user, periodMultiplier, g).target);
  }

  /** What `startupPrimeFrames_` holds once a configuration has been applied. */
  function PublishedPrime(frames: int, user: Config, periodMultiplier: int, g: Geometry): int
    requires g.frameStride > 0
  {
    var r := Resolve(frames, user, periodMultiplier, g);
    if Fits(r, g) then r.prime else 0
  }

  /** The published prime covers the initial plan exactly when the configuration was accepted, an empty plan aside. */
  lemma PublishedPrimeCovers(frames: int, user: Config, periodMultiplier: int, g: Geometry)
    requires g.frameStride > 0
    ensures PublishedPrime(frames, user, periodMultiplier, g) >= g.exactInitialFrames
            <==> Fits(Resolve(frames, user, periodMultiplier, g), g) || g.exactInitialFrames == 0
  {
  }

  /** Eight bytes a frame, a 4096-byte ring, four transfers of 24 frames, and a target beyond the ring. */
  const NARROW_RING: Geometry := Geometry(8, 8, 4096, 4, 96, 24, 32)
  const TARGET_TOO_LARGE: Config := Config(600, 0, 0, 0, 0, 0, 0)

  /** A refused configuration publishes a prime short of a plan that fits the ring with room to spare. */
  lemma RefusedPrimeUncovered()
    ensures !Fits(Resolve(32, TARGET_TOO_LARGE, 2, NARROW_RING), NARROW_RING)
    ensures PublishedPrime(32, TARGET_TOO_LARGE, 2, NARROW_RING) == 0 < NARROW_RING.exactInitialFrames
    ensures NARROW_RING.exactInitialFrames <= NARROW_RING.ringBytes / NARROW_RING.frameStride
  {
  }

  // ---- The prime `startIsoPump` stores --------------------------------------------------------

  const RING_BYTES: nat := 0x1_0000

  /** Its ceiling: the default ring less one quantum, whatever ring was configured. */
  function InitialCeiling(frameStride: nat, graphQuantum: int): (ceiling: int)
    ensures ceiling >= 0
  {
    Max(0, RING_BYTES / Max(1, frameStride) - graphQuantum)
  }

  /** The stored prime: plan or target, whichever is more, unless the ceiling is lower, which is the ring less a quantum. */
  lemma StoredPrimeIs(frameStride: nat, graphQuantum: nat, exactInitial: nat, target: int)
    requires frameStride > 0
    ensures var ceiling := InitialCeiling(frameStride, graphQuantum);
            && (ceiling > 0 ==> (ceiling + graphQuantum) * frameStride <= 0x1_0000 < (ceiling + graphQuantum + 1) * frameStride)
            && (ceiling == 0 ==> 0x1_0000 < (graphQuantum + 1) * frameStride)
            && StartupPrime(ceiling, exactInitial, target) == Min(ceiling, Max(exactInitial, target))
  {
    var q := RING_BYTES / frameStride;
    assert RING_BYTES == q * frameStride + RING_BYTES % frameStride;
    assert (q + 1) * frameStride == q * frameStride + frameStride;
    if q <= graphQuantum {
      assert (graphQuantum - q) * frameStride >= 0;
      assert (graphQuantum + 1) * frameStride == (graphQuantum - q) * frameStride + (q + 1) * frameStride;
    }
  }

  /** Eight transfers of 192 frames on sixteen four-byte channels exceed what the default quantum leaves. */
  lemma StoredPrimeUncovered()
    ensures StartupPrime(InitialCeiling(64, DEFAULT_QUANTUM), 1536, DEFAULT_TARGET) == 960 < 1536
  {
  }

  /** The published limits, as the ring and the start check read them. */
  class Settings {
    var graphQuantum: int
    var playbackTargetFrames: int
    var startupPrimeFrames: int
    var writeHeadroomFrames: int
    var captureLimitFrames: int
    var captureTargetFrames: int
    var captureHeadroomFrames: int
    var captureDeadlineSlackFrames: int

    ghost predicate Refused()
      reads this
    {
      && playbackTargetFrames == startupPrimeFrames == writeHeadroomFrames == 0
      && captureLimitFrames == captureTargetFrames == captureHeadroomFrames == captureDeadlineSlackFrames == 0
    }

    /** Everything an accepted configuration promises about the ring it was checked against. */
    ghost predicate Accepted(g: Geometry)
      requires g.frameStride > 0
      reads this
    {
      var physical := g.ringBytes / g.frameStride;
      && MIN_GRAPH_QUANTUM <= graphQuantum <= MAX_GRAPH_QUANTUM
      && playbackTargetFrames >= 0 && writeHeadroomFrames >= 0
      && playbackTargetFrames + writeHeadroomFrames <= physical
      && g.exactInitialFrames <= startupPrimeFrames <= physical
      && captureTargetFrames >= 0 && captureHeadroomFrames >= 0
      && Max(1, g.captureTransferFrames) + captureTargetFrames + captureHeadroomFrames <= physical
    }

    /** The end of `startIsoPump`: the prime in force until a configuration is applied. */
    method StoreStartupPrime(g: Geometry)
      modifies this`startupPrimeFrames
      ensures startupPrimeFrames
              == StartupPrime(InitialCeiling(g.frameStride, graphQuantum), g.exactInitialFrames, playbackTargetFrames)
      ensures startupPrimeFrames >= g.exactInitialFrames
              <==> g.exactInitialFrames <= InitialCeiling(g.frameStride, graphQuantum)
    {
      var physicalFrames := RING_BYTES / Max(1, g.frameStride);
      var maxPrime := Max(0, physicalFrames - graphQuantum);
      PrimeCoversPlan(maxPrime, g.exactInitialFrames, playbackTargetFrames);
      startupPrimeFrames := StartupPrime(maxPrime, g.exactInitialFrames, playbackTargetFrames);
    }

    /** `setUserspaceBufferConfig`: published whole, or everything zeroed. */
    method SetUserspaceBufferConfig(frames: int, user: Config, periodMultiplier: int, g: Geometry)
      requires g.frameStride > 0
      modifies this
      ensures var r := Resolve(frames, user, periodMultiplier, g);
              if Fits(r, g) then
                && Accepted(g)
                && graphQuantum == r.quantum && playbackTargetFrames == r.target && startupPrimeFrames == r.prime
                && writeHeadroomFrames == r.headroom && captureLimitFrames == user.captureLimitFrames
                && captureTargetFrames == r.captureTarget && captureHeadroomFrames == r.captureHeadroom
                && captureDeadlineSlackFrames == r.captureSlack
              else Refused() && graphQuantum == old(graphQuantum)
      ensures startupPrimeFrames == PublishedPrime(frames, user, periodMultiplier, g)
      ensures startupPrimeFrames >= g.exactInitialFrames
              <==> Fits(Resolve(frames, user, periodMultiplier, g), g) || g.exactInitialFrames == 0
    {
      var r := Resolve(frames, user, periodMultiplier, g);
      if !Fits(r, g) {
        playbackTargetFrames, startupPrimeFrames, writeHeadroomFrames := 0, 0, 0;
        captureLimitFrames, captureTargetFrames := 0, 0;
        captureHeadroomFrames, captureDeadlineSlackFrames := 0, 0;
        return;
      }
      graphQuantum := r.quantum;
      playbackTargetFrames, startupPrimeFrames, writeHeadroomFrames := r.target, r.prime, r.headroom;
      captureLimitFrames, captureTargetFrames := user.captureLimitFrames, r.captureTarget;
      captureHeadroomFrames, captureDeadlineSlackFrames := r.captureHeadroom, r.captureSlack;
    }

    /** `writableFrames` for a ring holding `usedBytes`. */
    function Writable(started: bool, usedBytes: nat, ringBytes: nat, frameStride: nat): int
      requires frameStride > 0 && usedBytes <= ringBytes
      reads this
    {
      var queued := usedBytes / frameStride;
      var limit := (if started then playbackTargetFrames else startupPrimeFrames) + writeHeadroomFrames;
      Min((ringBytes - usedBytes) / frameStride, if queued < limit then limit - queued else 0)
    }

    /** A refused configuration admits nothing, before the start or after it. */
    lemma RefusedAdmitsNothing(started: bool, usedBytes: nat, ringBytes: nat, frameStride: nat)
      requires Refused() && frameStride > 0 && usedBytes <= ringBytes
      ensures Writable(started, usedBytes, ringBytes, frameStride) == 0
    {
      DivMonotone(0, ringBytes - usedBytes, frameStride);
      WholeProduct(0, frameStride);
    }

    /**
     * An accepted one leaves room, frame by frame, up to the prime the start check waits for, which covers the
     * initial plan; what a producer of whole quanta makes of that room is another matter.
     */
    lemma AcceptedReachesPrime(g: Geometry, frames: nat)
      requires g.frameStride > 0 && Accepted(g) && frames * g.frameStride <= g.ringBytes && frames < startupPrimeFrames
      ensures Writable(false, frames * g.frameStride, g.ringBytes, g.frameStride) >= startupPrimeFrames - frames
      ensures g.exactInitialFrames <= startupPrimeFrames
    {
      WholeProduct(frames, g.frameStride);
      FreeFrames(g.ringBytes, frames, g.frameStride);
    }
  }

  lemma FreeFrames(ringBytes: nat, frames: nat, stride: nat)
    requires stride > 0 && frames * stride <= ringBytes
    ensures (ringBytes - frames * stride) / stride == ringBytes / stride - frames
  {
    var q := ringBytes / stride;
    assert ringBytes == q * stride + ringBytes % stride;
    assert (q - frames) * stride == q * stride - frames * stride;
    if q < frames {
      LargeMultiple(q - frames, stride);
    }
    DivModUnique(q - frames, ringBytes % stride, stride);
  }

  /**
   * The capture budget is checked against the playback ring's frame count. Every budget so accepted
   * fits the capture ring, which has the same bytes, exactly when capture frames are no fewer to the ring.
   */
  lemma CaptureBudgetFits(g: Geometry)
    requires g.frameStride > 0 && g.captureStride > 0 && g.ringBytes / g.frameStride >= 1
    ensures (forall wave: nat, target: nat, headroom: nat ::
               wave >= 1 && CheckedFrameBudgetFits(wave, target, headroom, g.ringBytes / g.frameStride) ==>
                 CheckedFrameBudgetFits(wave, target, headroom, g.ringBytes / g.captureStride))
            <==> g.ringBytes / g.frameStride <= g.ringBytes / g.captureStride
  {
    var playback, capture := g.ringBytes / g.frameStride, g.ringBytes / g.captureStride;
    if playback > capture {
      assert CheckedFrameBudgetFits(playback, 0, 0, playback);
      assert !CheckedFrameBudgetFits(playback, 0, 0, capture);
    }
  }

  /** Stereo out of a wide capture device: the automatic capture budget is accepted and does not fit. */
  const WIDE_CAPTURE: Geometry := Geometry(4, 32, 4096, 4, 96, 24, 96)
  const AUTOMATIC: Config := Config(0, 0, 0, 0, 0, 0, 0)

  lemma AcceptedCaptureOverflows()
    ensures var r := Resolve(32, AUTOMATIC, 3, WIDE_CAPTURE);
            && Fits(r, WIDE_CAPTURE)
            && !CheckedFrameBudgetFits(WIDE_CAPTURE.captureTransferFrames, r.captureTarget, r.captureHeadroom,
                                       WIDE_CAPTURE.ringBytes / WIDE_CAPTURE.captureStride)
  {
  }
}
