/** What the one check `submitIsoPump` makes, prime against ring, guarantees about the initial transfers. */
module StartGuarantee {
  import opened Core
  import opened Transport
  import BufferPolicy
  import opened InitialPrime

  /** The comparison in `submitIsoPump`: a prime beyond what is buffered refuses the start. */
  predicate CheckPasses(prime: int, buffered: nat) {
    prime <= buffered
  }

  /** Over every ring that passes, the check covers the plan exactly when the configuration was accepted. */
  lemma CheckCoversPlan(frames: int, user: BufferPolicy.Config, periodMultiplier: int, g: BufferPolicy.Geometry)
    requires g.frameStride > 0
    ensures (forall buffered: nat ::
               CheckPasses(BufferPolicy.PublishedPrime(frames, user, periodMultiplier, g), buffered) ==>
                 g.exactInitialFrames <= buffered)
            <==> BufferPolicy.Fits(BufferPolicy.Resolve(frames, user, periodMultiplier, g), g) || g.exactInitialFrames == 0
  {
    BufferPolicy.PublishedPrimeCovers(frames, user, periodMultiplier, g);
    CoversWhenLarge(BufferPolicy.PublishedPrime(frames, user, periodMultiplier, g), g.exactInitialFrames);
  }

  lemma CoversWhenLarge(prime: int, exact: nat)
    ensures (forall buffered: nat :: CheckPasses(prime, buffered) ==> exact <= buffered) <==> prime >= exact || exact == 0
  {
    if prime < exact {
      assert CheckPasses(prime, Max(0, prime));
    }
  }

  /** Under a zero prime, playback starts on an empty ring. */
  lemma ZeroPrimeStartsEmpty(s: State)
    requires s.cfg.stride > 0 && s.cfg.primeFrames == 0 && s.stream.ring == []
    requires !s.flags.started && !s.flags.stopRequested
    ensures StartPlayback(s, s.bus.feedbackPool, |s.bus.transfers|).flags.started
  {
    WholeProduct(0, s.cfg.stride);
  }

  /** Every start on whole frames that passes a prime of `frames`, under every interleaving of admitted commits. */
  ghost predicate StartReadsBack(frames: nat, stride: nat, plans: seq<seq<nat>>, stales: seq<seq<Byte>>, unit: nat, limit: nat)
    requires stride > 0 && unit > 0
  {
    forall ring: seq<Byte> ::
      frames * stride <= |ring| && |ring| % stride == 0 ==> FillReadsBack(ring, plans, stales, unit, limit)
  }

  lemma CoversMore(bytes: nat, more: nat, plans: seq<seq<nat>>)
    requires Covers(bytes, plans) && bytes <= more
    ensures Covers(more, plans)
  {
  }

  /**
   * Exactly when a prime is enough, for commits of `unit` bytes under a limit of `limit` queued bytes: the check then
   * guarantees that the device reads the initial PCM in place.
   */
  lemma StartReadsBackExactlyWhen(frames: nat, stride: nat, plans: seq<seq<nat>>, stales: seq<seq<Byte>>, unit: nat, limit: nat)
    requires Buffered(plans, stales) && stride > 0 && unit > 0
    ensures StartReadsBack(frames, stride, plans, stales, unit, limit)
            <==> Covers(frames * stride, plans) || unit > limit
  {
    var bytes := frames * stride;
    if Covers(bytes, plans) || unit > limit {
      forall ring: seq<Byte> | bytes <= |ring| && |ring| % stride == 0
        ensures FillReadsBack(ring, plans, stales, unit, limit)
      {
        if unit <= limit {
          CoversMore(bytes, |ring|, plans);
        }
        ReadBackExactlyWhenCovered(ring, plans, stales, unit, limit);
      }
    } else {
      var ring: seq<Byte> := seq(bytes, _ => 0);
      WholeProduct(frames, stride);
      ReadBackExactlyWhenCovered(ring, plans, stales, unit, limit);
    }
  }

  /** An accepted configuration is always enough, whatever is committed. */
  lemma AcceptedStartReadsBack(frames: int, user: BufferPolicy.Config, periodMultiplier: int, g: BufferPolicy.Geometry,
                               plans: seq<seq<nat>>, stales: seq<seq<Byte>>, unit: nat, limit: nat)
    requires g.frameStride > 0 && Buffered(plans, stales) && Total(plans) == g.exactInitialFrames * g.frameStride && unit > 0
    requires BufferPolicy.Fits(BufferPolicy.Resolve(frames, user, periodMultiplier, g), g)
    ensures BufferPolicy.PublishedPrime(frames, user, periodMultiplier, g) >= 0
    ensures StartReadsBack(BufferPolicy.PublishedPrime(frames, user, periodMultiplier, g), g.frameStride, plans, stales, unit, limit)
  {
    var prime := BufferPolicy.PublishedPrime(frames, user, periodMultiplier, g);
    BufferPolicy.PublishedPrimeCovers(frames, user, periodMultiplier, g);
    EnoughFrames(prime, g.exactInitialFrames, g.frameStride, plans);
    StartReadsBackExactlyWhen(prime, g.frameStride, plans, stales, unit, limit);
  }

  lemma EnoughFrames(prime: nat, exact: nat, stride: nat, plans: seq<seq<nat>>)
    requires Total(plans) == exact * stride && prime >= exact
    ensures Covers(prime * stride, plans)
  {
    MoreBytes(exact, prime, stride);
    WholePlanCovers(prime * stride, plans);
  }

  lemma MoreBytes(less: nat, more: nat, stride: nat)
    requires less <= more
    ensures less * stride <= more * stride
  {
    assert (more - less) * stride >= 0;
  }

  // ---- Two starts that pass the check uncovered -------------------------------------------------

  /** `transfers` alike, of `packets` packets of `bytes` bytes each. */
  function Alike(transfers: nat, packets: nat, bytes: nat): (plans: seq<seq<nat>>)
    ensures |plans| == transfers && forall t :: 0 <= t < transfers ==> plans[t] == seq(packets, _ => bytes)
  {
    seq(transfers, _ => seq(packets, _ => bytes))
  }

  lemma {:induction false} SumAlike(packets: nat, bytes: nat)
    ensures Sum(seq(packets, _ => bytes)) == packets * bytes
  {
    if packets > 0 {
      assert seq(packets, _ => bytes)[..packets - 1] == seq(packets - 1, _ => bytes);
      SumAlike(packets - 1, bytes);
      assert (packets - 1) * bytes + bytes == packets * bytes;
    }
  }

  lemma LeadAlike(packets: nat, bytes: nat)
    requires packets > 0 && bytes > 0
    ensures Lead(seq(packets, _ => bytes)) == (packets - 1) * bytes
  {
    assert seq(packets, _ => bytes)[..packets - 1] == seq(packets - 1, _ => bytes);
    SumAlike(packets - 1, bytes);
  }

  lemma {:induction false} TotalAlike(transfers: nat, packets: nat, bytes: nat)
    ensures Total(Alike(transfers, packets, bytes)) == transfers * (packets * bytes)
  {
    if transfers > 0 {
      assert Alike(transfers, packets, bytes)[..transfers - 1] == Alike(transfers - 1, packets, bytes);
      TotalAlike(transfers - 1, packets, bytes);
      SumAlike(packets, bytes);
      assert (transfers - 1) * (packets * bytes) + packets * bytes == transfers * (packets * bytes);
    }
  }

  /** A prime that stops short of the last carrying packet of transfer `t` leaves it uncovered. */
  lemma UncoveredAlike(prime: nat, transfers: nat, packets: nat, bytes: nat, t: nat)
    requires t < transfers && packets > 1 && bytes > 0 && prime < t * (packets * bytes) + (packets - 1) * bytes
    ensures !Covers(prime, Alike(transfers, packets, bytes))
  {
    var plans := Alike(transfers, packets, bytes);
    assert plans[..t] == Alike(t, packets, bytes);
    TotalAlike(t, packets, bytes);
    LeadAlike(packets, bytes);
    assert (packets - 1) * bytes > 0;
    assert Lead(plans[t]) > 0;
  }

  /**
   * Under the configuration `BufferPolicy.RefusedPrimeUncovered` refuses, a start on any ring passes. It is safe
   * exactly when no region can still be committed: under the limits the refusal publishes none is reserved, so it
   * takes one reserved before the refusal.
   */
  lemma RefusedStartExactlyWhen(stales: seq<seq<Byte>>, unit: nat, limit: nat)
    requires Buffered(Alike(4, 3, 64), stales) && unit > 0
    ensures BufferPolicy.PublishedPrime(32, BufferPolicy.TARGET_TOO_LARGE, 2, BufferPolicy.NARROW_RING) == 0
    ensures Total(Alike(4, 3, 64)) == BufferPolicy.NARROW_RING.exactInitialFrames * BufferPolicy.NARROW_RING.frameStride
    ensures StartReadsBack(0, BufferPolicy.NARROW_RING.frameStride, Alike(4, 3, 64), stales, unit, limit) <==> unit > limit
  {
    BufferPolicy.RefusedPrimeUncovered();
    TotalAlike(4, 3, 64);
    UncoveredAlike(0, 4, 3, 64, 0);
    StartReadsBackExactlyWhen(0, 8, Alike(4, 3, 64), stales, unit, limit);
  }

  const WIDE_STRIDE: nat := 64        // sixteen four-byte channels
  const WIDE_PRIME: nat := 960        // what `BufferPolicy.StoredPrimeUncovered` stores for it

  /** Frames, then bytes, a started producer may have queued by default, within the default ring. */
  const WIDE_LIMIT: nat := (BufferPolicy.DEFAULT_TARGET + BufferPolicy.DEFAULT_HEADROOM) * WIDE_STRIDE
  const WIDE_QUANTUM: nat := BufferPolicy.DEFAULT_QUANTUM * WIDE_STRIDE

  /**
   * With the defaults in force and no configuration applied, a start passes that the device misreads when one whole
   * quantum, admitted under the default limits, lands inside the fill.
   */
  lemma DefaultStartMisreads(stales: seq<seq<Byte>>)
    requires Buffered(Alike(8, 8, 24 * WIDE_STRIDE), stales)
    ensures BufferPolicy.StartupPrime(BufferPolicy.InitialCeiling(WIDE_STRIDE, BufferPolicy.DEFAULT_QUANTUM), 8 * (8 * 24),
                                      BufferPolicy.DEFAULT_TARGET) == WIDE_PRIME
    ensures 0 < WIDE_QUANTUM <= WIDE_LIMIT <= BufferPolicy.RING_BYTES && WIDE_PRIME * WIDE_STRIDE <= BufferPolicy.RING_BYTES
    ensures !StartReadsBack(WIDE_PRIME, WIDE_STRIDE, Alike(8, 8, 24 * WIDE_STRIDE), stales, WIDE_QUANTUM, WIDE_LIMIT)
  {
    BufferPolicy.StoredPrimeUncovered();
    UncoveredAlike(WIDE_PRIME * WIDE_STRIDE, 8, 8, 24 * WIDE_STRIDE, 5);
    StartReadsBackExactlyWhen(WIDE_PRIME, WIDE_STRIDE, Alike(8, 8, 24 * WIDE_STRIDE), stales, WIDE_QUANTUM, WIDE_LIMIT);
  }
}
