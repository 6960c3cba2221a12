/**
 * `onIso` on an endpoint that capture does not clock, whole: the packet counts the pacer chooses, then the transfer
 * filled from them.
 */
module PacedCompletion {
  import opened Core
  import opened Driver
  import opened Pacing
  import opened CompletionEffects
  import opened Transport

  /** The completion refills its transfer at the pacer's rate. */
  predicate Paces(s: State, status: Status) {
    && status != Cancelled && status != NoDevice && !s.flags.stopRequested
    && !(s.flags.captureActive && s.cfg.implicit)
  }

  /** The frames due at each of the packets from call `from` on. */
  ghost predicate DuePlan(plan: seq<nat>, from: nat, packets: nat, rate: nat, period: nat)
    requires period > 0
  {
    |plan| == packets && forall k :: 0 <= k < packets ==> plan[k] == Pacing.Due(from + k + 1, rate, period) - Pacing.Due(from + k, rate, period)
  }

  /** The endpoint's ceiling leaves room for its own nominal rate, as `startIsoPump` checks. */
  ghost predicate Paced(scheduler: RationalPacketScheduler, seed: nat, maxFrames: nat, physical: nat)
    reads scheduler
  {
    && scheduler.Valid() && seed == Seed(scheduler.rate, scheduler.period as int)
    && physical >= NominalMax(scheduler.rate, scheduler.period as int)
    && maxFrames == MaxFramesPerPacket(physical, scheduler.rate, scheduler.period as int)
  }

  /** The packet loop's counts without a feedback endpoint: what the scheduler owes, which neither fallback nor clamp changes. */
  method PlanNominal(scheduler: RationalPacketScheduler, packets: nat, seed: nat, maxFrames: nat, ghost physical: nat)
      returns (plan: seq<nat>)
    requires Paced(scheduler, seed, maxFrames, physical)
    modifies scheduler`remainder, scheduler`calls
    ensures Paced(scheduler, seed, maxFrames, physical) && scheduler.calls == old(scheduler.calls) + packets
    ensures DuePlan(plan, old(scheduler.calls), packets, scheduler.rate, scheduler.period as int)
    ensures forall k :: 0 <= k < |plan| ==> plan[k] <= maxFrames
  {
    plan := [];
    ghost var from := scheduler.calls;
    for packet := 0 to packets
      invariant Paced(scheduler, seed, maxFrames, physical) && scheduler.calls == from + packet
      invariant DuePlan(plan, from, packet, scheduler.rate, scheduler.period as int)
      invariant forall k :: 0 <= k < |plan| ==> plan[k] <= maxFrames
    {
      PacedClampIsDead(scheduler.calls, scheduler.rate, scheduler.period as int, physical);
      var frames := scheduler.Next();
      plan := plan + [Clamped(frames as nat, seed, maxFrames)];
    }
  }

  /** `onIso` without a feedback endpoint. The scheduler is asked only by a completion that refills its transfer. */
  method OnNominalIso(d: UacDriver, scheduler: RationalPacketScheduler, t: nat, status: Status, ok: bool, seed: nat,
                      ghost physical: nat, ghost s: State)
      returns (plan: seq<nat>)
    requires d.Shape() && d.Refines(s, 0) && t < |s.bus.transfers| && s.bus.inflight > 0 && |s.clock.layouts| <= |s.clock.log|
    requires Paced(scheduler, seed, d.cfg.maxFrames, physical)
    modifies d, d.ring`tail, d.layouts`read, d.pending, d.pending.slots, d.buffers[t], scheduler`remainder, scheduler`calls
    ensures d.Shape() && d.Refines(OnIso(s, t, status, ok, plan), 0) && scheduler.Valid()
    ensures scheduler.calls == old(scheduler.calls) + (if Paces(s, status) then d.cfg.packets else 0)
    ensures Paces(s, status) ==>
              DuePlan(plan, old(scheduler.calls), d.cfg.packets, scheduler.rate, scheduler.period as int)
  {
    plan := seq(d.cfg.packets, _ => 0);
    if status != Cancelled && status != NoDevice && !d.stopRequested && !(d.captureActive && d.cfg.implicit) {
      plan := PlanNominal(scheduler, d.cfg.packets, seed, d.cfg.maxFrames, physical);
    }
    d.OnIso(t, status, ok, plan, s);
  }

  lemma {:induction false} DueSum(plan: seq<nat>, from: nat, rate: nat, period: nat)
    requires period > 0 && DuePlan(plan, from, |plan|, rate, period)
    ensures Sum(plan) == Pacing.Due(from + |plan|, rate, period) - Pacing.Due(from, rate, period)
  {
    if plan != [] {
      DueSum(plan[..|plan| - 1], from, rate, period);
    }
  }

  /**
   * With the PCM there, a completion on such an endpoint sends in each packet exactly the frames due at the device's rate
   * since the packet before, and in all of them what fell due over its packets.
   */
  lemma NominalRateSent(s: State, u: State, t: nat, plan: seq<nat>, from: nat, rate: nat, period: nat, due: nat)
    requires s.cfg.stride > 0 && t < |s.bus.transfers| && SentPaced(s, u, t, plan, true)
    requires period > 0 && DuePlan(plan, from, |plan|, rate, period) && Sum(plan) * s.cfg.stride <= |s.stream.ring|
    requires due == Pacing.Due(from + |plan|, rate, period) - Pacing.Due(from, rate, period)
    ensures t < |u.bus.transfers| && InBytes(u.bus.transfers[t].lengths, plan, s.cfg.stride)
    ensures |u.stream.sent| == |s.stream.sent| + due * s.cfg.stride
  {
    DueSum(plan, from, rate, period);
    PlanSent(s, u, t, plan, due * s.cfg.stride);
  }

  lemma PlanSent(s: State, u: State, t: nat, plan: seq<nat>, n: nat)
    requires s.cfg.stride > 0 && t < |s.bus.transfers| && SentPaced(s, u, t, plan, true)
    requires n == Sum(plan) * s.cfg.stride <= |s.stream.ring|
    ensures t < |u.bus.transfers| && InBytes(u.bus.transfers[t].lengths, plan, s.cfg.stride)
    ensures |u.stream.sent| == |s.stream.sent| + n
  {
    WholePackets(u.bus.transfers[t].lengths, plan, s.cfg.stride, |s.stream.ring|);
    SentWhole(s.stream, u.stream, n);
  }

  lemma WholePackets(lengths: seq<nat>, plan: seq<nat>, stride: nat, buffered: nat)
    requires Packed(lengths, plan, stride, buffered) && Sum(plan) * stride <= buffered
    ensures InBytes(lengths, plan, stride)
  {
    forall k | 0 <= k < |plan|
      ensures lengths[k] == plan[k] * stride
    {
      PlanWhole(plan, k, stride, buffered);
    }
  }

  lemma SentWhole(st: Stream, u: Stream, n: nat)
    requires Moved(st, u, n, true)
    ensures |u.sent| == |st.sent| + n
  {
  }

  // ---- With a feedback endpoint -----------------------------------------------------------------

  /** The packet loop's counts under explicit feedback, and what the accumulator is left holding. */
  method PlanFeedback(pacer: FeedbackPacer, packets: nat) returns (plan: seq<nat>)
    requires pacer.Valid()
    modifies pacer
    ensures pacer.Valid() && |plan| == packets && forall k :: 0 <= k < packets ==> plan[k] <= pacer.maxFrames as int
    ensures pacer.framesPerUframe == old(pacer.framesPerUframe)
    ensures 0x1_0000 * Sum(plan) + pacer.accumulator as int
            == old(pacer.accumulator) as int + packets * pacer.framesPerUframe as int
  {
    plan := [];
    ghost var before, rate := pacer.accumulator as int, pacer.framesPerUframe as int;
    for packet := 0 to packets
      invariant pacer.Valid() && |plan| == packet && pacer.framesPerUframe as int == rate
      invariant forall k :: 0 <= k < packet ==> plan[k] <= pacer.maxFrames as int
      invariant 0x1_0000 * Sum(plan) + pacer.accumulator as int == before + packet * rate
    {
      var frames := pacer.NextPacket();
      assert (plan + [frames as nat])[..packet] == plan;
      assert (packet + 1) * rate == packet * rate + rate;
      plan := plan + [frames as nat];
    }
  }

  /** `onIso` with a feedback endpoint: over its packets the transfer asks for the reported rate, to within the accumulator. */
  method OnFeedbackIso(d: UacDriver, pacer: FeedbackPacer, t: nat, status: Status, ok: bool, ghost s: State)
      returns (plan: seq<nat>)
    requires d.Shape() && d.Refines(s, 0) && t < |s.bus.transfers| && s.bus.inflight > 0 && |s.clock.layouts| <= |s.clock.log|
    requires pacer.Valid() && pacer.maxFrames as int == d.cfg.maxFrames
    modifies d, d.ring`tail, d.layouts`read, d.pending, d.pending.slots, d.buffers[t], pacer
    ensures d.Shape() && d.Refines(OnIso(s, t, status, ok, plan), 0) && pacer.Valid()
    ensures !Paces(s, status) ==> pacer.accumulator == old(pacer.accumulator)
    ensures Paces(s, status) ==>
              0x1_0000 * Sum(plan) + pacer.accumulator as int
              == old(pacer.accumulator) as int + d.cfg.packets * pacer.framesPerUframe as int
  {
    plan := seq(d.cfg.packets, _ => 0);
    if status != Cancelled && status != NoDevice && !d.stopRequested && !(d.captureActive && d.cfg.implicit) {
      plan := PlanFeedback(pacer, d.cfg.packets);
    }
    d.OnIso(t, status, ok, plan, s);
  }
}
