/**
 * The driver's completion path over real storage: a byte ring, one buffer per OUT transfer, the
 * layout FIFO and the deferral array. Each callback is proved to be the transport step of the same
 * name, and the bytes the device reads from a submitted buffer to be that step's payload.
 */
module Driver {
  import opened Core
  import opened DeviceWire
  import opened Transport
  import opened TransportInvariants
  import opened TransportSafety
  import opened TransportRuns
  import opened InitialSubmission
  import opened PlaybackRing
  import opened DriverQueues

  lemma PacketRoom(lengths: seq<nat>, frames: nat, packets: nat, maxFrames: nat, stride: nat)
    requires |lengths| < packets && frames <= maxFrames && Within(lengths, maxFrames * stride)
    ensures Sum(lengths) + frames * stride <= packets * (maxFrames * stride)
  {
    var bound := maxFrames * stride;
    SumBound(lengths, bound);
    ScaleBound(frames, maxFrames, stride);
    ScaleBound(|lengths| + 1, packets, bound);
    assert |lengths| * bound + bound == (|lengths| + 1) * bound;
  }

  lemma FillStep(ring: seq<Byte>, plan: seq<nat>, packet: nat, stride: nat)
    requires packet < |plan|
    ensures var g := Fill(ring, plan[..packet], stride); var n := Min(plan[packet] * stride, |g.rest|);
            Fill(ring, plan[..packet + 1], stride) == Filled(g.lengths + [n], g.payload + g.rest[..n], g.rest[n..])
  {
    assert plan[..packet + 1][..packet] == plan[..packet];
  }

  /** A packet's bytes go where the lengths already written say they start; a zero-length one drains nothing. */
  method DrainPacket(ring: ByteRing, buffer: array<Byte>, offset: nat, bytes: nat) returns (drained: nat)
    requires ring.Valid() && ring.data != buffer && offset + bytes <= buffer.Length
    modifies ring`tail, buffer
    ensures ring.Valid() && drained == Min(bytes, |old(ring.Contents())|)
    ensures ring.Contents() == old(ring.Contents())[drained..]
    ensures buffer[..offset + drained] == old(buffer[..offset]) + old(ring.Contents())[..drained]
  {
    drained := 0;
    if bytes > 0 {
      drained := ring.Drain(buffer, offset, bytes);
    }
    assert buffer[..offset] == old(buffer[..offset]);
    assert buffer[..offset + drained] == buffer[..offset] + buffer[offset..offset + drained];
  }

  /**
   * A transfer part way through its fill: the next packet goes to `offset`, which the device agrees with for
   * as long as the ring has anything to put there.
   */
  ghost predicate Placed(buffer: seq<Byte>, ring: seq<Byte>, f: Filled, lengths: seq<nat>, offset: nat) {
    && lengths == f.lengths && ring == f.rest
    && Sum(lengths) <= offset <= |buffer| && (Sum(lengths) == offset || ring == [])
    && buffer[..Sum(lengths)] == f.payload
  }

  method PlacePacket(ring: ByteRing, buffer: array<Byte>, bytes: nat, before: seq<nat>, offset: nat,
                     ghost f: Filled, ghost g: Filled)
      returns (lengths: seq<nat>)
    requires ring.Valid() && ring.data != buffer && offset + bytes <= buffer.Length
    requires Placed(buffer[..], ring.Contents(), f, before, offset)
    requires var n := Min(bytes, |f.rest|); g == Filled(f.lengths + [n], f.payload + f.rest[..n], f.rest[n..])
    modifies ring`tail, buffer
    ensures ring.Valid() && Placed(buffer[..], ring.Contents(), g, lengths, offset + bytes)
  {
    var drained := DrainPacket(ring, buffer, offset, bytes);
    lengths := before + [drained];
    assert lengths[..|before|] == before;
    assert buffer[..][..offset + drained] == buffer[..offset + drained];
    if Sum(before) < offset {
      assert drained == 0;
      assert buffer[..offset][..Sum(before)] == old(buffer[..offset])[..Sum(before)];
    }
  }

  /** The packet loop of `prepareImplicitTransfer` and of the paced branch of `onIso`: each packet right behind the last. */
  method FillPackets(ring: ByteRing, buffer: array<Byte>, plan: seq<nat>, maxFrames: nat, stride: nat)
      returns (lengths: seq<nat>)
    requires ring.Valid() && ring.data != buffer && stride > 0
    requires forall k :: 0 <= k < |plan| ==> plan[k] <= maxFrames
    requires buffer.Length == |plan| * (maxFrames * stride)
    modifies ring`tail, buffer
    ensures ring.Valid()
    ensures var f := Fill(old(ring.Contents()), plan, stride);
            && lengths == f.lengths && ring.Contents() == f.rest
            && Sum(lengths) <= buffer.Length && buffer[..Sum(lengths)] == f.payload
  {
    lengths := [];
    ghost var start := ring.Contents();
    var packet := 0;
    while packet < |plan|
      invariant packet <= |plan| && |lengths| == packet && ring.Valid()
      invariant Within(lengths, maxFrames * stride)
      invariant Placed(buffer[..], ring.Contents(), Fill(start, plan[..packet], stride), lengths, Sum(lengths))
    {
      ghost var f := Fill(start, plan[..packet], stride);
      var bytes := plan[packet] * stride;
      PacketRoom(lengths, plan[packet], |plan|, maxFrames, stride);
      ScaleBound(plan[packet], maxFrames, stride);
      FillStep(start, plan, packet, stride);
      WithinNext(lengths, Min(bytes, |f.rest|), maxFrames * stride);
      lengths := PlacePacket(ring, buffer, bytes, lengths, Sum(lengths), f, Fill(start, plan[..packet + 1], stride));
      packet := packet + 1;
    }
    assert plan[..|plan|] == plan;
    assert buffer[..][..Sum(lengths)] == buffer[..Sum(lengths)];
  }

  ghost predicate Within(lengths: seq<nat>, bound: nat) {
    forall k :: 0 <= k < |lengths| ==> lengths[k] <= bound
  }

  lemma WithinNext(lengths: seq<nat>, next: nat, bound: nat)
    requires Within(lengths, bound) && next <= bound
    ensures Within(lengths + [next], bound)
  {
  }

  /** The plan's frames, and the bytes `submitIsoPump` reads straight from the descriptors. */
  lemma PlannedStep(start: seq<Byte>, planned: seq<nat>, packet: nat, stride: nat)
    requires stride > 0 && packet < |planned| && AllWhole(planned, stride)
    ensures var plan := DescriptorFrames(planned, stride);
            var f := Fill(start, plan[..packet], stride); var n := Min(planned[packet], |f.rest|);
            Fill(start, plan[..packet + 1], stride) == Filled(f.lengths + [n], f.payload + f.rest[..n], f.rest[n..])
  {
    var plan := DescriptorFrames(planned, stride);
    WholeFrames(planned[packet], stride);
    FillStepBytes(start, plan, packet, stride, planned[packet]);
  }

  lemma FillStepBytes(start: seq<Byte>, plan: seq<nat>, packet: nat, stride: nat, bytes: nat)
    requires packet < |plan| && plan[packet] * stride == bytes
    ensures var f := Fill(start, plan[..packet], stride); var n := Min(bytes, |f.rest|);
            Fill(start, plan[..packet + 1], stride) == Filled(f.lengths + [n], f.payload + f.rest[..n], f.rest[n..])
  {
    FillStep(start, plan, packet, stride);
  }

  /** `submitIsoPump`'s packet loop: each packet at the sum of the planned lengths before it, each length what was drained. */
  method FillPlanned(ring: ByteRing, buffer: array<Byte>, planned: seq<nat>, stride: nat) returns (lengths: seq<nat>)
    requires ring.Valid() && ring.data != buffer && stride > 0
    requires AllWhole(planned, stride) && Sum(planned) <= buffer.Length
    modifies ring`tail, buffer
    ensures ring.Valid()
    ensures var f := Fill(old(ring.Contents()), DescriptorFrames(planned, stride), stride);
            && lengths == f.lengths && ring.Contents() == f.rest
            && Sum(lengths) <= buffer.Length && buffer[..Sum(lengths)] == f.payload
  {
    ghost var start, plan := ring.Contents(), DescriptorFrames(planned, stride);
    lengths := [];
    var offset := 0;
    for packet := 0 to |planned|
      invariant ring.Valid() && offset == Sum(planned[..packet])
      invariant Placed(buffer[..], ring.Contents(), Fill(start, plan[..packet], stride), lengths, offset)
    {
      PlannedStep(start, planned, packet, stride);
      PlannedRoom(planned, packet);
      lengths := PlacePacket(ring, buffer, planned[packet], lengths, offset,
                             Fill(start, plan[..packet], stride), Fill(start, plan[..packet + 1], stride));
      offset := offset + planned[packet];
    }
    assert plan[..|planned|] == plan;
    assert buffer[..][..Sum(lengths)] == buffer[..Sum(lengths)];
  }

  lemma PlannedRoom(planned: seq<nat>, packet: nat)
    requires packet < |planned|
    ensures Sum(planned[..packet + 1]) == Sum(planned[..packet]) + planned[packet] <= Sum(planned)
  {
    assert planned[..packet + 1][..packet] == planned[..packet];
    SumPrefix(planned, packet + 1);
  }

  method FramesOf(lengths: seq<nat>, stride: nat) returns (frames: nat)
    requires stride > 0
    ensures frames == Frames(lengths, stride)
  {
    frames := 0;
    var p := 0;
    while p < |lengths|
      invariant p <= |lengths| && frames == Frames(lengths[..p], stride)
    {
      frames := frames + lengths[p] / stride;
      p := p + 1;
      assert lengths[..p][..p - 1] == lengths[..p - 1];
    }
    assert lengths[..p] == lengths;
  }

  /** A transfer prepared but not yet submitted: layouts taken, bytes drained, descriptors rewritten. */
  ghost function Prepared(s: State, t: nat): State
    requires s.cfg.stride > 0 && t < |s.bus.transfers| && CanPrepare(s) && |s.clock.layouts| <= |s.clock.log|
  {
    FillLengths(s.stream.ring, NextPlan(s), s.cfg.stride);
    var f := NextFill(s);
    s.(stream := s.stream.(ring := f.rest), clock := Take(s.clock, f.lengths, s.cfg.stride),
       bus := s.bus.(transfers := s.bus.transfers[t := s.bus.transfers[t].(lengths := f.lengths)]))
  }

  /** What preparing a transfer amounts to for the driver's fields. */
  ghost predicate PreparedAs(s: State, t: nat, f: Filled, p: State) {
    && t < |s.bus.transfers| && |s.clock.layouts| >= s.cfg.packets
    && p == s.(stream := p.stream, clock := p.clock, bus := s.bus.(transfers := p.bus.transfers))
    && p.stream == s.stream.(ring := f.rest)
    && p.clock.layouts == s.clock.layouts[s.cfg.packets..] && p.clock.overruns == s.clock.overruns
    && p.bus.transfers == s.bus.transfers[t := s.bus.transfers[t].(lengths := f.lengths)]
  }

  lemma PreparedFields(s: State, t: nat)
    requires s.cfg.stride > 0 && t < |s.bus.transfers| && CanPrepare(s) && |s.clock.layouts| <= |s.clock.log|
    ensures PreparedAs(s, t, NextFill(s), Prepared(s, t))
  {
    FillLengths(s.stream.ring, NextPlan(s), s.cfg.stride);
  }

  ghost function Sent(p: State, payload: seq<Byte>): State {
    p.(stream := p.stream.(sent := p.stream.sent + payload))
  }

  /** `u` is `p` after one submission attempt of `payload`, as far as the driver's fields go. */
  ghost predicate Attempted(p: State, u: State, frames: nat, payload: seq<Byte>, ok: bool, implicit: bool) {
    && u.cfg == p.cfg && u.clock.layouts == p.clock.layouts && u.clock.overruns == p.clock.overruns
    && u.ledger.credit == p.ledger.credit && u.stream.ring == p.stream.ring
    && u.bus.captureInflight == p.bus.captureInflight && u.bus.pending == p.bus.pending
    && |u.bus.transfers| == |p.bus.transfers|
    && (forall k :: 0 <= k < |u.bus.transfers| ==> u.bus.transfers[k].lengths == p.bus.transfers[k].lengths)
    && u.bus.inflight == p.bus.inflight + (if ok then 1 else 0)
    && u.bus.queued == p.bus.queued + (if ok then frames else 0)
    && u.stream.sent == (if ok then p.stream.sent + payload else p.stream.sent)
    && u.flags == (if ok then p.flags else Fail(p.flags))
    && u.runway.events == p.runway.events
    && u.runway.latch == (p.runway.latch && !(ok && implicit && frames > 0))
  }

  lemma LaunchFromPrepared(s: State, t: nat, ok: bool)
    requires s.cfg.stride > 0 && t < |s.bus.transfers| && CanPrepare(s) && |s.clock.layouts| <= |s.clock.log|
    ensures var f := NextFill(s);
            Attempted(Prepared(s, t), LaunchImplicit(s, t, ok), Frames(f.lengths, s.cfg.stride), f.payload, ok, true)
  {
  }

  /** A transfer filled from a pacing plan but not yet submitted. */
  ghost function Paced(u: State, t: nat, plan: seq<nat>): State
    requires t < |u.bus.transfers|
  {
    var f := Fill(u.stream.ring, plan, u.cfg.stride);
    u.(stream := u.stream.(ring := f.rest),
       bus := u.bus.(transfers := u.bus.transfers[t := u.bus.transfers[t].(lengths := f.lengths)]))
  }

  lemma LaunchFromPaced(u: State, t: nat, plan: seq<nat>, ok: bool)
    requires u.cfg.stride > 0 && t < |u.bus.transfers| && |u.clock.layouts| <= |u.clock.log| && !ImplicitNow(u)
    ensures var f := Fill(u.stream.ring, plan, u.cfg.stride);
            Attempted(Paced(u, t, plan), Resubmit(u, t, ok, plan), Frames(f.lengths, u.cfg.stride), f.payload, ok, false)
  {
  }

  lemma {:induction false} PendingLeavesCapture(s: State, oks: seq<bool>)
    requires s.cfg.stride > 0 && |s.clock.layouts| <= |s.clock.log| && PendingInPool(s.bus)
    ensures SubmitPending(s, oks).bus.captureInflight == s.bus.captureInflight
    decreases |s.bus.pending|
  {
    if s.bus.pending != [] && CanPrepare(s) && (oks == [] || oks[0]) {
      var u := LaunchImplicit(s, s.bus.pending[0], true);
      PendingLeavesCapture(u.(bus := Dequeue(u.bus)), Rest(oks));
    }
  }

  /** `submitted` deferred transfers have gone; `cur` is the state to go on from, or the end if nothing `more` goes. */
  ghost predicate Served(s: State, oks: seq<bool>, submitted: nat, cur: State, answers: seq<bool>, more: bool)
    requires WellFormed(s) && submitted <= |s.bus.pending|
  {
    && WellFormed(cur) && cur.bus.pending == s.bus.pending[submitted..]
    && SubmitPending(s, oks) == if more then SubmitPending(cur, answers) else cur
  }

  lemma ServedNext(s: State, oks: seq<bool>, submitted: nat, cur: State, answers: seq<bool>, more: bool, next: State)
    requires WellFormed(s) && submitted < |s.bus.pending| && Served(s, oks, submitted, cur, answers, true) && WellFormed(next)
    requires next.bus.pending == if more then cur.bus.pending[1..] else cur.bus.pending
    requires SubmitPending(cur, answers) == if more then SubmitPending(next, Rest(answers)) else next
    ensures if more then Served(s, oks, submitted + 1, next, Rest(answers), true) else Served(s, oks, submitted, next, answers, false)
  {
  }

  lemma ServedAll(s: State, oks: seq<bool>, submitted: nat, cur: State, answers: seq<bool>, more: bool)
    requires WellFormed(s) && submitted <= |s.bus.pending| && Served(s, oks, submitted, cur, answers, more)
    requires !more || submitted == |s.bus.pending|
    ensures SubmitPending(s, oks) == cur
  {
  }

  /** A session as `startIsoPump(false)` leaves it: descriptors primed, nothing submitted. */
  function InitialState(cfg: Config, primed: seq<seq<nat>>, feedbackPool: nat, capturePool: nat, capturing: nat, live: bool): State {
    var transfers := seq(|primed|, t requires 0 <= t < |primed| => Transfer(Idle, primed[t]));
    State(cfg, Bus(transfers, [], feedbackPool, 0, capturePool, capturing, 0, 0), Stream([], [], [], []),
          Clock([], 0, [], [], [], 0), Order([], [], []), Ledger(0, 0, 0, 0, 0), Runway(false, 0, 0, []),
          Flags(false, false, false, live, true), Free, true, true)
  }

  /** Descriptors every transfer may be primed with. */
  ghost predicate Primed(cfg: Config, primed: seq<seq<nat>>) {
    && cfg.Valid() && 0 < |primed| <= MAX_TRANSFERS
    && forall t :: 0 <= t < |primed| ==> DescriptorsOk(Transfer(Idle, primed[t]), cfg)
  }

  lemma InitialStateOk(cfg: Config, primed: seq<seq<nat>>, feedbackPool: nat, capturePool: nat, capturing: nat, live: bool)
    requires Primed(cfg, primed) && capturing <= capturePool && (cfg.implicit ==> live)
    ensures Init(InitialState(cfg, primed, feedbackPool, capturePool, capturing, live))
  {
  }

  /** What the initial fill puts into each transfer. */
  ghost function StartFills(s: State): (fills: seq<Filled>)
    requires s.cfg.stride > 0
    ensures |fills| == |s.bus.transfers|
  {
    InitialFills(s.stream.ring, s.bus.transfers, |s.bus.transfers|, s.cfg.stride)
  }

  /** Bus and stream after the feedback transfers and `count` OUT transfers have been attempted. */
  ghost function Attempts(s: State, fb: nat, count: nat, accepted: nat): (Bus, Stream)
    requires s.cfg.stride > 0 && count <= |s.bus.transfers|
  {
    var b := s.bus.(feedback := s.bus.feedback + fb, inflight := s.bus.inflight + fb);
    SubmitInitial(b, s.stream, StartFills(s), count, accepted, s.cfg.stride)
  }

  /** What the whole pump amounts to, read off where the driver's loop stopped. */
  lemma PumpOutcome(s: State, fb: nat, accepted: nat)
    requires s.cfg.stride > 0
    ensures var u := SubmitPump(s, fb, accepted); var n := |s.bus.transfers|; var r := Attempts(s, fb, Min(n, accepted), accepted);
            && u == s.(bus := u.bus, stream := u.stream)
            && u.bus.inflight == r.0.inflight && u.bus.queued == r.0.queued && u.stream.sent == r.1.sent
            && u.stream.ring == Before(s.stream.ring, StartFills(s), n) && |u.bus.transfers| == n
            && (forall t :: 0 <= t < n ==> u.bus.transfers[t].lengths == StartFills(s)[t].lengths)
            && u.bus.captureInflight == s.bus.captureInflight && u.bus.pending == s.bus.pending
  {
    var n, fills := |s.bus.transfers|, StartFills(s);
    var b := s.bus.(feedback := s.bus.feedback + fb, inflight := s.bus.inflight + fb);
    AttemptsRewrite(b, s.stream, fills, n, accepted, s.cfg.stride);
    if accepted < n {
      RefusedAttempts(b, s.stream, fills, n, accepted, s.cfg.stride);
    }
  }

  ghost function Concluded(u: State, ok: bool): State {
    u.(flags := if ok then u.flags.(started := true, streaming := true) else u.flags.(stopRequested := true))
  }

  /** Past its checks, starting concludes the pump as its submissions went; ledger stock and control aside. */
  lemma StartOutcome(s: State, feedbackAccepted: nat, accepted: nat)
    requires s.cfg.stride > 0 && !s.flags.started && !s.flags.stopRequested && s.cfg.primeFrames <= RingFrames(s)
    ensures var fb := Min(feedbackAccepted, s.bus.feedbackPool);
            var ok := feedbackAccepted >= s.bus.feedbackPool && accepted >= |s.bus.transfers|;
            var u := Concluded(SubmitPump(s, fb, if fb < s.bus.feedbackPool then 0 else accepted), ok);
            var t := StartPlayback(s, feedbackAccepted, accepted);
            t == u.(ledger := t.ledger, control := t.control) && t.ledger.credit == s.ledger.credit
  {
  }

  /** Transfer `t` has a plan of whole frames that its buffer holds, and `fills[t]` is what draining it takes. */
  ghost predicate Due(start: seq<Byte>, fills: seq<Filled>, primed: seq<seq<nat>>, cfg: Config, t: nat)
    requires cfg.stride > 0 && t < |fills| == |primed|
  {
    && AllWhole(primed[t], cfg.stride) && Sum(primed[t]) <= cfg.packets * (cfg.maxFrames * cfg.stride)
    && fills[t] == Fill(Before(start, fills, t), DescriptorFrames(primed[t], cfg.stride), cfg.stride)
  }

  lemma StartFillsDue(s: State)
    requires s.cfg.stride > 0 && forall t :: 0 <= t < |s.bus.transfers| ==> DescriptorsOk(s.bus.transfers[t], s.cfg)
    ensures forall t :: 0 <= t < |s.bus.transfers| ==> Due(s.stream.ring, StartFills(s), Plans(s.bus.transfers), s.cfg, t)
  {
    forall t | 0 <= t < |s.bus.transfers|
      ensures Due(s.stream.ring, StartFills(s), Plans(s.bus.transfers), s.cfg, t)
    {
      FillAt(s.stream.ring, s.bus.transfers, |s.bus.transfers|, s.cfg.stride, t);
      PlanFits(s.bus.transfers[t], s.cfg);
    }
  }

  lemma PlanFits(x: Transfer, cfg: Config)
    requires cfg.stride > 0 && DescriptorsOk(x, cfg)
    ensures Sum(x.lengths) <= cfg.packets * (cfg.maxFrames * cfg.stride)
  {
    SumBound(x.lengths, cfg.maxFrames * cfg.stride);
  }

  /** Frames billed, once playback has started. */
  function Charged(s: State, frames: nat): State {
    s.(ledger := s.ledger.(credit := if s.flags.started then s.ledger.credit - frames else s.ledger.credit))
  }

  method AllocateBuffers(count: nat, bytes: nat) returns (buffers: seq<array<Byte>>)
    ensures |buffers| == count
    ensures forall t :: 0 <= t < count ==> fresh(buffers[t]) && buffers[t].Length == bytes
    ensures forall i, j :: 0 <= i < j < count ==> buffers[i] != buffers[j]
  {
    buffers := [];
    for t := 0 to count
      invariant |buffers| == t
      invariant forall i :: 0 <= i < t ==> fresh(buffers[i]) && buffers[i].Length == bytes
      invariant forall i, j :: 0 <= i < j < t ==> buffers[i] != buffers[j]
    {
      var buffer := new Byte[bytes](_ => 0);
      buffers := buffers + [buffer];
    }
  }

  class UacDriver {
    const cfg: Config
    const ring: ByteRing
    const layouts: LayoutQueue
    const pending: DeferralArray
    const buffers: seq<array<Byte>>   // transferBuffers_
    const feedbackPool: nat           // feedbackTransfers_.size()
    var lengths: seq<seq<nat>>        // iso_packet_desc[].length of each OUT transfer
    var inflight: nat
    var captureInflight: nat
    var queued: nat
    var credit: int
    var started: bool
    var stopRequested: bool
    var failed: bool
    var captureActive: bool
    var streaming: bool
    var latch: bool
    var zeroRunwayEvents: nat
    var overruns: nat
    ghost var wire: seq<Byte>         // everything the device was given, read from the buffers

    ghost predicate Shape()
      reads this`lengths, ring, layouts, pending
    {
      && cfg.Valid() && ring.Valid() && layouts.Valid() && pending.Valid()
      && layouts.slots != pending.slots
      && |buffers| == |lengths|
      && (forall t :: 0 <= t < |buffers| ==>
            buffers[t] != ring.data && buffers[t].Length == cfg.packets * (cfg.maxFrames * cfg.stride))
      && (forall i, j :: 0 <= i < j < |buffers| ==> buffers[i] != buffers[j])
    }

    /** Every descriptor list is that of the pool `ts`. */
    ghost predicate Describes(ts: seq<Transfer>)
      reads this`lengths
    {
      |ts| == |lengths| && forall t :: 0 <= t < |lengths| ==> lengths[t] == ts[t].lengths
    }

    /**
     * The fields hold the transport state `s`, its deferral FIFO aside; `running` counts a transfer
     * whose completion callback has not yet taken it out of `inflight`.
     */
    ghost predicate Holds(s: State, running: nat)
      requires ring.Valid() && layouts.Valid()
      reads this, ring, ring.data, layouts, layouts.slots
    {
      && s.cfg == cfg && Describes(s.bus.transfers)
      && inflight == s.bus.inflight + running && captureInflight == s.bus.captureInflight && queued == s.bus.queued
      && ring.Contents() == s.stream.ring && wire == s.stream.sent
      && layouts.Contents() == s.clock.layouts && overruns == s.clock.overruns
      && credit == s.ledger.credit
      && latch == s.runway.latch && zeroRunwayEvents == s.runway.events
      && s.flags == Flags(started, stopRequested, failed, captureActive, streaming)
    }

    ghost predicate Refines(s: State, running: nat)
      requires ring.Valid() && layouts.Valid() && pending.Valid()
      reads this, ring, ring.data, layouts, layouts.slots, pending, pending.slots
    {
      Holds(s, running) && pending.Contents() == s.bus.pending
    }

    /** A driver over empty queues and one buffer per transfer. */
    constructor (cfg: Config, ring: ByteRing, layouts: LayoutQueue, pending: DeferralArray, buffers: seq<array<Byte>>,
                 primed: seq<seq<nat>>, feedbackPool: nat, capturing: nat, live: bool)
      requires cfg.Valid() && ring.Valid() && layouts.Valid() && pending.Valid() && layouts.slots != pending.slots
      requires ring.Contents() == [] && layouts.Contents() == [] && pending.Contents() == []
      requires |buffers| == |primed|
      requires forall t :: 0 <= t < |buffers| ==>
                 buffers[t] != ring.data && buffers[t].Length == cfg.packets * (cfg.maxFrames * cfg.stride)
      requires forall i, j :: 0 <= i < j < |buffers| ==> buffers[i] != buffers[j]
      ensures this.cfg == cfg && this.ring == ring && this.layouts == layouts && this.pending == pending
      ensures this.buffers == buffers && this.feedbackPool == feedbackPool
      ensures Shape() && AtRest(primed, capturing, live)
    {
      this.cfg, this.ring, this.layouts, this.pending := cfg, ring, layouts, pending;
      this.buffers, this.feedbackPool, lengths := buffers, feedbackPool, primed;
      inflight, captureInflight, queued, credit := 0, capturing, 0, 0;
      started, stopRequested, failed, streaming, latch := false, false, false, true, false;
      captureActive := live;
      zeroRunwayEvents, overruns := 0, 0;
      wire := [];
    }

    ghost predicate AtRest(primed: seq<seq<nat>>, capturing: nat, live: bool)
      requires Shape()
      reads this, ring, ring.data, layouts, layouts.slots, pending, pending.slots
    {
      && lengths == primed && ring.Contents() == [] && layouts.Contents() == [] && pending.Contents() == [] && wire == []
      && inflight == 0 && captureInflight == capturing && queued == 0 && credit == 0
      && zeroRunwayEvents == 0 && overruns == 0 && !latch
      && !started && !stopRequested && !failed && captureActive == live && streaming
    }

    lemma AtRestRefines(primed: seq<seq<nat>>, feedbackPool: nat, capturePool: nat, capturing: nat, live: bool)
      requires Shape() && AtRest(primed, capturing, live)
      ensures Refines(InitialState(cfg, primed, feedbackPool, capturePool, capturing, live), 0)
    {
    }

    method MarkTransportFailed()
      modifies this`failed, this`captureActive, this`streaming, this`stopRequested
      ensures Flags(started, stopRequested, failed, captureActive, streaming)
           == Fail(old(Flags(started, stopRequested, failed, captureActive, streaming)))
    {
      failed := true;
      captureActive := false;
      streaming := false;
      stopRequested := true;
    }

    method SubtractQueued(amount: nat)
      modifies this`queued
      ensures queued == SaturatingSub(old(queued), amount)
    {
      queued := if queued > amount then queued - amount else 0;
    }

    /** The capped layouts of the next transfer, read in place. */
    method ReadPlan() returns (plan: seq<nat>)
      requires Shape() && |layouts.Contents()| >= cfg.packets
      ensures plan == CapFrames(layouts.Contents()[..cfg.packets], cfg.maxFrames)
    {
      plan := [];
      var packet := 0;
      while packet < cfg.packets
        invariant packet <= cfg.packets && |plan| == packet
        invariant forall k :: 0 <= k < packet ==> plan[k] == Min(layouts.Contents()[k], cfg.maxFrames)
      {
        var frames := layouts.Peek(packet);
        plan := plan + [Min(frames, cfg.maxFrames)];
        packet := packet + 1;
      }
    }

    method SumOf(plan: seq<nat>) returns (total: nat)
      ensures total == Sum(plan)
    {
      total := 0;
      var k := 0;
      while k < |plan|
        invariant k <= |plan| && total == Sum(plan[..k])
      {
        total := total + plan[k];
        k := k + 1;
        assert plan[..k][..k - 1] == plan[..k - 1];
      }
      assert plan[..k] == plan;
    }

    /** Both preconditions of `prepareImplicitTransfer`, and the plan when they hold. */
    method PlanNextTransfer(ghost s: State, ghost running: nat) returns (ok: bool, plan: seq<nat>)
      requires Shape() && Holds(s, running)
      ensures ok == CanPrepare(s)
      ensures ok ==> |s.clock.layouts| >= cfg.packets && plan == NextPlan(s)
    {
      plan := [];
      if layouts.write - layouts.read < cfg.packets {
        return false, plan;
      }
      plan := ReadPlan();
      var total := SumOf(plan);
      var buffered := (ring.head - ring.tail) / cfg.stride;
      ok := buffered >= total;
    }

    /** Transfer buffers are not the queues' arrays. */
    lemma SlotsApart()
      ensures forall t :: 0 <= t < |buffers| ==> buffers[t] as object != layouts.slots && buffers[t] as object != pending.slots
    {
    }

    /** One transfer's packets, from the ring into its buffer. */
    method DrainInto(t: nat, plan: seq<nat>, ghost f: Filled) returns (written: seq<nat>)
      requires Shape() && t < |buffers| && |plan| == cfg.packets
      requires forall k :: 0 <= k < |plan| ==> plan[k] <= cfg.maxFrames
      requires f == Fill(ring.Contents(), plan, cfg.stride)
      modifies ring`tail, buffers[t]
      ensures Shape() && written == f.lengths && ring.Contents() == f.rest
      ensures layouts.Contents() == old(layouts.Contents()) && pending.Contents() == old(pending.Contents())
      ensures Sum(written) <= buffers[t].Length && buffers[t][..Sum(written)] == f.payload
    {
      SlotsApart();
      written := FillPackets(ring, buffers[t], plan, cfg.maxFrames, cfg.stride);
    }

    /** Layouts off the FIFO, and the packets they call for into the buffer. */
    method DrainPlan(t: nat, plan: seq<nat>, ghost f: Filled) returns (written: seq<nat>)
      requires Shape() && t < |buffers| && |plan| == cfg.packets <= |layouts.Contents()|
      requires forall k :: 0 <= k < |plan| ==> plan[k] <= cfg.maxFrames
      requires f == Fill(ring.Contents(), plan, cfg.stride)
      modifies ring`tail, layouts`read, buffers[t]
      ensures Shape() && written == f.lengths && ring.Contents() == f.rest
      ensures layouts.Contents() == old(layouts.Contents())[cfg.packets..]
      ensures Sum(written) <= buffers[t].Length && buffers[t][..Sum(written)] == f.payload
    {
      layouts.Advance(cfg.packets);
      written := DrainInto(t, plan, f);
    }

    method WritePlan(t: nat, plan: seq<nat>, ghost s: State, ghost running: nat, ghost f: Filled, ghost p: State)
      requires Shape() && Holds(s, running) && t < |buffers| && |plan| == cfg.packets
      requires forall k :: 0 <= k < |plan| ==> plan[k] <= cfg.maxFrames
      requires f == Fill(s.stream.ring, plan, cfg.stride) && PreparedAs(s, t, f, p)
      modifies this`lengths, ring`tail, layouts`read, buffers[t]
      ensures Shape() && Holds(p, running)
      ensures lengths[t] == f.lengths && Sum(f.lengths) <= buffers[t].Length && buffers[t][..Sum(f.lengths)] == f.payload
    {
      var written := DrainPlan(t, plan, f);
      lengths := lengths[t := written];
    }

    /** `prepareImplicitTransfer`: a whole layout and a whole payload, or nothing at all. */
    method PrepareImplicitTransfer(t: nat, ghost s: State, ghost running: nat) returns (ok: bool)
      requires Shape() && Holds(s, running) && t < |buffers| && |s.clock.layouts| <= |s.clock.log|
      modifies this`lengths, ring`tail, layouts`read, buffers[t]
      ensures Shape() && ok == CanPrepare(s)
      ensures !ok ==> Holds(s, running)
      ensures ok ==> Holds(Prepared(s, t), running)
      ensures ok ==> var f := NextFill(s);
                     lengths[t] == f.lengths && Sum(f.lengths) <= buffers[t].Length
                     && buffers[t][..Sum(f.lengths)] == f.payload
    {
      var plan;
      ok, plan := PlanNextTransfer(s, running);
      if ok {
        PreparedFields(s, t);
        WritePlan(t, plan, s, running, NextFill(s), Prepared(s, t));
      }
    }

    /** `libusb_submit_transfer` accepts: the device owns the packets the descriptors mark out. */
    ghost method HandOver(t: nat, payload: seq<Byte>, p: State)
      requires Shape() && Holds(p, 1) && t < |buffers|
      requires Sum(lengths[t]) <= buffers[t].Length && buffers[t][..Sum(lengths[t])] == payload
      modifies this`wire
      ensures Shape() && Holds(Sent(p, payload), 1)
    {
      WireIsPrefix(buffers[t][..], lengths[t]);
      assert buffers[t][..][..Sum(lengths[t])] == buffers[t][..Sum(lengths[t])];
      wire := wire + Wire(buffers[t][..], lengths[t]);
    }

    method CountSubmitted(frames: nat, implicit: bool, ghost p: State, ghost u: State, ghost payload: seq<Byte>)
      requires Shape() && Holds(Sent(p, payload), 1) && Attempted(p, u, frames, payload, true, implicit)
      modifies this`queued, this`latch
      ensures Shape() && Holds(u, 0)
    {
      queued := queued + frames;
      ClearLatch(implicit && frames > 0);
    }

    /** A starvation episode is over once a capture-clocked transfer carries frames again. */
    method ClearLatch(loaded: bool)
      modifies this`latch
      ensures latch == (old(latch) && !loaded)
    {
      if loaded {
        latch := false;
      }
    }

    method SubmitAccepted(t: nat, implicit: bool, ghost p: State, ghost u: State, ghost payload: seq<Byte>)
      requires Shape() && Holds(p, 1) && t < |buffers|
      requires Sum(lengths[t]) <= buffers[t].Length && buffers[t][..Sum(lengths[t])] == payload
      requires Attempted(p, u, Frames(lengths[t], cfg.stride), payload, true, implicit)
      modifies this`queued, this`latch, this`wire
      ensures Shape() && Holds(u, 0)
    {
      var frames := FramesOf(lengths[t], cfg.stride);
      HandOver(t, payload, p);
      CountSubmitted(frames, implicit, p, u, payload);
    }

    method SubmitRefused(implicit: bool, ghost p: State, ghost u: State, ghost frames: nat, ghost payload: seq<Byte>)
      requires Shape() && Holds(p, 1) && Attempted(p, u, frames, payload, false, implicit)
      modifies this`inflight, this`failed, this`captureActive, this`streaming, this`stopRequested
      ensures Shape() && Holds(u, 0)
    {
      inflight := inflight - 1;
      MarkTransportFailed();
    }

    /** What follows a submission attempt that `inflight` already counts; a refused one ends the transport. */
    method Submit(t: nat, ok: bool, implicit: bool, ghost p: State, ghost u: State, ghost payload: seq<Byte>)
      requires Shape() && Holds(p, 1) && t < |buffers|
      requires Sum(lengths[t]) <= buffers[t].Length && buffers[t][..Sum(lengths[t])] == payload
      requires Attempted(p, u, Frames(lengths[t], cfg.stride), payload, ok, implicit)
      modifies this`inflight, this`queued, this`latch, this`wire,
               this`failed, this`captureActive, this`streaming, this`stopRequested
      ensures Shape() && Holds(u, 0)
    {
      if ok {
        SubmitAccepted(t, implicit, p, u, payload);
      } else {
        SubmitRefused(implicit, p, u, Frames(lengths[t], cfg.stride), payload);
      }
    }

    /** Try one deferred transfer: not ready, refused, or on its way. */
    method LaunchDeferred(t: nat, ok: bool, ghost s: State) returns (ready: bool)
      requires Shape() && Holds(s, 0) && t < |buffers| && |s.clock.layouts| <= |s.clock.log|
      modifies this, ring`tail, layouts`read, buffers[t]
      ensures Shape() && ready == CanPrepare(s)
      ensures Holds(if ready then LaunchImplicit(s, t, ok) else s, 0)
    {
      ready := PrepareImplicitTransfer(t, s, 0);
      if ready {
        CountAttempt(Prepared(s, t));
        SubmitPrepared(t, ok, s);
      }
    }

    method CountAttempt(ghost p: State)
      requires Shape() && Holds(p, 0)
      modifies this`inflight
      ensures Shape() && Holds(p, 1)
    {
      inflight := inflight + 1;
    }

    /** A prepared transfer that `inflight` already counts is handed to the bus, or ends the transport. */
    method SubmitPrepared(t: nat, ok: bool, ghost s: State)
      requires s.cfg.stride > 0 && t < |s.bus.transfers| && CanPrepare(s) && |s.clock.layouts| <= |s.clock.log|
      requires Shape() && Holds(Prepared(s, t), 1) && t < |buffers|
      requires var f := NextFill(s);
               lengths[t] == f.lengths && Sum(f.lengths) <= buffers[t].Length
               && buffers[t][..Sum(f.lengths)] == f.payload
      modifies this`inflight, this`queued, this`latch, this`wire,
               this`failed, this`captureActive, this`streaming, this`stopRequested
      ensures Shape() && Holds(LaunchImplicit(s, t, ok), 0)
    {
      LaunchFromPrepared(s, t, ok);
      Submit(t, ok, true, Prepared(s, t), LaunchImplicit(s, t, ok), NextFill(s).payload);
    }

    /** The loop body of `submitPendingImplicitTransfers` for the oldest transfer still waiting. */
    method LaunchNext(submitted: nat, answers: seq<bool>, ghost cur: State) returns (more: bool, ghost next: State)
      requires Shape() && Holds(cur, 0) && |cur.clock.layouts| <= |cur.clock.log| && PendingInPool(cur.bus)
      requires submitted < pending.count && pending.Contents()[submitted..] == cur.bus.pending
      modifies this, ring`tail, layouts`read, buffers
      ensures Shape() && Holds(next, 0) && |next.clock.layouts| <= |next.clock.log| && PendingInPool(next.bus)
      ensures next.bus.pending == if more then cur.bus.pending[1..] else cur.bus.pending
      ensures SubmitPending(cur, answers)
           == if more then SubmitPending(next, Rest(answers)) else next
    {
      var t := pending.slots[submitted];
      assert t == cur.bus.pending[0];
      var ok := answers == [] || answers[0];
      var ready := LaunchDeferred(t, ok, cur);
      more := ready && ok;
      next := if ready then LaunchImplicit(cur, t, ok) else cur;
      if more {
        next := next.(bus := Dequeue(next.bus));
      }
    }

    /** The loop of `submitPendingImplicitTransfers`: oldest first, until one is not ready or is refused. */
    method SubmitWaiting(oks: seq<bool>, ghost s: State) returns (submitted: nat, ghost cur: State)
      requires Shape() && Refines(s, 0) && |s.clock.layouts| <= |s.clock.log| && PendingInPool(s.bus)
      modifies this, ring`tail, layouts`read, buffers
      ensures Shape() && Holds(cur, 0) && pending.Contents() == s.bus.pending
      ensures submitted <= pending.count && cur.bus.pending == s.bus.pending[submitted..]
      ensures SubmitPending(s, oks) == cur
    {
      submitted := 0;
      var answers, more := oks, true;
      cur := s;
      while more && submitted < pending.count
        invariant Shape() && Holds(cur, 0) && pending.Contents() == s.bus.pending
        invariant submitted <= pending.count && Served(s, oks, submitted, cur, answers, more)
        decreases more, pending.count - submitted
      {
        ghost var before := cur;
        SlotsApart();
        more, cur := LaunchNext(submitted, answers, cur);
        ServedNext(s, oks, submitted, before, answers, more, cur);
        if more {
          submitted := submitted + 1;
          answers := Rest(answers);
        }
      }
      ServedAll(s, oks, submitted, cur, answers, more);
    }

    /** `submitPendingImplicitTransfers`: what was submitted leaves the front of the array. */
    method SubmitPendingImplicitTransfers(oks: seq<bool>, ghost s: State)
      requires Shape() && Refines(s, 0) && |s.clock.layouts| <= |s.clock.log| && PendingInPool(s.bus)
      modifies this, ring`tail, layouts, layouts.slots, pending, pending.slots, buffers
      ensures Shape() && Refines(SubmitPending(s, oks), 0)
    {
      var submitted;
      ghost var cur;
      submitted, cur := SubmitWaiting(oks, s);
      pending.DropFront(submitted);
    }

    /** A deferral with nothing left on the bus is one starvation episode, however many follow. */
    method CountStarvation()
      modifies this`latch, this`zeroRunwayEvents
      ensures zeroRunwayEvents == old(zeroRunwayEvents) + (if queued == 0 && !old(latch) then 1 else 0)
      ensures latch == (old(latch) || queued == 0)
    {
      if queued == 0 && !latch {
        latch := true;
        zeroRunwayEvents := zeroRunwayEvents + 1;
      }
    }

    method Enqueue(t: nat, ghost u: State)
      requires Shape() && Refines(u, 1) && t < |u.bus.transfers| && pending.count < MAX_TRANSFERS
      modifies this`inflight, this`latch, this`zeroRunwayEvents, pending, pending.slots
      ensures Shape() && Refines(Defer(u, t), 0)
    {
      CountStarvation();
      inflight := inflight - 1;
      pending.Push(t);
    }

    /** The deferral branch of `onIso`. */
    method DeferTransfer(t: nat, ghost u: State)
      requires Shape() && Refines(u, 1) && t < |u.bus.transfers|
      modifies this`inflight, this`latch, this`zeroRunwayEvents, this`failed, this`captureActive, this`streaming,
               this`stopRequested, pending, pending.slots
      ensures Shape() && Refines(Defer(u, t), 0)
    {
      if pending.count < MAX_TRANSFERS {
        Enqueue(t, u);
      } else {
        LeaveBus(true, u);
      }
    }

    /** The deferral branch of `onIso`, as the tail it is part of. */
    method DeferInstead(t: nat, ok: bool, plan: seq<nat>, ghost u: State)
      requires Shape() && Refines(u, 1) && t < |u.bus.transfers|
      requires |u.clock.layouts| <= |u.clock.log| && ImplicitNow(u) && (|u.bus.pending| > 0 || !CanPrepare(u))
      modifies this`inflight, this`latch, this`zeroRunwayEvents, this`failed, this`captureActive, this`streaming,
               this`stopRequested, pending, pending.slots
      ensures Shape() && Refines(Resubmit(u, t, ok, plan), 0)
    {
      DeferTransfer(t, u);
    }

    /** The direct resubmission in `onIso`, likewise. */
    method SubmitInstead(t: nat, ok: bool, plan: seq<nat>, ghost u: State)
      requires u.cfg.stride > 0 && t < |u.bus.transfers| && |u.clock.layouts| <= |u.clock.log|
      requires ImplicitNow(u) && u.bus.pending == [] && CanPrepare(u)
      requires Shape() && Holds(Prepared(u, t), 1) && pending.Contents() == [] && t < |buffers|
      requires var f := NextFill(u);
               lengths[t] == f.lengths && Sum(f.lengths) <= buffers[t].Length
               && buffers[t][..Sum(f.lengths)] == f.payload
      modifies this`inflight, this`queued, this`latch, this`wire,
               this`failed, this`captureActive, this`streaming, this`stopRequested
      ensures Shape() && Refines(Resubmit(u, t, ok, plan), 0)
    {
      SubmitPrepared(t, ok, u);
    }

    /** The capture-clocked tail of `onIso`: keep completion order, prepare, or defer. */
    method ResubmitImplicit(t: nat, ok: bool, plan: seq<nat>, ghost u: State)
      requires Shape() && Refines(u, 1) && t < |u.bus.transfers|
      requires |u.clock.layouts| <= |u.clock.log| && ImplicitNow(u)
      modifies this, ring`tail, layouts`read, pending, pending.slots, buffers[t]
      ensures Shape() && Refines(Resubmit(u, t, ok, plan), 0)
    {
      var ready := false;
      if pending.count == 0 {
        ready := PrepareImplicitTransfer(t, u, 1);
      }
      if ready {
        SubmitInstead(t, ok, plan, u);
      } else {
        DeferInstead(t, ok, plan, u);
      }
    }

    method FillPaced(t: nat, plan: seq<nat>, ghost u: State)
      requires Shape() && Holds(u, 1) && t < |buffers|
      requires |plan| == cfg.packets && forall k :: 0 <= k < |plan| ==> plan[k] <= cfg.maxFrames
      modifies this`lengths, ring`tail, buffers[t]
      ensures Shape() && Holds(Paced(u, t, plan), 1)
      ensures var f := Fill(u.stream.ring, plan, cfg.stride);
              lengths[t] == f.lengths && Sum(f.lengths) <= buffers[t].Length
              && buffers[t][..Sum(f.lengths)] == f.payload
    {
      var written := DrainInto(t, plan, Fill(u.stream.ring, plan, cfg.stride));
      lengths := lengths[t := written];
    }

    /** The paced tail of `onIso`: fill from the plan, however little the ring holds, and resubmit. */
    method ResubmitPaced(t: nat, ok: bool, plan: seq<nat>, ghost u: State)
      requires Shape() && Refines(u, 1) && t < |u.bus.transfers|
      requires |u.clock.layouts| <= |u.clock.log| && !ImplicitNow(u)
      requires |plan| == cfg.packets && forall k :: 0 <= k < |plan| ==> plan[k] <= cfg.maxFrames
      modifies this, ring`tail, buffers[t]
      ensures Shape() && Refines(Resubmit(u, t, ok, plan), 0)
    {
      FillPaced(t, plan, u);
      LaunchFromPaced(u, t, plan, ok);
      Submit(t, ok, false, Paced(u, t, plan), Resubmit(u, t, ok, plan), Fill(u.stream.ring, plan, cfg.stride).payload);
    }

    /** The completed frames leave the queue, whatever else the callback then decides. */
    method LeaveQueue(t: nat, ghost s: State) returns (completed: nat)
      requires Shape() && Refines(s, 0) && t < |s.bus.transfers| && s.bus.inflight > 0
      modifies this`queued
      ensures Shape() && Refines(Retired(s, t, false), 1)
      ensures completed == Frames(s.bus.transfers[t].lengths, s.cfg.stride)
    {
      completed := FramesOf(lengths[t], cfg.stride);
      SubtractQueued(completed);
    }

    /** `onIso`. */
    method OnIso(t: nat, status: Status, ok: bool, plan: seq<nat>, ghost s: State)
      requires Shape() && Refines(s, 0) && t < |s.bus.transfers| && s.bus.inflight > 0
      requires |s.clock.layouts| <= |s.clock.log|
      requires |plan| == cfg.packets && forall k :: 0 <= k < |plan| ==> plan[k] <= cfg.maxFrames
      modifies this, ring`tail, layouts`read, pending, pending.slots, buffers[t]
      ensures Shape() && Refines(Transport.OnIso(s, t, status, ok, plan), 0)
    {
      var completed := LeaveQueue(t, s);
      if status == Cancelled || stopRequested {
        LeaveBus(false, Retired(s, t, false));
      } else if status == NoDevice {
        LeaveBus(true, Retired(s, t, false));
      } else {
        GrantCredit(completed, t, s);
        Continue(t, ok, plan, Retired(s, t, s.flags.started));
      }
    }

    /** The transfer is not resubmitted; a lost device also ends the transport. */
    method LeaveBus(lost: bool, ghost u: State)
      requires Shape() && Refines(u, 1)
      modifies this`inflight, this`failed, this`captureActive, this`streaming, this`stopRequested
      ensures Shape() && Refines(u.(flags := if lost then Fail(u.flags) else u.flags), 0)
    {
      inflight := inflight - 1;
      if lost {
        MarkTransportFailed();
      }
    }

    method GrantCredit(completed: nat, t: nat, ghost s: State)
      requires Shape() && t < |s.bus.transfers| && s.cfg.stride > 0 && Refines(Retired(s, t, false), 1)
      requires completed == Frames(s.bus.transfers[t].lengths, s.cfg.stride)
      modifies this`credit
      ensures Shape() && Refines(Retired(s, t, s.flags.started), 1)
    {
      if started {
        credit := credit + completed;
      }
    }

    method Continue(t: nat, ok: bool, plan: seq<nat>, ghost u: State)
      requires Shape() && Refines(u, 1) && t < |u.bus.transfers| && |u.clock.layouts| <= |u.clock.log|
      requires |plan| == cfg.packets && forall k :: 0 <= k < |plan| ==> plan[k] <= cfg.maxFrames
      modifies this, ring`tail, layouts`read, pending, pending.slots, buffers[t]
      ensures Shape() && Refines(Resubmit(u, t, ok, plan), 0)
    {
      if captureActive && cfg.implicit {
        ResubmitImplicit(t, ok, plan, u);
      } else {
        ResubmitPaced(t, ok, plan, u);
      }
    }

    method LogPacket(frames: nat, ghost s: State)
      requires Shape() && Refines(s, 0)
      modifies this`overruns, layouts, layouts.slots
      ensures Shape() && Refines(s.(clock := LogLayout(s.clock, frames)), 0)
    {
      var overrun := layouts.Log(frames);
      if overrun {
        overruns := overruns + 1;
      }
    }

    /** The layout half of the packet loop in `onCapture`. */
    method LogPackets(packets: seq<nat>, ghost s: State)
      requires Shape() && Refines(s, 0)
      modifies this`overruns, layouts, layouts.slots
      ensures Shape() && Refines(s.(clock := LogLayouts(s.clock, packets)), 0)
    {
      var i := 0;
      ghost var cur := s;
      while i < |packets|
        invariant i <= |packets| && Shape()
        invariant cur == s.(clock := LogLayouts(s.clock, packets[..i])) && Refines(cur, 0)
      {
        LogPacket(packets[i], cur);
        cur := cur.(clock := LogLayout(cur.clock, packets[i]));
        i := i + 1;
        assert packets[..i][..i - 1] == packets[..i - 1];
      }
      assert packets[..i] == packets;
    }

    /** The capture transfer is not resubmitted; a lost device or a refusal also ends the transport. */
    method LeaveCapture(lost: bool, ghost u: State)
      requires Shape() && Refines(u, 0) && u.bus.captureInflight > 0
      modifies this`captureInflight, this`failed, this`captureActive, this`streaming, this`stopRequested
      ensures Shape() && Refines(u.(bus := CaptureLeaves(u.bus), flags := if lost then Fail(u.flags) else u.flags), 0)
    {
      captureInflight := captureInflight - 1;
      if lost {
        MarkTransportFailed();
      }
    }

    /** The tail of `onCapture`. */
    method ResubmitCaptureTransfer(ok: bool, ghost u: State)
      requires Shape() && Refines(u, 0) && u.bus.captureInflight > 0
      modifies this`captureInflight, this`failed, this`captureActive, this`streaming, this`stopRequested
      ensures Shape() && Refines(ResubmitCapture(u, ok), 0)
    {
      if failed {
        LeaveCapture(false, u);
      } else if !ok {
        LeaveCapture(true, u);
      }
    }

    /** `onCapture` past its guards: log, serve what was deferred, resubmit. */
    method ServeCapture(packets: seq<nat>, oks: seq<bool>, ok: bool, ghost s: State)
      requires Shape() && Refines(s, 0) && s.bus.captureInflight > 0
      requires |s.clock.layouts| <= |s.clock.log| && PendingInPool(s.bus)
      modifies this, ring`tail, layouts, layouts.slots, pending, pending.slots, buffers
      ensures var logged := if s.cfg.implicit then s.(clock := LogLayouts(s.clock, packets)) else s;
              Shape() && Refines(ResubmitCapture(SubmitPending(logged, oks), ok), 0)
    {
      ghost var logged := if s.cfg.implicit then s.(clock := LogLayouts(s.clock, packets)) else s;
      if cfg.implicit {
        LogPackets(packets, s);
      }
      SubmitPendingImplicitTransfers(oks, logged);
      PendingLeavesCapture(logged, oks);
      ResubmitCaptureTransfer(ok, SubmitPending(logged, oks));
    }

    /** `onCapture`, its ring copy aside. */
    method OnCapture(status: Status, packets: seq<nat>, oks: seq<bool>, ok: bool, ghost s: State)
      requires Shape() && Refines(s, 0) && s.bus.captureInflight > 0
      requires |s.clock.layouts| <= |s.clock.log| && PendingInPool(s.bus)
      modifies this, ring`tail, layouts, layouts.slots, pending, pending.slots, buffers
      ensures Shape() && Refines(Transport.OnCapture(s, status, packets, oks, ok), 0)
    {
      if !captureActive || status == Cancelled || stopRequested {
        LeaveCapture(false, s);
      } else if status == NoDevice {
        LeaveCapture(true, s);
      } else {
        ServeCapture(packets, oks, ok, s);
      }
    }

    // ---- Start ------------------------------------------------------------------------------

    /** The buffer holds the payload where the device will look for it. */
    ghost predicate Loaded(t: nat, f: Filled)
      requires t < |buffers|
      reads buffers[t]
    {
      Sum(f.lengths) <= buffers[t].Length && buffers[t][..Sum(f.lengths)] == f.payload
    }

    /** What starting the pump leaves alone. */
    ghost predicate Beside(s: State)
      requires layouts.Valid() && pending.Valid()
      reads this`captureInflight, this`overruns, this`credit, this`latch, this`zeroRunwayEvents
      reads this`started, this`stopRequested, this`failed, this`captureActive, this`streaming
      reads layouts, layouts.slots, pending, pending.slots
    {
      && s.cfg == cfg && captureInflight == s.bus.captureInflight
      && layouts.Contents() == s.clock.layouts && overruns == s.clock.overruns && credit == s.ledger.credit
      && latch == s.runway.latch && zeroRunwayEvents == s.runway.events
      && s.flags == Flags(started, stopRequested, failed, captureActive, streaming)
      && pending.Contents() == s.bus.pending
    }

    /** The first `t` transfers filled, drawing on `start` one after the other; the others still as primed. */
    ghost predicate FilledUpTo(start: seq<Byte>, fills: seq<Filled>, primed: seq<seq<nat>>, t: nat)
      requires ring.Valid() && t <= |lengths| == |fills| == |primed|
      reads this`lengths, ring, ring.data
    {
      && ring.Contents() == Before(start, fills, t)
      && (forall k :: 0 <= k < t ==> lengths[k] == fills[k].lengths)
      && forall k :: t <= k < |lengths| ==> lengths[k] == primed[k]
    }

    method FillTransfer(t: nat, ghost start: seq<Byte>, ghost fills: seq<Filled>, ghost primed: seq<seq<nat>>)
      requires Shape() && t < |lengths| == |fills| == |primed| && FilledUpTo(start, fills, primed, t)
      requires Due(start, fills, primed, cfg, t)
      modifies this`lengths, ring`tail, buffers[t]
      ensures Shape() && |lengths| == |fills| && FilledUpTo(start, fills, primed, t + 1) && Loaded(t, fills[t])
    {
      var written := FillPlanned(ring, buffers[t], lengths[t], cfg.stride);
      lengths := lengths[t := written];
    }

    /** The fill loop of `submitIsoPump`, over every transfer. */
    method FillTransfers(ghost start: seq<Byte>, ghost fills: seq<Filled>, ghost primed: seq<seq<nat>>)
      requires Shape() && |lengths| == |fills| == |primed| && FilledUpTo(start, fills, primed, 0)
      requires forall t :: 0 <= t < |fills| ==> Due(start, fills, primed, cfg, t)
      modifies this`lengths, ring`tail, buffers
      ensures Shape() && |lengths| == |fills| && FilledUpTo(start, fills, primed, |fills|)
      ensures forall t :: 0 <= t < |buffers| ==> Loaded(t, fills[t])
    {
      for t := 0 to |buffers|
        invariant Shape() && |lengths| == |fills| && FilledUpTo(start, fills, primed, t)
        invariant forall k :: 0 <= k < t ==> Loaded(k, fills[k])
      {
        assert Due(start, fills, primed, cfg, t);
        assert forall k :: 0 <= k < t ==> buffers[k] != buffers[t];
        FillTransfer(t, start, fills, primed);
      }
    }

    /** The feedback transfers go first; the first refusal ends the attempt. */
    method SubmitFeedback(accepted: nat) returns (all: bool)
      modifies this`inflight
      ensures all == (accepted >= feedbackPool) && inflight == old(inflight) + Min(accepted, feedbackPool)
    {
      for i := 0 to feedbackPool
        invariant inflight == old(inflight) + i && i <= accepted
      {
        inflight := inflight + 1;
        if i >= accepted {
          inflight := inflight - 1;
          return false;
        }
      }
      return true;
    }

    /** The driver's counters and the wire after `count` attempts. */
    ghost predicate Counted(r: (Bus, Stream))
      reads this`inflight, this`queued, this`wire
    {
      inflight == r.0.inflight && queued == r.0.queued && wire == r.1.sent
    }

    /** The OUT transfers in order, each counted before it is handed over, up to the first refusal. */
    method SubmitTransfers(accepted: nat, ghost b: Bus, ghost st: Stream, ghost fills: seq<Filled>) returns (all: bool)
      requires cfg.stride > 0 && |buffers| == |lengths| == |fills| == |b.transfers|
      requires forall t :: 0 <= t < |buffers| ==> lengths[t] == fills[t].lengths && Loaded(t, fills[t])
      requires Counted((b, st))
      modifies this`inflight, this`queued, this`wire
      ensures all == (accepted >= |buffers|)
      ensures Counted(SubmitInitial(b, st, fills, Min(|buffers|, accepted), accepted, cfg.stride))
    {
      for t := 0 to |buffers|
        invariant t <= accepted && Counted(SubmitInitial(b, st, fills, t, accepted, cfg.stride))
      {
        inflight := inflight + 1;
        if t >= accepted {
          inflight := inflight - 1;
          return false;
        }
        AcceptedAttempt(b, st, fills, t, accepted, cfg.stride);
        ReadTransfer(t, fills[t]);
        var frames := FramesOf(lengths[t], cfg.stride);
        queued := queued + frames;
      }
      return true;
    }

    /** What the device reads from an accepted transfer. */
    ghost method ReadTransfer(t: nat, f: Filled)
      requires t < |buffers| == |lengths| && lengths[t] == f.lengths && Loaded(t, f)
      modifies this`wire
      ensures wire == old(wire) + f.payload
    {
      WireIsPrefix(buffers[t][..], lengths[t]);
      assert buffers[t][..][..Sum(lengths[t])] == buffers[t][..Sum(lengths[t])];
      wire := wire + Wire(buffers[t][..], lengths[t]);
    }

    lemma PumpRefines(s: State, fb: nat, reached: nat)
      requires Shape() && s.cfg == cfg && |s.bus.transfers| == |lengths| && Beside(s)
      requires FilledUpTo(s.stream.ring, StartFills(s), Plans(s.bus.transfers), |lengths|)
      requires Counted(Attempts(s, fb, Min(|lengths|, reached), reached))
      ensures Refines(SubmitPump(s, fb, reached), 0)
    {
      PumpOutcome(s, fb, reached);
    }

    /** The submission loops of `submitIsoPump`, feedback first; a refusal there attempts no OUT transfer. */
    method SubmitAll(feedbackAccepted: nat, accepted: nat, ghost s: State, ghost fills: seq<Filled>) returns (all: bool)
      requires Shape() && s.cfg == cfg && |s.bus.transfers| == |lengths| && s.bus.feedbackPool == feedbackPool
      requires fills == StartFills(s)
      requires forall t :: 0 <= t < |buffers| ==> lengths[t] == fills[t].lengths && Loaded(t, fills[t])
      requires Counted((s.bus, s.stream))
      modifies this`inflight, this`queued, this`wire
      ensures all == (feedbackAccepted >= feedbackPool && accepted >= |buffers|)
      ensures var fb := Min(feedbackAccepted, feedbackPool); var reached := if fb < feedbackPool then 0 else accepted;
              Counted(Attempts(s, fb, Min(|buffers|, reached), reached))
    {
      all := SubmitFeedback(feedbackAccepted);
      if all {
        all := SubmitTransfers(accepted, s.bus.(feedback := s.bus.feedback + feedbackPool, inflight := s.bus.inflight + feedbackPool),
                               s.stream, fills);
      }
    }

    lemma AboutToFill(s: State)
      requires Shape() && Refines(s, 0)
      ensures Beside(s) && Counted((s.bus, s.stream))
      ensures |s.bus.transfers| == |lengths| && FilledUpTo(s.stream.ring, StartFills(s), Plans(s.bus.transfers), 0)
    {
    }

    /** The fill touches neither the queues nor the counters. */
    method FillBeside(ghost s: State, ghost fills: seq<Filled>, ghost primed: seq<seq<nat>>)
      requires Shape() && |lengths| == |fills| == |primed| && FilledUpTo(s.stream.ring, fills, primed, 0)
      requires forall t :: 0 <= t < |fills| ==> Due(s.stream.ring, fills, primed, cfg, t)
      requires Beside(s)
      modifies this`lengths, ring`tail, buffers
      ensures Shape() && |lengths| == |fills| && FilledUpTo(s.stream.ring, fills, primed, |fills|) && Beside(s)
      ensures forall t :: 0 <= t < |buffers| ==> lengths[t] == fills[t].lengths && Loaded(t, fills[t])
    {
      SlotsApart();
      FillTransfers(s.stream.ring, fills, primed);
      assert Beside(s);
    }

    /** Nor do the submissions touch the queues. */
    method SubmitBeside(feedbackAccepted: nat, accepted: nat, ghost s: State, ghost fills: seq<Filled>) returns (all: bool)
      requires Shape() && s.cfg == cfg && |s.bus.transfers| == |lengths| && s.bus.feedbackPool == feedbackPool
      requires fills == StartFills(s)
      requires forall t :: 0 <= t < |buffers| ==> lengths[t] == fills[t].lengths && Loaded(t, fills[t])
      requires Counted((s.bus, s.stream)) && Beside(s)
      modifies this`inflight, this`queued, this`wire
      ensures all == (feedbackAccepted >= feedbackPool && accepted >= |buffers|) && Beside(s)
      ensures var fb := Min(feedbackAccepted, feedbackPool); var reached := if fb < feedbackPool then 0 else accepted;
              Counted(Attempts(s, fb, Min(|buffers|, reached), reached))
    {
      all := SubmitAll(feedbackAccepted, accepted, s, fills);
    }

    /** Everything filled before anything is submitted. */
    method FillAndSubmit(feedbackAccepted: nat, accepted: nat, ghost s: State, ghost fills: seq<Filled>,
                         ghost primed: seq<seq<nat>>)
        returns (all: bool)
      requires Shape() && s.cfg == cfg && |s.bus.transfers| == |lengths| == |primed| && s.bus.feedbackPool == feedbackPool
      requires fills == StartFills(s) && FilledUpTo(s.stream.ring, fills, primed, 0)
      requires forall t :: 0 <= t < |fills| ==> Due(s.stream.ring, fills, primed, cfg, t)
      requires Counted((s.bus, s.stream)) && Beside(s)
      modifies this`lengths, this`inflight, this`queued, this`wire, ring`tail, buffers
      ensures Shape() && all == (feedbackAccepted >= feedbackPool && accepted >= |buffers|)
      ensures |lengths| == |fills| && FilledUpTo(s.stream.ring, fills, primed, |fills|) && Beside(s)
      ensures var fb := Min(feedbackAccepted, feedbackPool); var reached := if fb < feedbackPool then 0 else accepted;
              Counted(Attempts(s, fb, Min(|buffers|, reached), reached))
    {
      FillBeside(s, fills, primed);
      all := SubmitBeside(feedbackAccepted, accepted, s, fills);
    }

    /** `submitIsoPump` past its checks: everything filled before anything is submitted. */
    method SubmitIsoPump(feedbackAccepted: nat, accepted: nat, ghost s: State) returns (all: bool)
      requires Shape() && Refines(s, 0) && s.bus.feedbackPool == feedbackPool
      requires forall t :: 0 <= t < |s.bus.transfers| ==> DescriptorsOk(s.bus.transfers[t], cfg)
      modifies this`lengths, this`inflight, this`queued, this`wire, ring`tail, buffers
      ensures Shape() && all == (feedbackAccepted >= feedbackPool && accepted >= |buffers|)
      ensures var fb := Min(feedbackAccepted, feedbackPool);
              Refines(SubmitPump(s, fb, if fb < feedbackPool then 0 else accepted), 0)
    {
      ghost var fb := Min(feedbackAccepted, feedbackPool);
      AboutToFill(s);
      StartFillsDue(s);
      all := FillAndSubmit(feedbackAccepted, accepted, s, StartFills(s), Plans(s.bus.transfers));
      PumpRefines(s, fb, if fb < feedbackPool then 0 else accepted);
    }

    /**
     * `startPlayback`: refused outright, refused part way and then stopped, or started; the device then
     * owns, in its buffers and where it looks for them, exactly the payloads the specification sends.
     */
    method StartPlayback(feedbackAccepted: nat, accepted: nat, ghost s: State) returns (ok: bool)
      requires Shape() && Refines(s, 0) && s.bus.feedbackPool == feedbackPool
      requires forall t :: 0 <= t < |s.bus.transfers| ==> DescriptorsOk(s.bus.transfers[t], cfg)
      modifies this, ring`tail, buffers
      ensures Shape() && Refines(Transport.StartPlayback(s, feedbackAccepted, accepted), 0)
      ensures ok ==> started && wire == Transport.StartPlayback(s, feedbackAccepted, accepted).stream.sent
    {
      if started || stopRequested || cfg.primeFrames > (ring.head - ring.tail) / cfg.stride {
        return false;
      }
      ok := SubmitIsoPump(feedbackAccepted, accepted, s);
      ghost var fb := Min(feedbackAccepted, feedbackPool);
      ConcludeStart(ok, SubmitPump(s, fb, if fb < feedbackPool then 0 else accepted));
      StartOutcome(s, feedbackAccepted, accepted);
    }

    method ConcludeStart(ok: bool, ghost u: State)
      requires Shape() && Refines(u, 0)
      modifies this`started, this`streaming, this`stopRequested
      ensures Shape() && Refines(Concluded(u, ok), 0)
    {
      if ok {
        started, streaming := true, true;
      } else {
        stopRequested := true;
      }
    }

    // ---- Feedback and the render thread -------------------------------------------------------

    method LeaveFeedback(lost: bool, ghost s: State)
      requires Shape() && Refines(s, 0) && s.bus.inflight > 0
      modifies this`inflight, this`failed, this`captureActive, this`streaming, this`stopRequested
      ensures Shape() && Refines(s.(bus := FeedbackLeaves(s.bus), flags := if lost then Fail(s.flags) else s.flags), 0)
    {
      inflight := inflight - 1;
      if lost {
        MarkTransportFailed();
      }
    }

    /** `onFeedback`, its rate aside. */
    method OnFeedback(status: Status, ok: bool, ghost s: State)
      requires Shape() && Refines(s, 0) && s.bus.inflight > 0
      modifies this`inflight, this`failed, this`captureActive, this`streaming, this`stopRequested
      ensures Shape() && Refines(Transport.OnFeedback(s, status, ok), 0)
    {
      if status == Cancelled || stopRequested {
        LeaveFeedback(false, s);
      } else if status == NoDevice || !ok {
        LeaveFeedback(true, s);
      }
    }

    /** `takePlaybackCredit` from its exchange on, the queue loaded before: the frames are paid for, or nothing is. */
    method TakeCredit(frames: nat, seen: nat, ghost s: State) returns (admitted: bool)
      requires Shape() && Refines(s, 0)
      modifies this`credit
      ensures admitted == CreditAdmits(s, frames, seen)
      ensures Shape() && Refines(if admitted then Charged(s, frames) else s, 0)
    {
      if frames == 0 || !started {
        return true;
      }
      admitted := credit - frames >= 0 - cfg.target - seen - cfg.reserve;
      if admitted {
        credit := credit - frames;
      }
    }
  }

  /** `startIsoPump(false)`: pools allocated and descriptors primed, nothing submitted. */
  method StartIsoPump(cfg: Config, capacity: nat, primed: seq<seq<nat>>, feedbackPool: nat, ghost capturePool: nat,
                      capturing: nat, live: bool)
      returns (d: UacDriver)
    requires Primed(cfg, primed) && capacity > 0 && capturing <= capturePool && (cfg.implicit ==> live)
    ensures fresh(d) && d.Shape() && d.feedbackPool == feedbackPool
    ensures var s := InitialState(cfg, primed, feedbackPool, capturePool, capturing, live); Init(s) && d.Refines(s, 0)
  {
    var ring := new ByteRing(capacity);
    var layouts := new LayoutQueue();
    var pending := new DeferralArray();
    var buffers := AllocateBuffers(|primed|, cfg.packets * (cfg.maxFrames * cfg.stride));
    d := new UacDriver(cfg, ring, layouts, pending, buffers, primed, feedbackPool, capturing, live);
    InitialStateOk(cfg, primed, feedbackPool, capturePool, capturing, live);
    d.AtRestRefines(primed, feedbackPool, capturePool, capturing, live);
  }

  /**
   * What the device has read, what a failed submission lost and what the ring holds are what was
   * committed, for every driver that refines a state of a run, the initial transfers included.
   */
  lemma DeviceReadsCommitted(d: UacDriver, run: seq<State>, events: seq<Event>, i: nat)
    requires IsRun(run, events) && i < |run| && d.Shape() && d.Holds(run[i], 0)
    ensures run[i].stream.committed == d.wire + run[i].stream.lost + d.ring.Contents()
    ensures !run[i].flags.stopRequested ==> run[i].stream.committed == d.wire + d.ring.Contents()
  {
    PlaybackStreamRefinement(run, events, i);
  }
}
