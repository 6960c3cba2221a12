/** Every step keeps the invariants, so every run does; and the safety results that follow. */
module TransportSafety {
  import opened Core
  import opened Transport
  import opened TransportInvariants

  // ---- Draining -------------------------------------------------------------------------

  lemma {:induction false} FillConserves(ring: seq<Byte>, plan: seq<nat>, stride: nat)
    ensures var f := Fill(ring, plan, stride);
            f.payload + f.rest == ring && |f.lengths| == |plan| && Sum(f.lengths) == |f.payload|
  {
    if plan != [] {
      var last := |plan| - 1;
      FillConserves(ring, plan[..last], stride);
      var g := Fill(ring, plan[..last], stride);
      var n := Min(plan[last] * stride, |g.rest|);
      FillCut(g, n);
    }
  }

  lemma FillCut(g: Filled, n: nat)
    requires n <= |g.rest|
    ensures g.payload + g.rest[..n] + g.rest[n..] == g.payload + g.rest
    ensures Sum(g.lengths + [n]) == Sum(g.lengths) + n
  {
    assert (g.lengths + [n])[..|g.lengths|] == g.lengths;
  }

  lemma WholeMin(d: nat, rest: nat, stride: nat)
    requires stride > 0 && rest % stride == 0
    ensures var n := Min(d * stride, rest); n % stride == 0 && (rest - n) % stride == 0
  {
    WholeProduct(d, stride);
    WholeDifference(rest, Min(d * stride, rest), stride);
  }

  /** Draining stays on frame boundaries and never exceeds the plan. */
  lemma {:induction false} FillWhole(ring: seq<Byte>, plan: seq<nat>, stride: nat)
    requires stride > 0 && |ring| % stride == 0
    ensures var f := Fill(ring, plan, stride);
            && |f.lengths| == |plan| && AllWhole(f.lengths, stride) && |f.rest| % stride == 0
            && forall k :: 0 <= k < |plan| ==> f.lengths[k] <= plan[k] * stride
  {
    if plan != [] {
      var last := |plan| - 1;
      FillWhole(ring, plan[..last], stride);
      WholeMin(plan[last], |Fill(ring, plan[..last], stride).rest|, stride);
    }
  }

  lemma SumScaled(plan: seq<nat>, stride: nat)
    requires plan != []
    ensures Sum(plan) * stride == Sum(plan[..|plan| - 1]) * stride + plan[|plan| - 1] * stride
    ensures Sum(plan[..|plan| - 1]) * stride >= 0 && plan[|plan| - 1] * stride >= 0
  {
    Distribute(Sum(plan[..|plan| - 1]), plan[|plan| - 1], stride);
    ScaleBound(0, Sum(plan[..|plan| - 1]), stride);
    ScaleBound(0, plan[|plan| - 1], stride);
  }

  lemma ExactNext(lengths: seq<nat>, plan: seq<nat>, stride: nat, n: nat)
    requires plan != [] && |lengths| == |plan| - 1 && n == plan[|plan| - 1] * stride
    requires forall k :: 0 <= k < |lengths| ==> lengths[k] == plan[..|plan| - 1][k] * stride
    ensures forall k :: 0 <= k < |plan| ==> (lengths + [n])[k] == plan[k] * stride
  {
  }

  /** With the whole payload buffered, no packet is short. */
  lemma {:induction false} FillExact(ring: seq<Byte>, plan: seq<nat>, stride: nat)
    requires Sum(plan) * stride <= |ring|
    ensures var f := Fill(ring, plan, stride);
            && |f.rest| == |ring| - Sum(plan) * stride
            && |f.lengths| == |plan|
            && forall k :: 0 <= k < |plan| ==> f.lengths[k] == plan[k] * stride
  {
    if plan != [] {
      var front := plan[..|plan| - 1];
      SumScaled(plan, stride);
      FillExact(ring, front, stride);
      var g, n := Fill(ring, front, stride), plan[|plan| - 1] * stride;
      assert Min(n, |g.rest|) == n;
      ExactNext(g.lengths, plan, stride, n);
    }
  }

  lemma FrameCount(n: nat, whole: nat, stride: nat)
    requires stride > 0 && whole % stride == 0 && n <= whole / stride
    ensures n * stride <= whole
  {
    var q := whole / stride;
    assert whole == q * stride;
    assert (q - n) * stride >= 0;
  }

  // ---- Bus steps ------------------------------------------------------------------------

  lemma PoolUpdate(cfg: Config, b: Bus, t: nat, x: Transfer)
    requires cfg.stride > 0 && BusOk(cfg, b) && t < |b.transfers| && DescriptorsOk(x, cfg)
    ensures var ts := b.transfers[t := x];
            && |ts| == |b.transfers|
            && forall i :: 0 <= i < |ts| ==> DescriptorsOk(ts[i], cfg)
  {
  }

  lemma RetireBus(cfg: Config, b: Bus, t: nat)
    requires cfg.stride > 0 && BusOk(cfg, b) && t < |b.transfers| && b.transfers[t].place.InFlight?
    ensures var u := Retire(b, t, cfg.stride);
            && BusOk(cfg, u) && u.transfers[t].place.Idle?
            && u.queued + Frames(b.transfers[t].lengths, cfg.stride) == b.queued
            && u.inflight + 1 == b.inflight
  {
    var x := b.transfers[t].(place := Idle);
    PoolUpdate(cfg, b, t, x);
    CountUpdate(b.transfers, t, x, cfg.stride);
    CountPositive(b.transfers, t);
  }

  lemma SubmitIdle(cfg: Config, b: Bus, t: nat, lengths: seq<nat>, ok: bool)
    requires cfg.stride > 0 && BusOk(cfg, b) && t < |b.transfers| && b.transfers[t].place.Idle?
    requires DescriptorsOk(Transfer(InFlight, lengths), cfg)
    ensures var u := Submit(b, t, lengths, cfg.stride, ok);
            BusOk(cfg, u) && u.queued == b.queued + (if ok then Frames(lengths, cfg.stride) else 0)
  {
    var x := if ok then Transfer(InFlight, lengths) else b.transfers[t].(lengths := lengths);
    PoolUpdate(cfg, b, t, x);
    CountUpdate(b.transfers, t, x, cfg.stride);
  }

  /** The head of the deferral FIFO leaves it exactly when its submission is accepted. */
  lemma SubmitHead(cfg: Config, b: Bus, lengths: seq<nat>, ok: bool)
    requires cfg.stride > 0 && BusOk(cfg, b) && b.pending != []
    requires DescriptorsOk(Transfer(InFlight, lengths), cfg)
    ensures var v := Submit(b, b.pending[0], lengths, cfg.stride, ok);
            var u := if ok then Dequeue(v) else v;
            BusOk(cfg, u) && u.queued == b.queued + (if ok then Frames(lengths, cfg.stride) else 0)
  {
    var t := b.pending[0];
    assert t in b.pending;
    var x := if ok then Transfer(InFlight, lengths) else b.transfers[t].(lengths := lengths);
    PoolUpdate(cfg, b, t, x);
    CountUpdate(b.transfers, t, x, cfg.stride);
    HeadLeaves(b.pending);
  }

  lemma HeadLeaves(pending: seq<nat>)
    requires pending != [] && NoDup(pending)
    ensures NoDup(pending[1..]) && forall i: nat :: i in pending[1..] <==> i in pending && i != pending[0]
  {
  }

  lemma EnqueueBus(cfg: Config, b: Bus, t: nat)
    requires cfg.stride > 0 && BusOk(cfg, b) && t < |b.transfers| && b.transfers[t].place.Idle?
    ensures BusOk(cfg, Enqueue(b, t))
  {
    var x := b.transfers[t].(place := Deferred);
    PoolUpdate(cfg, b, t, x);
    CountUpdate(b.transfers, t, x, cfg.stride);
    assert forall i :: i in b.pending + [t] <==> i in b.pending || i == t;
  }

  // ---- Clock steps ----------------------------------------------------------------------

  lemma TakeKeepsClock(maxFrames: nat, c: Clock, lengths: seq<nat>, stride: nat)
    requires stride > 0 && ClockOk(maxFrames, c) && 0 < |lengths| <= |c.layouts|
    requires forall k :: 0 <= k < |lengths| ==> lengths[k] == Min(c.layouts[k], maxFrames) * stride
    ensures ClockOk(maxFrames, Take(c, lengths, stride))
  {
    TakenPlan(maxFrames, c, lengths, stride);
    TakePlanned(maxFrames, c, Take(c, lengths, stride), PlannedPackets(ReadIndex(c), lengths, stride));
  }

  lemma TakePlanned(maxFrames: nat, c: Clock, u: Clock, added: seq<Planned>)
    requires ClockOk(maxFrames, c) && 0 < |added| <= |c.layouts|
    requires u == c.(layouts := c.layouts[|added|..], plan := c.plan + added)
    requires forall k :: 0 <= k < |added| ==>
               added[k].index == ReadIndex(c) + k && added[k].frames == Min(c.log[ReadIndex(c) + k], maxFrames)
    ensures ClockOk(maxFrames, u)
  {
    assert u.layouts == u.log[ReadIndex(u)..];
    TakeKeepsChain(c, u, added);
  }

  lemma TakenPlan(maxFrames: nat, c: Clock, lengths: seq<nat>, stride: nat)
    requires stride > 0 && ClockOk(maxFrames, c) && 0 < |lengths| <= |c.layouts|
    requires forall k :: 0 <= k < |lengths| ==> lengths[k] == Min(c.layouts[k], maxFrames) * stride
    ensures var added := PlannedPackets(ReadIndex(c), lengths, stride);
            forall k :: 0 <= k < |lengths| ==>
              added[k].index == ReadIndex(c) + k && added[k].frames == Min(c.log[ReadIndex(c) + k], maxFrames)
  {
    var added := PlannedPackets(ReadIndex(c), lengths, stride);
    forall k | 0 <= k < |lengths|
      ensures added[k].index == ReadIndex(c) + k && added[k].frames == Min(c.log[ReadIndex(c) + k], maxFrames)
    {
      assert c.layouts[k] == c.log[ReadIndex(c) + k];
      WholeProduct(Min(c.layouts[k], maxFrames), stride);
    }
  }

  lemma TakeKeepsChain(c: Clock, u: Clock, added: seq<Planned>)
    requires |added| > 0 && u.plan == c.plan + added && u.resyncs == c.resyncs
    requires forall k :: 0 <= k < |added| ==> added[k].index == ReadIndex(c) + k
    requires forall k :: 0 < k < |c.plan| ==> Follows(c, c.plan[k - 1].index, c.plan[k].index)
    requires |c.plan| > 0 ==> Follows(c, c.plan[|c.plan| - 1].index, ReadIndex(c))
    ensures forall k :: 0 < k < |u.plan| ==> Follows(u, u.plan[k - 1].index, u.plan[k].index)
    ensures u.plan[|u.plan| - 1].index == ReadIndex(c) + |added| - 1
  {
    forall k | 0 < k < |u.plan|
      ensures Follows(u, u.plan[k - 1].index, u.plan[k].index)
    {
      if k < |c.plan| {
        assert Follows(c, c.plan[k - 1].index, c.plan[k].index);
      }
    }
  }

  lemma AppendKeepsClock(maxFrames: nat, c: Clock, u: Clock, frames: nat)
    requires ClockOk(maxFrames, c) && |c.layouts| < FIFO_CAPACITY
    requires u == c.(layouts := c.layouts + [frames], log := c.log + [frames])
    ensures ClockOk(maxFrames, u)
  {
    assert u.layouts == u.log[ReadIndex(u)..];
    forall k | 0 < k < |c.plan|
      ensures Follows(u, u.plan[k - 1].index, u.plan[k].index)
    {
      assert Follows(c, c.plan[k - 1].index, c.plan[k].index);
    }
  }

  /** The reader jumps to the entry that found the FIFO full. */
  lemma ResyncKeepsClock(maxFrames: nat, c: Clock, u: Clock, frames: nat)
    requires ClockOk(maxFrames, c) && |c.layouts| == FIFO_CAPACITY
    requires u == c.(layouts := [frames], overruns := c.overruns + 1, log := c.log + [frames], resyncs := c.resyncs + [|c.log|])
    ensures ClockOk(maxFrames, u)
  {
    var n := |c.plan|;
    assert u.resyncs[|c.resyncs|] == |c.log|;
    forall k | 0 < k < n
      ensures Follows(u, u.plan[k - 1].index, u.plan[k].index)
    {
      assert Follows(c, c.plan[k - 1].index, c.plan[k].index);
    }
    if n > 0 {
      assert c.plan[n - 1].index < ReadIndex(c);
    }
  }

  lemma LogKeepsClock(maxFrames: nat, c: Clock, frames: nat)
    requires ClockOk(maxFrames, c)
    ensures ClockOk(maxFrames, LogLayout(c, frames))
  {
    if |c.layouts| >= FIFO_CAPACITY {
      ResyncKeepsClock(maxFrames, c, LogLayout(c, frames), frames);
    } else {
      AppendKeepsClock(maxFrames, c, LogLayout(c, frames), frames);
    }
  }

  lemma {:induction false} LogAllKeepsClock(maxFrames: nat, c: Clock, packets: seq<nat>)
    requires ClockOk(maxFrames, c)
    ensures ClockOk(maxFrames, LogLayouts(c, packets))
  {
    if packets != [] {
      LogAllKeepsClock(maxFrames, c, packets[..|packets| - 1]);
      LogKeepsClock(maxFrames, LogLayouts(c, packets[..|packets| - 1]), packets[|packets| - 1]);
    }
  }

  // ---- Stream steps ---------------------------------------------------------------------

  lemma ShipKeepsStream(stride: nat, st: Stream, f: Filled, ok: bool, stopBefore: bool)
    requires stride > 0 && StreamOk(stride, st, stopBefore) && (ok ==> st.lost == [])
    requires f.payload + f.rest == st.ring && |f.rest| % stride == 0
    ensures StreamOk(stride, Ship(st, f, ok), stopBefore || !ok)
    ensures var u := Ship(st, f, ok);
            |u.ring| / stride + |u.lost| / stride + (if ok then |f.payload| / stride else 0)
            == |st.ring| / stride + |st.lost| / stride
  {
    WholeDifference(|st.ring|, |f.rest|, stride);
    var u := Ship(st, f, ok);
    if ok {
      assert u.sent + u.lost + u.ring == st.sent + (f.payload + f.rest);
    } else {
      assert u.sent + u.lost + u.ring == st.sent + st.lost + (f.payload + f.rest);
      WholeSum(|st.lost|, |f.payload|, stride);
    }
  }

  lemma AppendKeepsStream(stride: nat, st: Stream, pcm: seq<Byte>, stop: bool)
    requires stride > 0 && StreamOk(stride, st, stop) && |pcm| % stride == 0
    ensures StreamOk(stride, Append(st, pcm), stop)
    ensures |Append(st, pcm).ring| / stride == |st.ring| / stride + |pcm| / stride
  {
    WholeSum(|st.ring|, |pcm|, stride);
  }

  // ---- Launching ------------------------------------------------------------------------

  lemma ScaleBound(a: nat, b: nat, stride: nat)
    requires a <= b
    ensures a * stride <= b * stride
  {
    assert (b - a) * stride >= 0;
  }

  lemma FilledFacts(cfg: Config, ring: seq<Byte>, plan: seq<nat>)
    requires cfg.Valid() && |ring| % cfg.stride == 0
    requires |plan| == cfg.packets && forall k :: 0 <= k < |plan| ==> plan[k] <= cfg.maxFrames
    ensures var f := Fill(ring, plan, cfg.stride);
            && f.payload + f.rest == ring && |f.rest| % cfg.stride == 0
            && Frames(f.lengths, cfg.stride) == |f.payload| / cfg.stride
            && DescriptorsOk(Transfer(InFlight, f.lengths), cfg)
  {
    FillConserves(ring, plan, cfg.stride);
    FillWhole(ring, plan, cfg.stride);
    var lengths := Fill(ring, plan, cfg.stride).lengths;
    WholeLengths(lengths, cfg.stride);
    forall k | 0 <= k < |plan|
      ensures lengths[k] <= cfg.maxFrames * cfg.stride
    {
      ScaleBound(plan[k], cfg.maxFrames, cfg.stride);
    }
  }

  /** A paced launch, for an endpoint that capture does not clock. */
  lemma LaunchKeeps(s: State, t: nat, plan: seq<nat>, ok: bool)
    requires Inv(s) && !s.flags.stopRequested && !ImplicitNow(s)
    requires t < |s.bus.transfers| && s.bus.transfers[t].place.Idle? && s.flags.started
    requires |plan| == s.cfg.packets && forall k :: 0 <= k < |plan| ==> plan[k] <= s.cfg.maxFrames
    ensures Inv(Launch(s, t, Fill(s.stream.ring, plan, s.cfg.stride), ok))
  {
    var f := Fill(s.stream.ring, plan, s.cfg.stride);
    FilledFacts(s.cfg, s.stream.ring, plan);
    SubmitIdle(s.cfg, s.bus, t, f.lengths, ok);
    ShipKeepsStream(s.cfg.stride, s.stream, f, ok, false);
    LaunchedKeeps(s, t, f, ok, Launch(s, t, f, ok));
  }

  /** Bus and stream in order, the rest of the invariant follows. */
  lemma LaunchedKeeps(s: State, t: nat, f: Filled, ok: bool, u: State)
    requires Inv(s) && !s.flags.stopRequested && s.flags.started && !ImplicitNow(s) && t < |s.bus.transfers|
    requires u == s.(bus := u.bus, stream := u.stream, flags := if ok then s.flags else Fail(s.flags))
    requires u.bus == s.bus.(transfers := u.bus.transfers, inflight := u.bus.inflight, queued := u.bus.queued)
    requires BusOk(s.cfg, u.bus) && StreamOk(s.cfg.stride, u.stream, !ok) && u.bus.transfers != []
    requires u.bus.queued == s.bus.queued + (if ok then Frames(f.lengths, s.cfg.stride) else 0)
    requires |u.stream.ring| / s.cfg.stride + |u.stream.lost| / s.cfg.stride + (if ok then Frames(f.lengths, s.cfg.stride) else 0)
          == |s.stream.ring| / s.cfg.stride + |s.stream.lost| / s.cfg.stride
    ensures Inv(u)
  {
    LaunchLedger(s, u, if ok then Frames(f.lengths, s.cfg.stride) else 0);
  }

  /** The layouts taken and the descriptors written agree exactly: no short drain. */
  lemma NextFillExact(s: State)
    requires Inv(s) && CanPrepare(s)
    ensures var f := NextFill(s); var plan := NextPlan(s);
            && |plan| == s.cfg.packets == |f.lengths|
            && (forall k :: 0 <= k < |plan| ==>
                  plan[k] == Min(s.clock.layouts[k], s.cfg.maxFrames) && f.lengths[k] == plan[k] * s.cfg.stride)
  {
    FrameCount(Sum(NextPlan(s)), |s.stream.ring|, s.cfg.stride);
    FillExact(s.stream.ring, NextPlan(s), s.cfg.stride);
  }

  lemma LoadKeepsRunway(r: Runway, queued: nat, frames: nat)
    requires RunwayOk(r, queued)
    ensures RunwayOk(Load(r, frames), queued + frames)
  {
  }

  lemma LaunchBus(s: State, t: nat, f: Filled, ok: bool, head: bool)
    requires Inv(s) && t < |s.bus.transfers| && DescriptorsOk(Transfer(InFlight, f.lengths), s.cfg)
    requires if head then s.bus.pending != [] && t == s.bus.pending[0]
             else s.bus.transfers[t].place.Idle?
    ensures var v := Submit(s.bus, t, f.lengths, s.cfg.stride, ok); var b := if head && ok then Dequeue(v) else v;
            BusOk(s.cfg, b) && b.queued == s.bus.queued + (if ok then Frames(f.lengths, s.cfg.stride) else 0)
  {
    if head {
      SubmitHead(s.cfg, s.bus, f.lengths, ok);
    } else {
      SubmitIdle(s.cfg, s.bus, t, f.lengths, ok);
    }
  }

  lemma LaunchStream(s: State, f: Filled, ok: bool)
    requires Inv(s) && CanPrepare(s) && !s.flags.stopRequested && f == NextFill(s)
    ensures var u := Ship(s.stream, f, ok);
            && DescriptorsOk(Transfer(InFlight, f.lengths), s.cfg)
            && StreamOk(s.cfg.stride, u, !ok)
            && |u.ring| / s.cfg.stride + |u.lost| / s.cfg.stride + (if ok then Frames(f.lengths, s.cfg.stride) else 0)
               == |s.stream.ring| / s.cfg.stride + |s.stream.lost| / s.cfg.stride
  {
    FilledFacts(s.cfg, s.stream.ring, NextPlan(s));
    ShipKeepsStream(s.cfg.stride, s.stream, f, ok, false);
  }

  lemma LaunchClock(s: State)
    requires Inv(s) && CanPrepare(s)
    ensures |NextFill(s).lengths| == s.cfg.packets
    ensures ClockOk(s.cfg.maxFrames, Take(s.clock, NextFill(s).lengths, s.cfg.stride))
  {
    NextFillExact(s);
    TakeKeepsClock(s.cfg.maxFrames, s.clock, NextFill(s).lengths, s.cfg.stride);
  }

  /** Bus, stream and clock after a capture-clocked launch, from a completion or from the FIFO head. */
  lemma LaunchImplicitParts(s: State, t: nat, ok: bool, head: bool)
    requires Inv(s) && CanPrepare(s) && !s.flags.stopRequested && t < |s.bus.transfers|
    requires if head then s.bus.pending != [] && t == s.bus.pending[0]
             else s.bus.transfers[t].place.Idle?
    ensures var u := LaunchImplicit(s, t, ok);
            var b := if head && ok then Dequeue(u.bus) else u.bus;
            var frames := Frames(NextFill(s).lengths, s.cfg.stride);
            && BusOk(s.cfg, b) && b.queued == s.bus.queued + (if ok then frames else 0)
            && StreamOk(s.cfg.stride, u.stream, u.flags.stopRequested)
            && |u.stream.ring| / s.cfg.stride + |u.stream.lost| / s.cfg.stride + (if ok then frames else 0)
               == |s.stream.ring| / s.cfg.stride + |s.stream.lost| / s.cfg.stride
            && ClockOk(s.cfg.maxFrames, u.clock)
  {
    var f := NextFill(s);
    LaunchStream(s, f, ok);
    LaunchBus(s, t, f, ok, head);
    LaunchClock(s);
  }

  /** What `LaunchImplicitParts` leaves: order, ledger, runway, flags and teardown. */
  lemma LaunchHeadRest(s: State, ok: bool, b: Bus, u: State)
    requires Inv(s) && CanPrepare(s) && !s.flags.stopRequested && s.flags.started && s.bus.pending != []
    requires u == LaunchImplicit(s, s.bus.pending[0], ok)
    requires b == if ok then Dequeue(u.bus) else u.bus
    ensures OrderOk(u.order, b, u.flags.stopRequested)
    ensures b.transfers != [] && b.feedbackPool == s.bus.feedbackPool && b.capturePool == s.bus.capturePool
  {
    var t := s.bus.pending[0];
    assert s.bus.pending == [t] + s.bus.pending[1..];
    assert |b.transfers| == |s.bus.transfers| > t;
  }

  lemma LaunchLedger(s: State, u: State, frames: nat)
    requires Inv(s) && s.flags.started && !s.flags.stopRequested
    requires u.ledger == s.ledger && u.flags.started
    requires u.bus.queued == s.bus.queued + frames
    requires |u.stream.ring| / s.cfg.stride + |u.stream.lost| / s.cfg.stride + frames
          == |s.stream.ring| / s.cfg.stride + |s.stream.lost| / s.cfg.stride
    ensures LedgerOk(s.cfg.stride, u.ledger, u.stream, u.bus.queued, u.flags)
  {
  }

  /** Launching the head of the deferral FIFO. */
  lemma LaunchHeadKeeps(s: State, ok: bool)
    requires Inv(s) && CanPrepare(s) && !s.flags.stopRequested && s.flags.started
    requires s.bus.pending != []
    ensures var u := LaunchImplicit(s, s.bus.pending[0], ok);
            && Inv(if ok then u.(bus := Dequeue(u.bus)) else u)
  {
    var u := LaunchImplicit(s, s.bus.pending[0], ok);
    var v := if ok then u.(bus := Dequeue(u.bus)) else u;
    var frames := Frames(NextFill(s).lengths, s.cfg.stride);
    LaunchImplicitParts(s, s.bus.pending[0], ok, true);
    LoadKeepsRunway(s.runway, s.bus.queued, frames);
    LaunchHeadRest(s, ok, v.bus, u);
    LaunchLedger(s, v, if ok then frames else 0);
    assert FlagsOk(v) && TeardownOk(v);
  }

  function Settled(o: Order, t: nat, ok: bool): Order {
    o.(completions := o.completions + [t], dropped := if ok then o.dropped else o.dropped + [t])
  }

  lemma LaunchDirectRest(s: State, t: nat, ok: bool, u: State)
    requires Inv(s) && CanPrepare(s) && !s.flags.stopRequested && s.flags.started
    requires t < |s.bus.transfers| && s.bus.pending == []
    requires u == LaunchImplicit(s, t, ok)
    ensures OrderOk(Settled(u.order, t, ok), u.bus, u.flags.stopRequested)
    ensures u.bus.transfers != [] && u.bus.feedbackPool == s.bus.feedbackPool && u.bus.capturePool == s.bus.capturePool
    ensures u.ledger == s.ledger && u.flags == (if ok then s.flags else Fail(s.flags))
    ensures u.control == s.control && u.interfaces == s.interfaces && u.deviceOpen == s.deviceOpen
    ensures u.runway == if ok then Load(s.runway, Frames(NextFill(s).lengths, s.cfg.stride)) else s.runway
  {
    assert |u.bus.transfers| == |s.bus.transfers| > t;
    assert s.order.completions == s.order.resubmits;
  }

  /** Resubmitting a completed transfer directly, nothing being deferred. */
  lemma LaunchDirectKeeps(s: State, t: nat, ok: bool)
    requires Inv(s) && CanPrepare(s) && !s.flags.stopRequested && s.flags.started
    requires t < |s.bus.transfers| && s.bus.transfers[t].place.Idle? && s.bus.pending == []
    ensures var u := LaunchImplicit(s, t, ok);
            Inv(u.(order := Settled(u.order, t, ok)))
  {
    var u := LaunchImplicit(s, t, ok);
    var frames := Frames(NextFill(s).lengths, s.cfg.stride);
    LaunchImplicitParts(s, t, ok, false);
    LaunchDirectRest(s, t, ok, u);
    LoadKeepsRunway(s.runway, s.bus.queued, frames);
    LaunchLedger(s, u, if ok then frames else 0);
  }

  // ---- Callbacks ------------------------------------------------------------------------

  /** A completion leaves the bus: its frames go back to the producer, or are forgone by a stop. */
  lemma RetireKeeps(s: State, t: nat, grant: bool, fail: bool)
    requires Inv(s) && t < |s.bus.transfers| && s.bus.transfers[t].place.InFlight?
    requires grant ==> s.flags.started && !fail
    requires !grant ==> s.flags.stopRequested || fail
    ensures Inv(Retired(s, t, grant).(flags := if fail then Fail(s.flags) else s.flags))
  {
    RetireBus(s.cfg, s.bus, t);
  }

  lemma DeferKeeps(s: State, t: nat)
    requires Inv(s) && ImplicitNow(s) && s.flags.started && !s.flags.stopRequested
    requires t < |s.bus.transfers| && s.bus.transfers[t].place.Idle?
    ensures var u := Defer(s, t);
            Inv(u.(order := u.order.(completions := u.order.completions + [t])))
  {
    DeferralArrayHasRoom(s.cfg, s.bus, t);
    EnqueueBus(s.cfg, s.bus, t);
    assert s.order.resubmits + s.order.dropped + s.bus.pending + [t]
        == s.order.resubmits + s.order.dropped + (s.bus.pending + [t]);
  }

  lemma ResubmitKeeps(u: State, t: nat, ok: bool, plan: seq<nat>)
    requires Inv(u) && !u.flags.stopRequested && u.flags.started
    requires t < |u.bus.transfers| && u.bus.transfers[t].place.Idle?
    requires |plan| == u.cfg.packets && forall k :: 0 <= k < |plan| ==> plan[k] <= u.cfg.maxFrames
    ensures Inv(Resubmit(u, t, ok, plan))
  {
    if !ImplicitNow(u) {
      LaunchKeeps(u, t, plan, ok);
    } else if |u.bus.pending| > 0 || !CanPrepare(u) {
      DeferKeeps(u, t);
    } else {
      LaunchDirectKeeps(u, t, ok);
    }
  }

  lemma OnIsoKeeps(s: State, t: nat, status: Status, ok: bool, plan: seq<nat>)
    requires Inv(s) && t < |s.bus.transfers| && s.bus.transfers[t].place.InFlight?
    requires status == Cancelled ==> s.flags.stopRequested
    requires |plan| == s.cfg.packets && forall k :: 0 <= k < |plan| ==> plan[k] <= s.cfg.maxFrames
    ensures Inv(OnIso(s, t, status, ok, plan))
  {
    if status == Cancelled || s.flags.stopRequested {
      RetireKeeps(s, t, false, false);
    } else if status == NoDevice {
      RetireKeeps(s, t, false, true);
    } else {
      RetireKeeps(s, t, true, false);
      ResubmitKeeps(Retired(s, t, true), t, ok, plan);
    }
  }

  /** What a launch from the head of the deferral FIFO passes on to the next. */
  ghost predicate Onward(s: State, u: State) {
    && Inv(u) && (u.flags.stopRequested ==> u.flags.failed)
    && u.bus.captureInflight == s.bus.captureInflight && u.cfg == s.cfg && u.control == s.control
  }

  lemma LaunchHeadOnward(s: State, ok: bool, u: State)
    requires Inv(s) && CanPrepare(s) && !s.flags.stopRequested && s.flags.started && s.bus.pending != []
    requires u == LaunchImplicit(s, s.bus.pending[0], ok)
    ensures Onward(s, if ok then u.(bus := Dequeue(u.bus)) else u)
    ensures ok ==> u.flags == s.flags
  {
    LaunchHeadKeeps(s, ok);
  }

  lemma {:induction false} SubmitPendingKeeps(s: State, oks: seq<bool>)
    requires Inv(s) && !s.flags.stopRequested && (s.bus.pending != [] ==> s.flags.started)
    ensures Onward(s, SubmitPending(s, oks))
    decreases |s.bus.pending|
  {
    if s.bus.pending != [] && CanPrepare(s) {
      var ok := oks == [] || oks[0];
      var u := LaunchImplicit(s, s.bus.pending[0], ok);
      LaunchHeadOnward(s, ok, u);
      if ok {
        SubmitPendingKeeps(u.(bus := Dequeue(u.bus)), Rest(oks));
      }
    }
  }

  /** Deferred transfers are retried until one really cannot go. */
  lemma {:induction false} SubmitPendingExhausts(s: State, oks: seq<bool>)
    requires s.cfg.stride > 0 && |s.clock.layouts| <= |s.clock.log| && PendingInPool(s.bus)
    requires !s.flags.failed
    ensures var u := SubmitPending(s, oks);
            u.cfg == s.cfg && (u.flags.failed || u.bus.pending == [] || !CanPrepare(u))
    decreases |s.bus.pending|
  {
    if s.bus.pending != [] && CanPrepare(s) {
      var ok := oks == [] || oks[0];
      if ok {
        var u := LaunchImplicit(s, s.bus.pending[0], ok);
        SubmitPendingExhausts(u.(bus := Dequeue(u.bus)), Rest(oks));
      }
    }
  }

  lemma CaptureLeavesKeeps(s: State, fail: bool)
    requires Inv(s) && s.bus.captureInflight > 0
    ensures Inv(s.(bus := CaptureLeaves(s.bus), flags := if fail then Fail(s.flags) else s.flags))
  {
  }

  lemma LoggedKeeps(s: State, packets: seq<nat>)
    requires Inv(s)
    ensures Inv(s.(clock := LogLayouts(s.clock, packets)))
  {
    LogAllKeepsClock(s.cfg.maxFrames, s.clock, packets);
  }

  lemma ResubmitCaptureKeeps(u: State, ok: bool)
    requires Inv(u) && u.bus.captureInflight > 0
    ensures Inv(ResubmitCapture(u, ok))
  {
    CaptureLeavesKeeps(u, !u.flags.failed);
  }

  lemma DeferredMeansStarted(s: State)
    requires Inv(s) && s.bus.pending != [] && !s.flags.stopRequested
    ensures s.flags.started
  {
    assert s.bus.pending[0] in s.bus.pending;
  }

  lemma ServeCaptureKeeps(s: State, oks: seq<bool>, ok: bool)
    requires Inv(s) && s.bus.captureInflight > 0 && !s.flags.stopRequested
    ensures Inv(ResubmitCapture(SubmitPending(s, oks), ok))
  {
    if s.bus.pending != [] {
      DeferredMeansStarted(s);
    }
    SubmitPendingKeeps(s, oks);
    ResubmitCaptureKeeps(SubmitPending(s, oks), ok);
  }

  lemma OnCaptureKeeps(s: State, status: Status, packets: seq<nat>, oks: seq<bool>, ok: bool)
    requires Inv(s) && s.bus.captureInflight > 0
    ensures Inv(OnCapture(s, status, packets, oks, ok))
  {
    if !s.flags.captureActive || status == Cancelled || s.flags.stopRequested {
      CaptureLeavesKeeps(s, false);
    } else if status == NoDevice {
      CaptureLeavesKeeps(s, true);
    } else {
      LoggedKeeps(s, packets);
      ServeCaptureKeeps(if s.cfg.implicit then s.(clock := LogLayouts(s.clock, packets)) else s, oks, ok);
    }
  }

  lemma OnFeedbackKeeps(s: State, status: Status, ok: bool)
    requires Inv(s) && s.bus.feedback > 0
    ensures Inv(OnFeedback(s, status, ok))
  {
  }

  lemma ChargedKeeps(s: State, pcm: seq<Byte>, seen: nat)
    requires Inv(s) && |pcm| % s.cfg.stride == 0
    ensures Inv(PublishCharged(s, pcm, seen))
  {
    AppendKeepsStream(s.cfg.stride, s.stream, pcm, s.flags.stopRequested);
  }

  lemma FreeKeeps(s: State, pcm: seq<Byte>)
    requires Inv(s) && |pcm| % s.cfg.stride == 0
    ensures Inv(PublishFree(s, pcm))
  {
    AppendKeepsStream(s.cfg.stride, s.stream, pcm, s.flags.stopRequested);
  }

  lemma HeldKeeps(s: State, pcm: seq<Byte>)
    requires Inv(s) && |pcm| % s.cfg.stride == 0 && |pcm| / s.cfg.stride <= s.ledger.held
    ensures Inv(PublishHeld(s, pcm))
  {
    AppendKeepsStream(s.cfg.stride, s.stream, pcm, s.flags.stopRequested);
  }

  lemma HoldKeeps(s: State, frames: nat)
    requires Inv(s)
    ensures Inv(Hold(s, frames))
  {
  }

  // ---- Starting playback ----------------------------------------------------------------

  /** One transfer's initial drain, from what its predecessors left in the ring. */
  ghost predicate FillOk(cfg: Config, before: seq<Byte>, f: Filled)
    requires cfg.stride > 0
  {
    && f.payload + f.rest == before
    && |f.rest| % cfg.stride == 0
    && Frames(f.lengths, cfg.stride) == |f.payload| / cfg.stride
    && DescriptorsOk(Transfer(InFlight, f.lengths), cfg)
  }

  ghost function Before(ring: seq<Byte>, fills: seq<Filled>, k: nat): seq<Byte>
    requires k <= |fills|
  {
    if k == 0 then ring else fills[k - 1].rest
  }

  ghost predicate FillsChain(cfg: Config, ring: seq<Byte>, fills: seq<Filled>, count: nat)
    requires cfg.stride > 0 && count <= |fills|
  {
    count > 0 ==> FillOk(cfg, Before(ring, fills, count - 1), fills[count - 1]) && FillsChain(cfg, ring, fills, count - 1)
  }

  lemma DescriptorFits(cfg: Config, x: Transfer, k: nat)
    requires cfg.stride > 0 && DescriptorsOk(x, cfg) && k < |x.lengths|
    ensures x.lengths[k] / cfg.stride <= cfg.maxFrames
  {
    var q := x.lengths[k] / cfg.stride;
    assert q * cfg.stride <= cfg.maxFrames * cfg.stride;
    if q > cfg.maxFrames {
      LargeMultiple(q - cfg.maxFrames, cfg.stride);
    }
  }

  lemma InitialFill(cfg: Config, before: seq<Byte>, x: Transfer)
    requires cfg.Valid() && |before| % cfg.stride == 0 && DescriptorsOk(x, cfg)
    ensures FillOk(cfg, before, Fill(before, DescriptorFrames(x.lengths, cfg.stride), cfg.stride))
  {
    var plan := DescriptorFrames(x.lengths, cfg.stride);
    forall k | 0 <= k < |plan|
      ensures plan[k] <= cfg.maxFrames
    {
      DescriptorFits(cfg, x, k);
    }
    FilledFacts(cfg, before, plan);
  }

  lemma {:induction false} InitialFillsChain(cfg: Config, ring: seq<Byte>, ts: seq<Transfer>, count: nat)
    requires cfg.Valid() && count <= |ts| && |ring| % cfg.stride == 0
    requires forall t :: 0 <= t < |ts| ==> DescriptorsOk(ts[t], cfg)
    ensures FillsChain(cfg, ring, InitialFills(ring, ts, count, cfg.stride), count)
  {
    if count > 0 {
      InitialFillsChain(cfg, ring, ts, count - 1);
      var front := InitialFills(ring, ts, count - 1, cfg.stride);
      ChainNext(cfg, ring, front, ts[count - 1],
                Fill(Before(ring, front, count - 1), DescriptorFrames(ts[count - 1].lengths, cfg.stride), cfg.stride));
    }
  }

  lemma ChainNext(cfg: Config, ring: seq<Byte>, front: seq<Filled>, x: Transfer, f: Filled)
    requires cfg.Valid() && |ring| % cfg.stride == 0 && DescriptorsOk(x, cfg) && FillsChain(cfg, ring, front, |front|)
    requires f == Fill(Before(ring, front, |front|), DescriptorFrames(x.lengths, cfg.stride), cfg.stride)
    ensures FillsChain(cfg, ring, front + [f], |front| + 1)
  {
    InitialFill(cfg, Before(ring, front, |front|), x);
    assert (front + [f])[..|front|] == front;
    ChainExtends(cfg, ring, front, front + [f], |front|);
  }

  lemma {:induction false} ChainExtends(cfg: Config, ring: seq<Byte>, front: seq<Filled>, fills: seq<Filled>, count: nat)
    requires cfg.stride > 0 && count <= |front| <= |fills| && fills[..|front|] == front
    requires FillsChain(cfg, ring, front, count)
    ensures FillsChain(cfg, ring, fills, count)
  {
    if count > 0 {
      assert fills[..|front|][count - 1] == fills[count - 1];
      assert count > 1 ==> fills[..|front|][count - 2] == fills[count - 2];
      ChainExtends(cfg, ring, front, fills, count - 1);
    }
  }

  /** Bus and stream once the first `count` initial submissions have been attempted. */
  ghost predicate Started(cfg: Config, b: Bus, st: Stream, fills: seq<Filled>, count: nat, accepted: nat, r: (Bus, Stream))
    requires cfg.stride > 0 && count <= |fills|
  {
    && BusOk(cfg, r.0) && StreamOk(cfg.stride, r.1, accepted < count)
    && r.0 == b.(transfers := r.0.transfers, inflight := r.0.inflight, queued := r.0.queued)
    && |r.0.transfers| == |b.transfers|
    && (forall t :: count <= t < |b.transfers| ==> r.0.transfers[t].place.Idle?)
    && r.1.ring == Before(st.ring, fills, count)
    && |r.1.ring| / cfg.stride + |r.1.lost| / cfg.stride + r.0.queued == |st.ring| / cfg.stride + b.queued
  }

  lemma SubmitInitialStep(cfg: Config, b: Bus, st: Stream, fills: seq<Filled>, k: nat, accepted: nat,
                          r: (Bus, Stream), next: (Bus, Stream))
    requires cfg.Valid() && k < |b.transfers| && k < |fills|
    requires Started(cfg, b, st, fills, k, accepted, r)
    requires FillOk(cfg, Before(st.ring, fills, k), fills[k])
    requires next.0 == Submit(r.0, k, fills[k].lengths, cfg.stride, k < accepted)
    requires next.1 == Ship(r.1, fills[k], k < accepted)
    ensures Started(cfg, b, st, fills, k + 1, accepted, next)
  {
    SubmitIdle(cfg, r.0, k, fills[k].lengths, k < accepted);
    ShipKeepsStream(cfg.stride, r.1, fills[k], k < accepted, accepted < k);
  }

  lemma {:induction false} SubmitInitialKeeps(cfg: Config, b: Bus, st: Stream, fills: seq<Filled>, count: nat, accepted: nat,
                                              r: (Bus, Stream))
    requires cfg.Valid() && count <= |b.transfers| <= |fills|
    requires Started(cfg, b, st, fills, 0, accepted, (b, st)) && FillsChain(cfg, st.ring, fills, count)
    requires r == SubmitInitial(b, st, fills, count, accepted, cfg.stride)
    ensures Started(cfg, b, st, fills, count, accepted, r)
  {
    if count > 0 {
      var q := SubmitInitial(b, st, fills, count - 1, accepted, cfg.stride);
      SubmitInitialKeeps(cfg, b, st, fills, count - 1, accepted, q);
      SubmitInitialStep(cfg, b, st, fills, count - 1, accepted, q, r);
    }
  }

  lemma StartedBase(cfg: Config, b: Bus, st: Stream, fills: seq<Filled>, accepted: nat)
    requires cfg.Valid() && BusOk(cfg, b) && StreamOk(cfg.stride, st, false)
    requires forall t :: 0 <= t < |b.transfers| ==> b.transfers[t].place.Idle?
    ensures Started(cfg, b, st, fills, 0, accepted, (b, st))
  {
    assert st.lost == [];
    WholeProduct(0, cfg.stride);
  }

  /** What attempting every initial submission leaves, whatever the flags then become. */
  ghost predicate Pumped(s: State, u: State, fb: nat, reached: nat)
    requires s.cfg.stride > 0
  {
    && u == s.(bus := u.bus, stream := u.stream)
    && BusOk(s.cfg, u.bus) && StreamOk(s.cfg.stride, u.stream, reached < |s.bus.transfers|)
    && u.bus == s.bus.(transfers := u.bus.transfers, inflight := u.bus.inflight, queued := u.bus.queued,
                       feedback := s.bus.feedback + fb)
    && |u.bus.transfers| == |s.bus.transfers|
    && |u.stream.ring| / s.cfg.stride + |u.stream.lost| / s.cfg.stride + u.bus.queued
       == |s.stream.ring| / s.cfg.stride + s.bus.queued
  }

  lemma FeedbackKeepsBus(s: State, fb: nat)
    requires Inv(s) && !s.flags.started && !s.flags.stopRequested && fb <= s.bus.feedbackPool
    ensures BusOk(s.cfg, s.bus.(feedback := s.bus.feedback + fb, inflight := s.bus.inflight + fb))
    ensures forall t :: 0 <= t < |s.bus.transfers| ==> s.bus.transfers[t].place.Idle?
    ensures StreamOk(s.cfg.stride, s.stream, false)
  {
  }

  lemma PumpedFromStarted(s: State, fills: seq<Filled>, fb: nat, reached: nat, r: (Bus, Stream))
    requires s.cfg.stride > 0 && |fills| == |s.bus.transfers|
    requires var b := s.bus.(feedback := s.bus.feedback + fb, inflight := s.bus.inflight + fb);
             Started(s.cfg, b, s.stream, fills, |fills|, reached, r)
    ensures Pumped(s, s.(bus := r.0, stream := r.1), fb, reached)
  {
  }

  lemma StartFrom(s: State, fills: seq<Filled>, fb: nat, reached: nat, b: Bus, r: (Bus, Stream))
    requires Inv(s) && !s.flags.started && !s.flags.stopRequested && fb <= s.bus.feedbackPool
    requires |fills| == |s.bus.transfers| && FillsChain(s.cfg, s.stream.ring, fills, |fills|)
    requires b == s.bus.(feedback := s.bus.feedback + fb, inflight := s.bus.inflight + fb)
    requires r == SubmitInitial(b, s.stream, fills, |fills|, reached, s.cfg.stride)
    ensures Started(s.cfg, b, s.stream, fills, |fills|, reached, r)
  {
    FeedbackKeepsBus(s, fb);
    StartedBase(s.cfg, b, s.stream, fills, reached);
    SubmitInitialKeeps(s.cfg, b, s.stream, fills, |fills|, reached, r);
  }

  lemma SubmitPumpKeeps(s: State, fb: nat, reached: nat, u: State)
    requires Inv(s) && !s.flags.started && !s.flags.stopRequested && fb <= s.bus.feedbackPool
    requires u == SubmitPump(s, fb, reached)
    ensures Pumped(s, u, fb, reached)
  {
    var n := |s.bus.transfers|;
    var fills := InitialFills(s.stream.ring, s.bus.transfers, n, s.cfg.stride);
    var b := s.bus.(feedback := s.bus.feedback + fb, inflight := s.bus.inflight + fb);
    var r := SubmitInitial(b, s.stream, fills, n, reached, s.cfg.stride);
    assert u == s.(bus := r.0, stream := r.1);
    PlanChain(s);
    PumpFrom(s, fills, fb, reached, b, r, u);
  }

  lemma PumpFrom(s: State, fills: seq<Filled>, fb: nat, reached: nat, b: Bus, r: (Bus, Stream), u: State)
    requires Inv(s) && !s.flags.started && !s.flags.stopRequested && fb <= s.bus.feedbackPool
    requires |fills| == |s.bus.transfers| && FillsChain(s.cfg, s.stream.ring, fills, |fills|)
    requires b == s.bus.(feedback := s.bus.feedback + fb, inflight := s.bus.inflight + fb)
    requires r == SubmitInitial(b, s.stream, fills, |fills|, reached, s.cfg.stride)
    requires u == s.(bus := r.0, stream := r.1)
    ensures Pumped(s, u, fb, reached)
  {
    StartFrom(s, fills, fb, reached, b, r);
    PumpedFromStarted(s, fills, fb, reached, r);
  }

  lemma PlanChain(s: State)
    requires Inv(s)
    ensures var fills := InitialFills(s.stream.ring, s.bus.transfers, |s.bus.transfers|, s.cfg.stride);
            FillsChain(s.cfg, s.stream.ring, fills, |fills|)
  {
    InitialFillsChain(s.cfg, s.stream.ring, s.bus.transfers, |s.bus.transfers|);
  }

  lemma PumpedRefusedKeeps(s: State, u: State, fb: nat, reached: nat)
    requires Inv(s) && s.control.Free? && !s.flags.started && !s.flags.stopRequested
    requires fb <= s.bus.feedbackPool && Pumped(s, u, fb, reached)
    ensures Inv(u.(flags := s.flags.(stopRequested := true), control := AbortingStart))
  {
    CountIdle(s.bus.transfers, s.cfg.stride);
  }

  lemma PumpedAcceptedKeeps(s: State, u: State, fb: nat, reached: nat)
    requires Inv(s) && s.control.Free? && !s.flags.started && !s.flags.stopRequested
    requires fb <= s.bus.feedbackPool && Pumped(s, u, fb, reached) && reached >= |s.bus.transfers|
    ensures Inv(u.(flags := s.flags.(started := true, streaming := true),
                   ledger := s.ledger.(stock := s.ledger.credit + RingFrames(s) + s.ledger.held)))
  {
    CountIdle(s.bus.transfers, s.cfg.stride);
    WholeProduct(0, s.cfg.stride);
  }

  lemma StartKeeps(s: State, fb: nat, reached: nat, u: State)
    requires Inv(s) && s.control.Free? && !s.flags.started && !s.flags.stopRequested && fb <= s.bus.feedbackPool
    requires Pumped(s, u, fb, reached)
    ensures reached >= |s.bus.transfers| ==>
              Inv(u.(flags := s.flags.(started := true, streaming := true),
                     ledger := s.ledger.(stock := s.ledger.credit + RingFrames(s) + s.ledger.held)))
    ensures Inv(u.(flags := s.flags.(stopRequested := true), control := AbortingStart))
  {
    PumpedRefusedKeeps(s, u, fb, reached);
    if reached >= |s.bus.transfers| {
      PumpedAcceptedKeeps(s, u, fb, reached);
    }
  }

  lemma StartPlaybackKeeps(s: State, feedbackAccepted: nat, accepted: nat)
    requires Inv(s) && s.control.Free?
    ensures Inv(StartPlayback(s, feedbackAccepted, accepted))
  {
    if !s.flags.started && !s.flags.stopRequested && s.cfg.primeFrames <= RingFrames(s) {
      var fb := Min(feedbackAccepted, s.bus.feedbackPool);
      var reached := if fb < s.bus.feedbackPool then 0 else accepted;
      var u := SubmitPump(s, fb, reached);
      SubmitPumpKeeps(s, fb, reached, u);
      StartKeeps(s, fb, reached, u);
    }
  }

  // ---- Teardown -------------------------------------------------------------------------

  lemma FreePoolKeeps(cfg: Config, b: Bus)
    requires cfg.stride > 0 && BusOk(cfg, b) && b.inflight == 0
    ensures BusOk(cfg, b.(pending := [], transfers := [], feedbackPool := 0, queued := 0))
  {
  }

  lemma StopPlaybackKeeps(s: State)
    requires Inv(s) && s.control.StoppingPlayback?
    ensures Inv(StopPhase(s))
  {
    if s.bus.inflight == 0 {
      FreePoolKeeps(s.cfg, s.bus);
    }
  }

  lemma AbortKeeps(s: State)
    requires Inv(s) && s.control.AbortingStart?
    ensures Inv(StopPhase(s))
  {
    if s.bus.inflight == 0 {
      FreePoolKeeps(s.cfg, s.bus);
    }
  }

  lemma StopBeginsKeeps(s: State)
    requires Inv(s) && s.control.Free?
    ensures Inv(StopPhase(s))
  {
  }

  lemma StopCaptureKeeps(s: State)
    requires Inv(s) && s.control.StoppingCapture?
    ensures Inv(StopPhase(s))
  {
  }

  lemma ReleaseKeeps(s: State)
    requires Inv(s) && s.control.Releasing?
    ensures Inv(StopPhase(s))
  {
  }

  lemma StopPhaseKeeps(s: State)
    requires Inv(s)
    ensures Inv(StopPhase(s))
  {
    match s.control
    case Free => StopBeginsKeeps(s);
    case AbortingStart => AbortKeeps(s);
    case StoppingPlayback => StopPlaybackKeeps(s);
    case StoppingCapture(_) => StopCaptureKeeps(s);
    case Releasing(_, _) => ReleaseKeeps(s);
  }

  lemma CloseDeviceKeeps(s: State)
    requires Inv(s)
    ensures Inv(CloseDevice(s))
  {
  }
}
