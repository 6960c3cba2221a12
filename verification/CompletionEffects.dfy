/**
 * What one completion does to the whole transport, over every run: which bytes leave the ring and in which packets,
 * where the transfer goes, and what happens to every counter. Nothing here calls the step it is about.
 */
module CompletionEffects {
  import opened Core
  import opened Transport
  import opened TransportInvariants
  import opened TransportSafety
  import opened TransportRuns

  // ---- Filling packets in order -----------------------------------------------------------------

  /** Bytes left for packet `k` once the packets before it took theirs, up to what it is planned to carry. */
  function PacketBytes(plan: seq<nat>, k: nat, stride: nat, buffered: nat): nat
    requires k < |plan|
  {
    var before := Sum(plan[..k]) * stride;
    if buffered <= before then 0 else Min(plan[k] * stride, buffered - before)
  }

  /** Each packet is its planned bytes as far as the ring lasts. */
  ghost predicate Packed(lengths: seq<nat>, plan: seq<nat>, stride: nat, buffered: nat) {
    |lengths| == |plan| && forall k :: 0 <= k < |plan| ==> lengths[k] == PacketBytes(plan, k, stride, buffered)
  }

  function Shipped(plan: seq<nat>, stride: nat, buffered: nat): nat {
    Min(Sum(plan) * stride, buffered)
  }

  lemma PackedNext(lengths: seq<nat>, plan: seq<nat>, stride: nat, buffered: nat)
    requires plan != [] && Packed(lengths, plan[..|plan| - 1], stride, buffered)
    ensures Packed(lengths + [PacketBytes(plan, |plan| - 1, stride, buffered)], plan, stride, buffered)
  {
    var front, all := plan[..|plan| - 1], lengths + [PacketBytes(plan, |plan| - 1, stride, buffered)];
    forall k | 0 <= k < |plan|
      ensures all[k] == PacketBytes(plan, k, stride, buffered)
    {
      if k < |front| {
        assert front[..k] == plan[..k];
      }
    }
  }

  lemma TakeOn(ring: seq<Byte>, n: nat, m: nat)
    requires n + m <= |ring|
    ensures ring[..n] + ring[n..][..m] == ring[..n + m] && ring[n..][m..] == ring[n + m..]
  {
  }

  /** The fill takes the front of the ring, as much of it as the plan asks for, and cuts it at the packets. */
  lemma {:induction false} FillExactly(ring: seq<Byte>, plan: seq<nat>, stride: nat)
    ensures var f := Fill(ring, plan, stride); var n := Shipped(plan, stride, |ring|);
            f.payload == ring[..n] && f.rest == ring[n..] && Packed(f.lengths, plan, stride, |ring|)
  {
    if plan != [] {
      var front, last := plan[..|plan| - 1], plan[|plan| - 1];
      FillExactly(ring, front, stride);
      SumScaled(plan, stride);
      var n := Shipped(front, stride, |ring|);
      TakeOn(ring, n, Min(last * stride, |ring| - n));
      PackedNext(Fill(ring, front, stride).lengths, plan, stride, |ring|);
    }
  }

  /** With everything planned there, every packet is whole. */
  lemma PlanWhole(plan: seq<nat>, k: nat, stride: nat, buffered: nat)
    requires k < |plan| && Sum(plan) * stride <= buffered
    ensures PacketBytes(plan, k, stride, buffered) == plan[k] * stride
  {
    SumPrefix(plan, k + 1);
    assert plan[..k + 1][..k] == plan[..k];
    Distribute(Sum(plan[..k]), plan[k], stride);
    ScaleBound(Sum(plan[..k + 1]), Sum(plan), stride);
    ScaleBound(0, plan[k], stride);
  }

  // ---- The OUT completion -----------------------------------------------------------------------

  /** Frames a transfer carried, by its descriptors. */
  function Carried(s: State, t: nat): nat
    requires s.cfg.stride > 0 && t < |s.bus.transfers|
  {
    Sum(s.bus.transfers[t].lengths) / s.cfg.stride
  }

  function Failed(f: Flags): Flags {
    Flags(f.started, true, true, false, false)
  }

  /** Off the bus for good: out of both counters, its frames neither granted nor replaced; a lost device ends the transport. */
  ghost predicate Left(s: State, u: State, t: nat, lost: bool)
    requires s.cfg.stride > 0 && t < |s.bus.transfers|
  {
    && 0 < s.bus.inflight && Carried(s, t) <= s.bus.queued
    && u == s.(bus := s.bus.(transfers := s.bus.transfers[t := Transfer(Idle, s.bus.transfers[t].lengths)],
                             inflight := s.bus.inflight - 1, queued := s.bus.queued - Carried(s, t)),
               ledger := s.ledger.(retired := s.ledger.retired + Carried(s, t)),
               flags := if lost then Failed(s.flags) else s.flags)
  }

  /** The first `n` bytes of the ring went out, or were lost with the submission that should have carried them. */
  ghost predicate Moved(st: Stream, u: Stream, n: nat, ok: bool) {
    && n <= |st.ring|
    && u == Stream(st.ring[n..], st.committed, if ok then st.sent + st.ring[..n] else st.sent,
                   if ok then st.lost else st.lost + st.ring[..n])
  }

  /** Transfer `t`, back from the bus, was given `lengths` of `frames` frames: on the bus again, or refused and idle. */
  ghost predicate Reloaded(s: State, u: State, t: nat, lengths: seq<nat>, frames: nat, ok: bool)
    requires s.cfg.stride > 0 && t < |s.bus.transfers|
  {
    && 0 < s.bus.inflight && Carried(s, t) <= s.bus.queued
    && u.bus == s.bus.(transfers := s.bus.transfers[t := Transfer(if ok then InFlight else Idle, lengths)],
                       inflight := if ok then s.bus.inflight else s.bus.inflight - 1,
                       queued := s.bus.queued - Carried(s, t) + (if ok then frames else 0))
    && u.ledger == s.ledger.(credit := s.ledger.credit + Carried(s, t))
    && u.flags == (if ok then s.flags else Failed(s.flags))
    && u == s.(bus := u.bus, stream := u.stream, ledger := u.ledger, flags := u.flags,
               clock := u.clock, order := u.order, runway := u.runway)
  }

  /** A paced endpoint sends what its plan asks for as far as the ring lasts. */
  ghost predicate SentPaced(s: State, u: State, t: nat, plan: seq<nat>, ok: bool)
    requires s.cfg.stride > 0 && t < |s.bus.transfers|
  {
    var n := Shipped(plan, s.cfg.stride, |s.stream.ring|);
    && t < |u.bus.transfers| && Packed(u.bus.transfers[t].lengths, plan, s.cfg.stride, |s.stream.ring|)
    && Moved(s.stream, u.stream, n, ok)
    && Reloaded(s, u, t, u.bus.transfers[t].lengths, n / s.cfg.stride, ok)
    && u.clock == s.clock && u.order == s.order && u.runway == s.runway
  }

  /** The oldest layouts queued, one per packet of a transfer, none over the packet maximum. */
  ghost function Wanted(c: Clock, packets: nat, maxFrames: nat): (r: seq<nat>)
    requires packets <= |c.layouts|
    ensures |r| == packets
  {
    seq(packets, k requires 0 <= k < packets => Min(c.layouts[k], maxFrames))
  }

  /** A whole set of layouts is queued, and the ring holds every frame it asks for. */
  ghost predicate Ready(s: State) {
    && s.cfg.packets <= |s.clock.layouts|
    && Sum(Wanted(s.clock, s.cfg.packets, s.cfg.maxFrames)) * s.cfg.stride <= |s.stream.ring|
  }

  /** The oldest layouts left the queue, each recorded with its index in the log and the frames it was used for. */
  ghost predicate Used(c: Clock, u: Clock, wanted: seq<nat>) {
    && |wanted| <= |c.layouts| <= |c.log|
    && u == c.(layouts := c.layouts[|wanted|..], plan := u.plan)
    && c.plan <= u.plan && |u.plan| == |c.plan| + |wanted|
    && forall k :: 0 <= k < |wanted| ==> u.plan[|c.plan| + k] == Planned(|c.log| - |c.layouts| + k, wanted[k])
  }

  ghost predicate InBytes(lengths: seq<nat>, frames: seq<nat>, stride: nat) {
    |lengths| == |frames| && forall k :: 0 <= k < |frames| ==> lengths[k] == frames[k] * stride
  }

  /** A transfer that carries frames ends a starvation. */
  ghost predicate Fed(r: Runway, u: Runway, frames: nat) {
    u == if frames > 0 then Runway(false, r.events, r.loaded + 1, r.episodes) else r
  }

  /** A capture-clocked endpoint sends exactly the layouts it takes. */
  ghost predicate SentClocked(s: State, u: State, t: nat, ok: bool)
    requires s.cfg.stride > 0 && t < |s.bus.transfers| && Ready(s)
  {
    var wanted := Wanted(s.clock, s.cfg.packets, s.cfg.maxFrames);
    && t < |u.bus.transfers| && InBytes(u.bus.transfers[t].lengths, wanted, s.cfg.stride)
    && Moved(s.stream, u.stream, Sum(wanted) * s.cfg.stride, ok)
    && Reloaded(s, u, t, u.bus.transfers[t].lengths, Sum(wanted), ok)
    && Used(s.clock, u.clock, wanted)
    && u.order == Order(s.order.completions + [t],
                        if ok then s.order.resubmits + [t] else s.order.resubmits,
                        if ok then s.order.dropped else s.order.dropped + [t])
    && (if ok then Fed(s.runway, u.runway, Sum(wanted)) else u.runway == s.runway)
  }

  /** Last in the deferral FIFO, with nothing taken from ring or layouts; an empty bus starts a starvation. */
  ghost predicate Waits(s: State, u: State, t: nat)
    requires s.cfg.stride > 0 && t < |s.bus.transfers|
  {
    && 0 < s.bus.inflight && Carried(s, t) <= s.bus.queued
    && u == s.(bus := s.bus.(transfers := s.bus.transfers[t := Transfer(Deferred, s.bus.transfers[t].lengths)],
                             pending := s.bus.pending + [t],
                             inflight := s.bus.inflight - 1, queued := s.bus.queued - Carried(s, t)),
               ledger := s.ledger.(credit := s.ledger.credit + Carried(s, t)),
               order := s.order.(completions := s.order.completions + [t]),
               runway := if s.bus.queued == Carried(s, t) && !s.runway.latch
                         then Runway(true, s.runway.events + 1, s.runway.loaded, s.runway.episodes + [s.runway.loaded])
                         else s.runway)
  }

  /** Everything an OUT completion may do. */
  ghost predicate IsoOutcome(s: State, u: State, t: nat, status: Status, ok: bool, plan: seq<nat>)
    requires s.cfg.stride > 0 && t < |s.bus.transfers|
  {
    if s.flags.stopRequested || status == Cancelled then Left(s, u, t, false)
    else if status == NoDevice then Left(s, u, t, true)
    else if !(s.flags.captureActive && s.cfg.implicit) then SentPaced(s, u, t, plan, ok)
    else if s.bus.pending == [] && Ready(s) then SentClocked(s, u, t, ok)
    else Waits(s, u, t)
  }

  // ---- Proof, one stage of the callback at a time -----------------------------------------------

  lemma ReadyIs(s: State)
    requires s.cfg.stride > 0
    ensures CanPrepare(s) <==> Ready(s)
    ensures CanPrepare(s) ==> NextPlan(s) == Wanted(s.clock, s.cfg.packets, s.cfg.maxFrames)
  {
    if s.cfg.packets <= |s.clock.layouts| {
      assert NextPlan(s) == Wanted(s.clock, s.cfg.packets, s.cfg.maxFrames);
      WholeBelow(Sum(NextPlan(s)), |s.stream.ring|, s.cfg.stride);
    }
  }

  lemma WholeBelow(n: nat, bytes: nat, stride: nat)
    requires stride > 0
    ensures n <= bytes / stride <==> n * stride <= bytes
  {
    if n * stride <= bytes {
      WholeProduct(n, stride);
      DivMonotone(n * stride, bytes, stride);
    } else if n <= bytes / stride {
      ScaleBound(n, bytes / stride, stride);
    }
  }

  /** Off the bus: the transfer idle, both counters down, its frames granted or forgone. */
  ghost predicate Returned(s: State, u: State, t: nat, grant: bool)
    requires s.cfg.stride > 0 && t < |s.bus.transfers|
  {
    && 0 < s.bus.inflight && Carried(s, t) <= s.bus.queued
    && u == s.(bus := s.bus.(transfers := s.bus.transfers[t := Transfer(Idle, s.bus.transfers[t].lengths)],
                             inflight := s.bus.inflight - 1, queued := s.bus.queued - Carried(s, t)),
               ledger := if grant then s.ledger.(credit := s.ledger.credit + Carried(s, t))
                         else s.ledger.(retired := s.ledger.retired + Carried(s, t)))
  }

  lemma RetiredReturns(s: State, t: nat, grant: bool)
    requires Inv(s) && t < |s.bus.transfers| && s.bus.transfers[t].place.InFlight?
    ensures Returned(s, Retired(s, t, grant), t, grant)
  {
    RetireBus(s.cfg, s.bus, t);
    WholeLengths(s.bus.transfers[t].lengths, s.cfg.stride);
  }

  lemma LaunchMoves(st: Stream, f: Filled, n: nat, ok: bool)
    requires n <= |st.ring| && f.payload == st.ring[..n] && f.rest == st.ring[n..]
    ensures Moved(st, Ship(st, f, ok), n, ok)
  {
  }

  lemma LaunchReloads(s: State, v: State, t: nat, f: Filled, ok: bool)
    requires s.cfg.stride > 0 && t < |s.bus.transfers| && Returned(s, v, t, true)
    ensures var u := Launch(v, t, f, ok);
            && Reloaded(s, u, t, f.lengths, Frames(f.lengths, s.cfg.stride), ok)
            && t < |u.bus.transfers| && u.bus.transfers[t].lengths == f.lengths && u.stream == Ship(s.stream, f, ok)
            && u.clock == s.clock && u.order == s.order && u.runway == s.runway
  {
  }

  lemma PacedAfter(s: State, v: State, t: nat, plan: seq<nat>, ok: bool, f: Filled)
    requires s.cfg.stride > 0 && t < |s.bus.transfers| && Returned(s, v, t, true)
    requires f == Fill(s.stream.ring, plan, s.cfg.stride) && Frames(f.lengths, s.cfg.stride) == |f.payload| / s.cfg.stride
    ensures SentPaced(s, Launch(v, t, f, ok), t, plan, ok)
  {
    FillExactly(s.stream.ring, plan, s.cfg.stride);
    LaunchMoves(s.stream, f, Shipped(plan, s.cfg.stride, |s.stream.ring|), ok);
    LaunchReloads(s, v, t, f, ok);
  }

  lemma ClockedFill(s: State)
    requires Inv(s) && Ready(s)
    ensures var f := NextFill(s); var wanted := Wanted(s.clock, s.cfg.packets, s.cfg.maxFrames); var n := Sum(wanted) * s.cfg.stride;
            && CanPrepare(s) && n <= |s.stream.ring| && f.payload == s.stream.ring[..n] && f.rest == s.stream.ring[n..]
            && InBytes(f.lengths, wanted, s.cfg.stride) && Frames(f.lengths, s.cfg.stride) == Sum(wanted)
  {
    ReadyIs(s);
    var plan := NextPlan(s);
    FillExactly(s.stream.ring, plan, s.cfg.stride);
    FilledFacts(s.cfg, s.stream.ring, plan);
    NextFillExact(s);
    WholeProduct(Sum(plan), s.cfg.stride);
  }

  lemma TakenUsed(c: Clock, lengths: seq<nat>, wanted: seq<nat>, stride: nat)
    requires stride > 0 && InBytes(lengths, wanted, stride) && |wanted| <= |c.layouts| <= |c.log|
    ensures Used(c, Take(c, lengths, stride), wanted)
  {
    var u := Take(c, lengths, stride);
    forall k | 0 <= k < |wanted|
      ensures u.plan[|c.plan| + k] == Planned(|c.log| - |c.layouts| + k, wanted[k])
    {
      WholeProduct(wanted[k], stride);
    }
  }

  lemma SameReady(s: State, v: State)
    requires v == s.(bus := v.bus, ledger := v.ledger)
    ensures Ready(v) <==> Ready(s)
    ensures Ready(s) ==> Wanted(v.clock, v.cfg.packets, v.cfg.maxFrames) == Wanted(s.clock, s.cfg.packets, s.cfg.maxFrames)
  {
  }

  /** Layouts, order and runway are not what a launch reloads. */
  lemma ReloadedBeside(s: State, u: State, w: State, t: nat, lengths: seq<nat>, frames: nat, ok: bool)
    requires s.cfg.stride > 0 && t < |s.bus.transfers| && Reloaded(s, u, t, lengths, frames, ok)
    requires w == u.(clock := w.clock, order := w.order, runway := w.runway)
    ensures Reloaded(s, w, t, lengths, frames, ok)
  {
  }

  lemma ImplicitBeside(v: State, t: nat, ok: bool)
    requires v.cfg.stride > 0 && t < |v.bus.transfers| && CanPrepare(v) && |v.clock.layouts| <= |v.clock.log|
    requires |NextFill(v).lengths| == v.cfg.packets
    ensures var u := LaunchImplicit(v, t, ok); var w := Launch(v, t, NextFill(v), ok); var frames := Frames(NextFill(v).lengths, v.cfg.stride);
            && u == w.(clock := u.clock, order := u.order, runway := u.runway)
            && u.clock == Take(v.clock, NextFill(v).lengths, v.cfg.stride)
            && u.order == (if ok then v.order.(resubmits := v.order.resubmits + [t]) else v.order)
            && u.runway == (if ok then Load(v.runway, frames) else v.runway)
  {
  }

  lemma ClockedAfter(s: State, v: State, t: nat, ok: bool)
    requires s.cfg.stride > 0 && t < |s.bus.transfers| && Returned(s, v, t, true) && Inv(v) && Ready(s) && CanPrepare(v)
    ensures var u := LaunchImplicit(v, t, ok);
            SentClocked(s, u.(order := Settled(u.order, t, ok)), t, ok)
  {
    SameReady(s, v);
    ClockedFill(v);
    var wanted := Wanted(s.clock, s.cfg.packets, s.cfg.maxFrames);
    ScaleBound(0, Sum(wanted), s.cfg.stride);
    ClockedLaunch(s, v, t, ok, NextFill(v), wanted, Sum(wanted) * s.cfg.stride);
  }

  lemma ClockedLaunch(s: State, v: State, t: nat, ok: bool, f: Filled, wanted: seq<nat>, n: nat)
    requires s.cfg.stride > 0 && t < |s.bus.transfers| && Returned(s, v, t, true) && Ready(s) && CanPrepare(v)
    requires |v.clock.layouts| <= |v.clock.log|
    requires f == NextFill(v) && wanted == Wanted(s.clock, s.cfg.packets, s.cfg.maxFrames)
    requires n == Sum(wanted) * s.cfg.stride && n <= |s.stream.ring| && f.payload == s.stream.ring[..n] && f.rest == s.stream.ring[n..]
    requires InBytes(f.lengths, wanted, s.cfg.stride) && Frames(f.lengths, s.cfg.stride) == Sum(wanted)
    ensures var u := LaunchImplicit(v, t, ok);
            SentClocked(s, u.(order := Settled(u.order, t, ok)), t, ok)
  {
    var l, u := Launch(v, t, f, ok), LaunchImplicit(v, t, ok);
    var w := u.(order := Settled(u.order, t, ok));
    LaunchReloads(s, v, t, f, ok);
    ImplicitBeside(v, t, ok);
    ReloadedBeside(s, l, w, t, f.lengths, Sum(wanted), ok);
    LaunchMoves(s.stream, f, n, ok);
    TakenUsed(s.clock, f.lengths, wanted, s.cfg.stride);
    FedByLoad(s.runway, Sum(wanted));
    ClockedParts(s, w, t, ok, f.lengths, wanted, n);
  }

  lemma ClockedParts(s: State, w: State, t: nat, ok: bool, lengths: seq<nat>, wanted: seq<nat>, n: nat)
    requires s.cfg.stride > 0 && t < |s.bus.transfers| && Ready(s) && wanted == Wanted(s.clock, s.cfg.packets, s.cfg.maxFrames)
    requires t < |w.bus.transfers| && w.bus.transfers[t].lengths == lengths && InBytes(lengths, wanted, s.cfg.stride)
    requires n == Sum(wanted) * s.cfg.stride && Moved(s.stream, w.stream, n, ok) && Used(s.clock, w.clock, wanted)
    requires Reloaded(s, w, t, lengths, Sum(wanted), ok)
    requires w.order == Settled(if ok then s.order.(resubmits := s.order.resubmits + [t]) else s.order, t, ok)
    requires if ok then Fed(s.runway, w.runway, Sum(wanted)) else w.runway == s.runway
    ensures SentClocked(s, w, t, ok)
  {
  }

  lemma FedByLoad(r: Runway, frames: nat)
    ensures Fed(r, Load(r, frames), frames)
  {
  }

  lemma WaitsAfter(s: State, v: State, t: nat)
    requires s.cfg.stride > 0 && t < |s.bus.transfers| && Returned(s, v, t, true) && |v.bus.pending| < MAX_TRANSFERS
    ensures var u := Defer(v, t); Waits(s, u.(order := u.order.(completions := u.order.completions + [t])), t)
  {
  }

  lemma GoesOnPaced(s: State, v: State, t: nat, ok: bool, plan: seq<nat>)
    requires Inv(s) && Inv(v) && t < |s.bus.transfers| && Returned(s, v, t, true) && !ImplicitNow(s)
    requires |plan| == s.cfg.packets && forall k :: 0 <= k < |plan| ==> plan[k] <= s.cfg.maxFrames
    ensures SentPaced(s, Resubmit(v, t, ok, plan), t, plan, ok)
  {
    FilledFacts(v.cfg, v.stream.ring, plan);
    PacedAfter(s, v, t, plan, ok, Fill(s.stream.ring, plan, s.cfg.stride));
  }

  lemma GoesOnClocked(s: State, v: State, t: nat, ok: bool, plan: seq<nat>)
    requires Inv(s) && Inv(v) && t < |s.bus.transfers| && Returned(s, v, t, true) && ImplicitNow(s)
    ensures var u := Resubmit(v, t, ok, plan);
            if s.bus.pending == [] && Ready(s) then SentClocked(s, u, t, ok) else Waits(s, u, t)
  {
    SameReady(s, v);
    ReadyIs(v);
    if s.bus.pending == [] && Ready(s) {
      ClockedAfter(s, v, t, ok);
    } else {
      DeferralArrayHasRoom(v.cfg, v.bus, t);
      WaitsAfter(s, v, t);
    }
  }

  lemma IsoStep(s: State, t: nat, status: Status, ok: bool, plan: seq<nat>)
    requires Inv(s) && t < |s.bus.transfers| && s.bus.transfers[t].place.InFlight?
    requires |plan| == s.cfg.packets && forall k :: 0 <= k < |plan| ==> plan[k] <= s.cfg.maxFrames
    ensures IsoOutcome(s, OnIso(s, t, status, ok, plan), t, status, ok, plan)
  {
    if status == Cancelled || s.flags.stopRequested || status == NoDevice {
      RetiredReturns(s, t, false);
    } else {
      var v := Retired(s, t, true);
      RetiredReturns(s, t, true);
      RetireKeeps(s, t, true, false);
      if ImplicitNow(s) {
        GoesOnClocked(s, v, t, ok, plan);
      } else {
        GoesOnPaced(s, v, t, ok, plan);
      }
    }
  }

  /**
   * Every OUT completion of every run: what it sends, from where in the ring and in which packets, where its transfer
   * goes and what each counter reads afterwards; on a paced endpoint, on a capture-clocked one, deferred, stopped,
   * lost or refused. Everything the outcome does not mention stays as it was.
   */
  lemma CompletionEffect(run: seq<State>, events: seq<Event>, i: nat)
    requires IsRun(run, events) && i < |events| && events[i].Iso? && Enabled(run[i], events[i]) && run[i].cfg.stride > 0
    ensures var e := events[i];
            e.t < |run[i].bus.transfers| && IsoOutcome(run[i], run[i + 1], e.t, e.status, e.ok, e.plan)
  {
    RunHolds(run, events, i);
    var e := events[i];
    IsoStep(run[i], e.t, e.status, e.ok, e.plan);
  }

  // ---- The feedback completion ------------------------------------------------------------------

  /** A feedback transfer goes straight back to the bus; cancelled, stopped, lost or refused it leaves, the last two for good. */
  lemma FeedbackEffect(run: seq<State>, events: seq<Event>, i: nat)
    requires IsRun(run, events) && i < |events| && events[i].Feedback? && Enabled(run[i], events[i])
    ensures var s, u, e := run[i], run[i + 1], events[i];
            var over := e.status == Cancelled || s.flags.stopRequested;
            if !over && e.status != NoDevice && e.ok then u == s
            else
              && 0 < s.bus.feedback && 0 < s.bus.inflight
              && u == s.(bus := s.bus.(feedback := s.bus.feedback - 1, inflight := s.bus.inflight - 1),
                         flags := if over then s.flags else Failed(s.flags))
  {
    RunHolds(run, events, i);
  }
}
