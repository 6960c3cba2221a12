/** The transport's promises, stated over whole runs. */
module TransportTheorems {
  import opened Core
  import opened Transport
  import opened TransportInvariants
  import opened TransportSafety
  import opened TransportRuns

  // ---- Layouts --------------------------------------------------------------------------

  /**
   * Every capture-clocked packet carries the frames its own log entry asks for, entries are taken
   * one after another except where an overflow jumped the reader, and no entry is unaccounted for:
   * primed, used, discarded 256 at a time, or still queued.
   */
  lemma LayoutFidelity(run: seq<State>, events: seq<Event>, i: nat)
    requires IsRun(run, events) && i < |run|
    ensures var c := run[i].clock; var cap := run[i].cfg.maxFrames;
            && (forall k :: 0 <= k < |c.plan| ==>
                  c.plan[k].index < |c.log| && c.plan[k].frames == Min(c.log[c.plan[k].index], cap))
            && (forall k :: 0 < k < |c.plan| ==>
                  c.plan[k].index == c.plan[k - 1].index + 1 ||
                  (c.plan[k - 1].index < c.plan[k].index && c.plan[k].index in c.resyncs))
            && |c.log| == c.base + |c.plan| + 256 * c.overruns + |c.layouts|
  {
    RunHolds(run, events, i);
    var c := run[i].clock;
    forall k | 0 < k < |c.plan|
      ensures c.plan[k].index == c.plan[k - 1].index + 1 ||
              (c.plan[k - 1].index < c.plan[k].index && c.plan[k].index in c.resyncs)
    {
      assert Follows(c, c.plan[k - 1].index, c.plan[k].index);
    }
  }

  /** `prepareImplicitTransfer` never drains short: each descriptor is its capped layout entry in bytes. */
  lemma ImplicitNeverShort(run: seq<State>, events: seq<Event>, i: nat, k: nat)
    requires IsRun(run, events) && i < |run| && run[i].cfg.stride > 0
    requires CanPrepare(run[i]) && k < run[i].cfg.packets
    ensures var s := run[i]; var lengths := NextFill(s).lengths;
            |lengths| == s.cfg.packets && k < |s.clock.layouts|
            && lengths[k] == Min(s.clock.layouts[k], s.cfg.maxFrames) * s.cfg.stride
  {
    RunHolds(run, events, i);
    NextFillExact(run[i]);
  }

  /** Completions are resubmitted in the order they arrived; those not yet resubmitted wait in order. */
  lemma CompletionOrderPreserved(run: seq<State>, events: seq<Event>, i: nat)
    requires IsRun(run, events) && i < |run|
    ensures var o := run[i].order;
            && o.resubmits <= o.completions
            && (!run[i].flags.stopRequested ==> o.completions == o.resubmits + run[i].bus.pending)
  {
    RunHolds(run, events, i);
    var o := run[i].order;
    if !run[i].flags.stopRequested {
      assert o.resubmits + [] + run[i].bus.pending == o.resubmits + run[i].bus.pending;
    }
  }

  // ---- Places and counters --------------------------------------------------------------

  /** Each transfer is in exactly one place, both counters count exactly, and every packet fits its buffer. */
  lemma ExactlyOnePlace(run: seq<State>, events: seq<Event>, i: nat)
    requires IsRun(run, events) && i < |run| && run[i].cfg.stride > 0
    ensures var b := run[i].bus; var cfg := run[i].cfg;
            && (forall t :: 0 <= t < |b.transfers| ==> (b.transfers[t].place.Deferred? <==> t in b.pending))
            && NoDup(b.pending)
            && b.inflight == InFlightCount(b.transfers) + b.feedback
            && b.queued == InFlightFrames(b.transfers, cfg.stride)
            && |b.pending| <= |b.transfers| <= MAX_TRANSFERS
  {
    RunHolds(run, events, i);
    DeferralArrayFits(run[i].cfg, run[i].bus);
  }

  lemma DeferralArrayFits(cfg: Config, b: Bus)
    requires cfg.stride > 0 && BusOk(cfg, b)
    ensures |b.pending| <= |b.transfers|
  {
    SubsetSize(Elements(b.pending), Below(|b.transfers|));
  }

  /** Packet `k` of a transfer starts at the sum of the lengths before it and ends inside the buffer. */
  lemma PacketsFitBuffer(run: seq<State>, events: seq<Event>, i: nat, t: nat, k: nat)
    requires IsRun(run, events) && i < |run| && t < |run[i].bus.transfers|
    requires k < |run[i].bus.transfers[t].lengths|
    ensures var cfg := run[i].cfg; var lengths := run[i].bus.transfers[t].lengths;
            Sum(lengths[..k]) + lengths[k] <= cfg.packets * (cfg.maxFrames * cfg.stride)
  {
    RunHolds(run, events, i);
    var lengths, bound := run[i].bus.transfers[t].lengths, run[i].cfg.maxFrames * run[i].cfg.stride;
    assert DescriptorsOk(run[i].bus.transfers[t], run[i].cfg);
    SumBound(lengths, bound);
    SumPrefix(lengths, k + 1);
    assert lengths[..k + 1][..k] == lengths[..k];
  }

  /** `subtractQueued` never saturates: a completion returns exactly the frames it was charged. */
  lemma QueueNeverSaturates(run: seq<State>, events: seq<Event>, i: nat, t: nat)
    requires IsRun(run, events) && i < |run| && run[i].cfg.stride > 0
    requires t < |run[i].bus.transfers| && run[i].bus.transfers[t].place.InFlight?
    ensures var b := run[i].bus;
            Retire(b, t, run[i].cfg.stride).queued == b.queued - Frames(b.transfers[t].lengths, run[i].cfg.stride)
  {
    RunHolds(run, events, i);
    RetireBus(run[i].cfg, run[i].bus, t);
  }

  /** The branch of `onIso` behind a full deferral array is unreachable: only a lost device or a refused submission fails. */
  lemma DeferralOverflowUnreachable(run: seq<State>, events: seq<Event>, i: nat, e: Event)
    requires IsRun(run, events) && i < |run| && !run[i].flags.failed
    requires e.Iso? && e.status != NoDevice && e.ok
    ensures !Apply(run[i], e).flags.failed
  {
    RunHolds(run, events, i);
    var s := run[i];
    if Enabled(s, e) && !s.flags.stopRequested {
      RetireBus(s.cfg, s.bus, e.t);
      DeferralArrayHasRoom(s.cfg, Retire(s.bus, e.t, s.cfg.stride), e.t);
    }
  }

  // ---- Credit ---------------------------------------------------------------------------

  /** Under the credit policy nothing is minted or destroyed while playback runs. */
  lemma CreditConserved(run: seq<State>, events: seq<Event>, i: nat)
    requires IsRun(run, events) && i < |run| && run[i].cfg.stride > 0
    requires run[i].flags.started && !run[i].flags.stopRequested
    ensures var s := run[i];
            s.ledger.credit + RingFrames(s) + s.bus.queued + s.ledger.held
            == s.ledger.stock + s.ledger.uncharged
  {
    RunHolds(run, events, i);
    WholeProduct(0, run[i].cfg.stride);
  }

  /**
   * A charged publish leaves ring and holding slot within the prime stock plus target plus reserve, and whatever
   * left the bus between the load of the queue, at `load`, and the charge; provided every publish since the start
   * was charged.
   */
  lemma ChargedPublishBounded(run: seq<State>, events: seq<Event>, load: nat, i: nat)
    requires IsRun(run, events) && load <= i < |events| && run[i].cfg.stride > 0
    requires run[i].flags.started && run[i].ledger.uncharged == 0
    requires events[i].SubmitCharged? && Enabled(run[i], events[i]) && events[i].seen == run[load].bus.queued
    requires run[i + 1].stream != run[i].stream
    ensures var u := run[i + 1];
            RingFrames(u) + u.ledger.held
            <= u.ledger.stock + u.cfg.target + u.cfg.reserve + (run[load].bus.queued - run[i].bus.queued)
  {
    RunHolds(run, events, i);
    RunHolds(run, events, i + 1);
    ChargedStep(run[i], run[i + 1], events[i].pcm, events[i].seen);
  }

  lemma ChargedStep(s: State, u: State, pcm: seq<Byte>, seen: nat)
    requires Inv(s) && Inv(u) && s.cfg.stride > 0 && |pcm| % s.cfg.stride == 0
    requires s.flags.started && s.ledger.uncharged == 0
    requires u == PublishCharged(s, pcm, seen) && u.stream != s.stream
    ensures RingFrames(u) + u.ledger.held <= u.ledger.stock + u.cfg.target + u.cfg.reserve + (seen - s.bus.queued)
  {
    if |pcm| > 0 {
      ChargedFrames(pcm, s.cfg.stride);
    }
  }

  lemma ChargedFrames(pcm: seq<Byte>, stride: nat)
    requires stride > 0 && |pcm| > 0 && |pcm| % stride == 0
    ensures |pcm| / stride > 0
  {
    assert |pcm| == |pcm| / stride * stride;
  }

  // ---- Zero-runway episodes -------------------------------------------------------------

  lemma {:induction false} SubmitPendingNoEpisode(s: State, oks: seq<bool>)
    requires WellFormed(s)
    ensures SubmitPending(s, oks).runway.events == s.runway.events
    decreases |s.bus.pending|
  {
    if s.bus.pending != [] && CanPrepare(s) && (oks == [] || oks[0]) {
      var u := LaunchImplicit(s, s.bus.pending[0], true);
      SubmitPendingNoEpisode(u.(bus := Dequeue(u.bus)), Rest(oks));
    }
  }

  lemma CaptureNoEpisode(s: State, status: Status, packets: seq<nat>, oks: seq<bool>, ok: bool)
    requires WellFormed(s)
    ensures OnCapture(s, status, packets, oks, ok).runway.events == s.runway.events
  {
    if s.flags.captureActive && status != Cancelled && !s.flags.stopRequested && status != NoDevice {
      var logged := if s.cfg.implicit then s.(clock := LogLayouts(s.clock, packets)) else s;
      SubmitPendingNoEpisode(logged, oks);
      ResubmitNoEpisode(SubmitPending(logged, oks), ok);
    }
  }

  lemma ResubmitNoEpisode(u: State, ok: bool)
    ensures ResubmitCapture(u, ok).runway == u.runway
  {
  }

  lemma IsoEpisode(s: State, e: Event)
    requires Inv(s) && e.Iso?
    ensures var u := Apply(s, e);
            u.runway.events != s.runway.events ==> !s.runway.latch && u.runway == Starve(s.runway, 0)
  {
    if Enabled(s, e) {
      RetireBus(s.cfg, s.bus, e.t);
    }
  }

  /** An event is counted only on the latch's rising edge, in a step that loads nothing. */
  lemma EpisodeShape(s: State, e: Event)
    requires Inv(s)
    ensures var u := Apply(s, e);
            u.runway.events != s.runway.events ==>
              !s.runway.latch && u.runway == Starve(s.runway, 0)
  {
    match e {
      case Capture(status, packets, oks, ok) => CaptureNoEpisode(s, status, packets, oks, ok);
      case Iso(_, _, _, _) => IsoEpisode(s, e);
      case _ =>
    }
  }

  /** Each starvation counts once: between two events some submitted transfer carried a frame. */
  lemma EpisodesSeparated(run: seq<State>, events: seq<Event>, i: nat, j: nat)
    requires IsRun(run, events) && i < j < |events|
    requires run[i + 1].runway.events != run[i].runway.events
    requires run[j + 1].runway.events != run[j].runway.events
    ensures run[i + 1].runway.loaded < run[j].runway.loaded
    ensures run[j + 1].bus.queued == 0
  {
    RunHolds(run, events, i);
    RunHolds(run, events, j);
    RunHolds(run, events, i + 1);
    RunHolds(run, events, j + 1);
    EpisodeShape(run[i], events[i]);
    EpisodeShape(run[j], events[j]);
    RunGrows(run, events, i + 1, j);
    EdgesApart(run[i].runway, run[i + 1].runway, run[i + 1].bus.queued, run[j].runway, run[j].bus.queued);
    LatchedEmpty(run[j], run[j + 1]);
  }

  lemma EdgesApart(before: Runway, first: Runway, queued: nat, later: Runway, laterQueued: nat)
    requires !before.latch && first == Starve(before, 0) && RunwayOk(first, queued)
    requires !later.latch && RunwayOk(later, laterQueued) && first.episodes <= later.episodes
    ensures first.loaded < later.loaded
  {
    var n := |first.episodes| - 1;
    assert later.episodes[n] == first.episodes[n] == first.loaded;
    assert n < |later.episodes| - 1 ==> later.episodes[n] < later.episodes[|later.episodes| - 1];
  }

  lemma LatchedEmpty(s: State, u: State)
    requires Inv(u) && !s.runway.latch && u.runway == Starve(s.runway, 0)
    ensures u.bus.queued == 0
  {
  }

  // ---- Teardown -------------------------------------------------------------------------

  /** No transfer of any kind is submitted in this step. */
  ghost predicate NothingSubmitted(s: State, u: State) {
    && u.stream.sent == s.stream.sent && u.stream.lost == s.stream.lost
    && u.bus.inflight <= s.bus.inflight && u.bus.feedback <= s.bus.feedback
    && u.bus.captureInflight <= s.bus.captureInflight
    && |u.bus.transfers| <= |s.bus.transfers|
    && forall t :: 0 <= t < |u.bus.transfers| ==>
         u.bus.transfers[t].place.InFlight? ==> s.bus.transfers[t].place.InFlight?
  }

  lemma StoppedCompletion(s: State, t: nat)
    requires Inv(s) && t < |s.bus.transfers|
    ensures NothingSubmitted(s, Retired(s, t, false))
  {
  }

  /** Publishing touches neither bus nor flags, and sends nothing itself. */
  lemma RenderFrame(s: State, e: Event)
    requires Renders(e)
    ensures var u := Apply(s, e);
            && u.bus == s.bus && u.flags == s.flags && u.stream.sent == s.stream.sent && u.stream.lost == s.stream.lost
            && u.interfaces == s.interfaces && u.deviceOpen == s.deviceOpen
  {
  }

  lemma SameBusSilent(s: State, u: State)
    requires u.bus == s.bus && u.stream.sent == s.stream.sent && u.stream.lost == s.stream.lost
    ensures NothingSubmitted(s, u)
  {
  }

  lemma RenderSilent(s: State, e: Event)
    requires s.flags.stopRequested && Renders(e)
    ensures Apply(s, e).flags.stopRequested && NothingSubmitted(s, Apply(s, e))
  {
    RenderFrame(s, e);
    SameBusSilent(s, Apply(s, e));
  }

  lemma CallbackSilent(s: State, e: Event)
    requires Inv(s) && s.flags.stopRequested && Calls(e)
    ensures Apply(s, e).flags.stopRequested && NothingSubmitted(s, Apply(s, e))
  {
    if e.Iso? && Enabled(s, e) {
      StoppedCompletion(s, e.t);
    }
  }

  lemma StartSilent(s: State, fb: nat, accepted: nat)
    requires s.cfg.stride > 0 && s.flags.stopRequested
    ensures StartPlayback(s, fb, accepted) == s
  {
  }

  lemma FreeingSilent(s: State)
    requires Inv(s) && s.flags.stopRequested
    ensures StopPlaybackPump(s).flags.stopRequested && NothingSubmitted(s, StopPlaybackPump(s))
  {
  }

  lemma SilentAnyway(s: State, u: State, v: State)
    requires NothingSubmitted(s, u) && v.bus == u.bus && v.stream == u.stream
    ensures NothingSubmitted(s, v)
  {
  }

  lemma PhaseSilent(s: State)
    requires Inv(s) && s.flags.stopRequested
    ensures StopPhase(s).flags.stopRequested && NothingSubmitted(s, StopPhase(s))
  {
    if s.control.AbortingStart? || s.control.StoppingPlayback? {
      FreeingSilent(s);
      SilentAnyway(s, StopPlaybackPump(s), StopPhase(s));
    }
  }

  lemma CloseSilent(s: State)
    requires s.flags.stopRequested
    ensures CloseDevice(s).flags.stopRequested && NothingSubmitted(s, CloseDevice(s))
  {
  }

  lemma ControlSilent(s: State, e: Event)
    requires Inv(s) && s.flags.stopRequested && (e.Start? || e.Stop? || e.Close?)
    ensures Apply(s, e).flags.stopRequested && NothingSubmitted(s, Apply(s, e))
  {
    match e {
      case Start(fb, accepted) => StartSilent(s, fb, accepted);
      case Stop => PhaseSilent(s);
      case Close => CloseSilent(s);
    }
  }

  lemma StopSilences(s: State, e: Event)
    requires Inv(s) && s.flags.stopRequested
    ensures Apply(s, e).flags.stopRequested && NothingSubmitted(s, Apply(s, e))
  {
    if Renders(e) {
      RenderSilent(s, e);
    } else if Calls(e) {
      CallbackSilent(s, e);
    } else {
      ControlSilent(s, e);
    }
  }

  /** Once a stop is requested, by the owner or by a failure, nothing is submitted ever again. */
  lemma {:induction false} StopIsFinal(run: seq<State>, events: seq<Event>, i: nat, j: nat)
    requires IsRun(run, events) && i <= j < |run| && run[i].flags.stopRequested
    ensures run[j].flags.stopRequested && NothingSubmitted(run[i], run[j])
    decreases j
  {
    if i < j {
      StopIsFinal(run, events, i, j - 1);
      RunHolds(run, events, j - 1);
      StopSilences(run[j - 1], events[j - 1]);
    }
  }

  ghost predicate PoolsKept(s: State, u: State) {
    && |u.bus.transfers| == |s.bus.transfers| && u.bus.feedbackPool == s.bus.feedbackPool
    && u.bus.capturePool == s.bus.capturePool
    && u.interfaces == s.interfaces && u.deviceOpen == s.deviceOpen
  }

  lemma {:induction false} SubmitPendingPools(s: State, oks: seq<bool>)
    requires WellFormed(s)
    ensures PoolsKept(s, SubmitPending(s, oks))
    decreases |s.bus.pending|
  {
    if s.bus.pending != [] && CanPrepare(s) && (oks == [] || oks[0]) {
      var u := LaunchImplicit(s, s.bus.pending[0], true);
      SubmitPendingPools(u.(bus := Dequeue(u.bus)), Rest(oks));
    }
  }

  lemma {:induction false} SubmitInitialPools(b: Bus, st: Stream, fills: seq<Filled>, count: nat, accepted: nat, stride: nat)
    requires stride > 0 && count <= |b.transfers| && count <= |fills|
    ensures var u := SubmitInitial(b, st, fills, count, accepted, stride).0;
            u.feedbackPool == b.feedbackPool && u.capturePool == b.capturePool
  {
    if count > 0 {
      SubmitInitialPools(b, st, fills, count - 1, accepted, stride);
    }
  }

  lemma PoolsTrans(s: State, u: State, v: State)
    requires PoolsKept(s, u) && PoolsKept(u, v)
    ensures PoolsKept(s, v)
  {
  }

  lemma ResubmitCapturePools(u: State, ok: bool)
    ensures PoolsKept(u, ResubmitCapture(u, ok))
  {
  }

  lemma CapturePools(s: State, status: Status, packets: seq<nat>, oks: seq<bool>, ok: bool)
    requires WellFormed(s)
    ensures PoolsKept(s, OnCapture(s, status, packets, oks, ok))
  {
    if s.flags.captureActive && status != Cancelled && !s.flags.stopRequested && status != NoDevice {
      var logged := if s.cfg.implicit then s.(clock := LogLayouts(s.clock, packets)) else s;
      SubmitPendingPools(logged, oks);
      var u := SubmitPending(logged, oks);
      ResubmitCapturePools(u, ok);
      PoolsTrans(logged, u, ResubmitCapture(u, ok));
    }
  }

  lemma PumpPools(s: State, fb: nat, accepted: nat, u: State)
    requires s.cfg.stride > 0 && u == SubmitPump(s, fb, accepted)
    ensures PoolsKept(s, u)
  {
    var b := s.bus.(feedback := s.bus.feedback + fb, inflight := s.bus.inflight + fb);
    var n := |s.bus.transfers|;
    SubmitInitialPools(b, s.stream, InitialFills(s.stream.ring, s.bus.transfers, n, s.cfg.stride), n, accepted, s.cfg.stride);
  }

  lemma StartPools(s: State, fb: nat, accepted: nat)
    requires WellFormed(s)
    ensures PoolsKept(s, StartPlayback(s, fb, accepted))
  {
    if !s.flags.started && !s.flags.stopRequested && s.cfg.primeFrames <= RingFrames(s) {
      var f := Min(fb, s.bus.feedbackPool);
      var reached := if f < s.bus.feedbackPool then 0 else accepted;
      PumpPools(s, f, reached, SubmitPump(s, f, reached));
    }
  }

  lemma {:induction false} NoneInFlight(ts: seq<Transfer>)
    requires InFlightCount(ts) == 0
    ensures forall t :: 0 <= t < |ts| ==> !ts[t].place.InFlight?
  {
    if ts != [] {
      NoneInFlight(ts[..|ts| - 1]);
    }
  }

  lemma ResubmitPools(s: State, t: nat, ok: bool, plan: seq<nat>)
    requires WellFormed(s) && t < |s.bus.transfers|
    ensures PoolsKept(s, Resubmit(s, t, ok, plan))
  {
  }

  lemma RetiredPools(s: State, t: nat, grant: bool)
    requires s.cfg.stride > 0 && t < |s.bus.transfers|
    ensures PoolsKept(s, Retired(s, t, grant)) && PoolsKept(s, Retired(s, t, grant).(flags := Fail(s.flags)))
  {
  }

  lemma IsoPools(s: State, t: nat, status: Status, ok: bool, plan: seq<nat>)
    requires WellFormed(s) && t < |s.bus.transfers|
    ensures PoolsKept(s, OnIso(s, t, status, ok, plan))
  {
    if status == Cancelled || s.flags.stopRequested || status == NoDevice {
      RetiredPools(s, t, false);
    } else {
      var u := Retired(s, t, s.flags.started);
      RetiredPools(s, t, s.flags.started);
      ResubmitPools(u, t, ok, plan);
      PoolsTrans(s, u, Resubmit(u, t, ok, plan));
    }
  }

  lemma FeedbackPools(s: State, e: Event)
    requires e.Feedback?
    ensures PoolsKept(s, Apply(s, e))
  {
  }

  /** Only `stop()` frees, and it looks at the in-flight counters first. */
  lemma PoolChange(s: State, e: Event)
    requires WellFormed(s)
    ensures var u := Apply(s, e);
            PoolsKept(s, u) || (e.Close? && CloseDevice(s) == u) || (e.Stop? && StopPhase(s) == u)
  {
    match e {
      case Capture(status, packets, oks, ok) => CapturePools(s, status, packets, oks, ok);
      case Start(fb, accepted) => StartPools(s, fb, accepted);
      case Iso(t, status, ok, plan) =>
        if t < |s.bus.transfers| {
          IsoPools(s, t, status, ok, plan);
        }
      case Feedback(_, _) => FeedbackPools(s, e);
      case Stop =>
      case Close =>
      case _ => RenderFrame(s, e);
    }
  }

  /** What a step may take away, and only with nothing left that could be called back into. */
  ghost predicate Releases(s: State, u: State) {
    && (|u.bus.transfers| != |s.bus.transfers| || u.bus.feedbackPool != s.bus.feedbackPool ==>
          s.bus.inflight == 0 && s.bus.feedback == 0 && PlaybackFreed(u.bus)
          && forall t :: 0 <= t < |s.bus.transfers| ==> !s.bus.transfers[t].place.InFlight?)
    && (u.bus.capturePool != s.bus.capturePool ==> s.bus.captureInflight == 0)
    && (s.interfaces && !u.interfaces ==> PlaybackFreed(s.bus) && CaptureFreed(s.bus))
    && (s.deviceOpen && !u.deviceOpen ==> PlaybackFreed(s.bus) && CaptureFreed(s.bus))
  }

  lemma KeptReleases(s: State, u: State)
    requires PoolsKept(s, u)
    ensures Releases(s, u)
  {
  }

  lemma PhaseReleases(s: State)
    requires Inv(s)
    ensures Releases(s, StopPhase(s))
  {
    if s.bus.inflight == 0 {
      NoneInFlight(s.bus.transfers);
    }
  }

  lemma CloseReleases(s: State)
    requires Inv(s)
    ensures Releases(s, CloseDevice(s))
  {
  }

  /** Transfers are freed only when the bus holds none; interfaces and device go only after both pools. */
  lemma ReleaseOrder(run: seq<State>, events: seq<Event>, i: nat)
    requires IsRun(run, events) && i < |events|
    ensures Releases(run[i], run[i + 1])
  {
    RunHolds(run, events, i);
    PoolChange(run[i], events[i]);
    if PoolsKept(run[i], run[i + 1]) {
      KeptReleases(run[i], run[i + 1]);
    } else if events[i].Stop? {
      PhaseReleases(run[i]);
    } else {
      CloseReleases(run[i]);
    }
  }

  /** After the OUT pool is freed no callback can find a transfer to touch, and none comes back. */
  lemma FreedStaysFreed(run: seq<State>, events: seq<Event>, i: nat, j: nat)
    requires IsRun(run, events) && i <= j < |run| && run[i].bus.transfers == []
    ensures PlaybackFreed(run[j].bus)
  {
    RunHolds(run, events, i);
    RunHolds(run, events, j);
    StopIsFinal(run, events, i, j);
  }
}
