/** Runs of the transport under every interleaving of its events, and what holds along all of them. */
module TransportRuns {
  import opened Core
  import opened Transport
  import opened TransportInvariants
  import opened TransportSafety

  datatype Event =
    | Iso(t: nat, status: Status, ok: bool, plan: seq<nat>)
    | Capture(status: Status, packets: seq<nat>, oks: seq<bool>, ok: bool)
    | Feedback(status: Status, ok: bool)
    | SubmitCharged(pcm: seq<Byte>, seen: nat)
    | SubmitFree(pcm: seq<Byte>)
    | EnterHold(frames: nat)
    | SubmitHeld(pcm: seq<Byte>)
    | Start(feedbackAccepted: nat, accepted: nat)
    | Stop
    | Close

  /** libusb calls back only for transfers it holds, and reports a cancellation only once one was asked for. */
  ghost predicate Enabled(s: State, e: Event) {
    match e
    case Iso(t, status, _, plan) =>
      && t < |s.bus.transfers| && s.bus.transfers[t].place.InFlight?
      && (status == Cancelled ==> s.flags.stopRequested)
      && |plan| == s.cfg.packets && forall k :: 0 <= k < |plan| ==> plan[k] <= s.cfg.maxFrames
    case Capture(_, _, _, _) => s.bus.captureInflight > 0
    case Feedback(_, _) => s.bus.feedback > 0
    case SubmitCharged(pcm, _) => s.cfg.stride > 0 && |pcm| % s.cfg.stride == 0
    case SubmitFree(pcm) => s.cfg.stride > 0 && |pcm| % s.cfg.stride == 0
    case EnterHold(_) => true
    case SubmitHeld(pcm) =>
      s.cfg.stride > 0 && |pcm| % s.cfg.stride == 0 && |pcm| / s.cfg.stride <= s.ledger.held
    case Start(_, _) => s.control.Free?
    case Stop => true
    case Close => s.control.Free?
  }

  /** What the functions need to be defined; part of the invariant. */
  ghost predicate WellFormed(s: State) {
    s.cfg.stride > 0 && |s.clock.layouts| <= |s.clock.log| && PendingInPool(s.bus)
  }

  /** One event; an event that cannot happen in `s` leaves it as it is. */
  ghost function Apply(s: State, e: Event): State {
    if !WellFormed(s) || !Enabled(s, e) then s
    else
      match e
      case Iso(t, status, ok, plan) => OnIso(s, t, status, ok, plan)
      case Capture(status, packets, oks, ok) => OnCapture(s, status, packets, oks, ok)
      case Feedback(status, ok) => OnFeedback(s, status, ok)
      case SubmitCharged(pcm, seen) => PublishCharged(s, pcm, seen)
      case SubmitFree(pcm) => PublishFree(s, pcm)
      case EnterHold(frames) => Hold(s, frames)
      case SubmitHeld(pcm) => PublishHeld(s, pcm)
      case Start(fb, accepted) => StartPlayback(s, fb, accepted)
      case Stop => StopPhase(s)
      case Close => CloseDevice(s)
  }

  /** A session as `startIsoPump(false)` leaves it: pools allocated, capture live, nothing submitted. */
  ghost predicate Init(s: State) {
    && s.cfg.Valid()
    && 0 < |s.bus.transfers| <= MAX_TRANSFERS
    && (forall t :: 0 <= t < |s.bus.transfers| ==>
          s.bus.transfers[t].place.Idle? && DescriptorsOk(s.bus.transfers[t], s.cfg))
    && s.bus.pending == [] && s.bus.feedback == 0 && s.bus.inflight == 0 && s.bus.queued == 0
    && s.bus.captureInflight <= s.bus.capturePool
    && s.stream == Stream([], [], [], [])
    && ClockOk(s.cfg.maxFrames, s.clock) && s.clock.plan == []
    && s.order == Order([], [], [])
    && s.ledger == Ledger(0, 0, 0, 0, 0)
    && s.runway == Runway(false, 0, 0, [])
    && !s.flags.started && !s.flags.stopRequested && !s.flags.failed
    && (s.cfg.implicit ==> s.flags.captureActive)
    && s.control.Free? && s.interfaces && s.deviceOpen
  }

  lemma InitHolds(s: State)
    requires Init(s)
    ensures Inv(s)
  {
    CountIdle(s.bus.transfers, s.cfg.stride);
    WholeProduct(0, s.cfg.stride);
  }

  ghost predicate Renders(e: Event) {
    e.SubmitCharged? || e.SubmitFree? || e.EnterHold? || e.SubmitHeld?
  }

  ghost predicate Calls(e: Event) {
    e.Iso? || e.Capture? || e.Feedback?
  }

  lemma PolicyKeeps(s: State, e: Event)
    requires Inv(s) && (e.SubmitCharged? || e.SubmitFree?) && Enabled(s, e)
    ensures Inv(Apply(s, e))
  {
    if e.SubmitCharged? {
      ChargedKeeps(s, e.pcm, e.seen);
    } else {
      FreeKeeps(s, e.pcm);
    }
  }

  lemma SlotKeeps(s: State, e: Event)
    requires Inv(s) && (e.EnterHold? || e.SubmitHeld?) && Enabled(s, e)
    ensures Inv(Apply(s, e))
  {
    if e.EnterHold? {
      HoldKeeps(s, e.frames);
    } else {
      HeldKeeps(s, e.pcm);
    }
  }

  lemma IsoKeeps(s: State, e: Event)
    requires Inv(s) && e.Iso? && Enabled(s, e)
    ensures Inv(Apply(s, e))
  {
    OnIsoKeeps(s, e.t, e.status, e.ok, e.plan);
  }

  lemma CallbackKeeps(s: State, e: Event)
    requires Inv(s) && (e.Capture? || e.Feedback?) && Enabled(s, e)
    ensures Inv(Apply(s, e))
  {
    if e.Capture? {
      OnCaptureKeeps(s, e.status, e.packets, e.oks, e.ok);
    } else {
      OnFeedbackKeeps(s, e.status, e.ok);
    }
  }

  lemma ControlKeeps(s: State, e: Event)
    requires Inv(s) && !Renders(e) && !Calls(e) && Enabled(s, e)
    ensures Inv(Apply(s, e))
  {
    match e {
      case Start(fb, accepted) => StartPlaybackKeeps(s, fb, accepted);
      case Stop => StopPhaseKeeps(s);
      case Close => CloseDeviceKeeps(s);
    }
  }

  /** Every step, whatever its nondeterministic outcome, keeps every invariant. */
  lemma StepKeeps(s: State, e: Event)
    requires Inv(s)
    ensures Inv(Apply(s, e))
  {
    if Enabled(s, e) {
      match e {
        case Iso(_, _, _, _) => IsoKeeps(s, e);
        case Capture(_, _, _, _) => CallbackKeeps(s, e);
        case Feedback(_, _) => CallbackKeeps(s, e);
        case SubmitCharged(_, _) => PolicyKeeps(s, e);
        case SubmitFree(_) => PolicyKeeps(s, e);
        case EnterHold(_) => SlotKeeps(s, e);
        case SubmitHeld(_) => SlotKeeps(s, e);
        case _ => ControlKeeps(s, e);
      }
    }
  }

  ghost predicate IsRun(run: seq<State>, events: seq<Event>) {
    && |run| == |events| + 1
    && Init(run[0])
    && forall i :: 0 <= i < |events| ==> run[i + 1] == Apply(run[i], events[i])
  }

  lemma {:induction false} RunHolds(run: seq<State>, events: seq<Event>, i: nat)
    requires IsRun(run, events) && i < |run|
    ensures Inv(run[i])
  {
    if i == 0 {
      InitHolds(run[0]);
    } else {
      RunHolds(run, events, i - 1);
      StepKeeps(run[i - 1], events[i - 1]);
    }
  }

  // ---- Playback stream ------------------------------------------------------------------

  /**
   * Payloads sent, in submission order, then what the ring still holds, are exactly what was
   * committed; only a stopped run can have drained bytes that were never sent.
   */
  lemma PlaybackStreamRefinement(run: seq<State>, events: seq<Event>, i: nat)
    requires IsRun(run, events) && i < |run|
    ensures var st := run[i].stream;
            && st.committed == st.sent + st.lost + st.ring
            && (!run[i].flags.stopRequested ==> st.committed == st.sent + st.ring)
  {
    RunHolds(run, events, i);
    var st := run[i].stream;
    assert st.sent + [] + st.ring == st.sent + st.ring;
  }

  /** What one event may add to the histories, never taking anything back. */
  ghost predicate Grows(s: State, u: State) {
    && s.stream.committed <= u.stream.committed && s.stream.sent <= u.stream.sent
    && s.stream.lost <= u.stream.lost
    && s.clock.log <= u.clock.log && s.clock.plan <= u.clock.plan && s.clock.resyncs <= u.clock.resyncs
    && s.order.completions <= u.order.completions && s.order.resubmits <= u.order.resubmits
    && s.runway.episodes <= u.runway.episodes && s.runway.loaded <= u.runway.loaded
    && (s.flags.stopRequested ==> u.flags.stopRequested)
    && u.cfg == s.cfg
  }

  lemma {:induction false} LogAllGrows(c: Clock, packets: seq<nat>)
    ensures var u := LogLayouts(c, packets); c.log <= u.log && c.resyncs <= u.resyncs && c.plan == u.plan
  {
    if packets != [] {
      LogAllGrows(c, packets[..|packets| - 1]);
    }
  }

  lemma LaunchImplicitGrows(s: State, t: nat, ok: bool)
    requires WellFormed(s) && t < |s.bus.transfers| && CanPrepare(s)
    ensures Grows(s, LaunchImplicit(s, t, ok))
  {
  }

  lemma {:induction false} SubmitPendingGrows(s: State, oks: seq<bool>)
    requires WellFormed(s)
    ensures Grows(s, SubmitPending(s, oks))
    decreases |s.bus.pending|
  {
    if s.bus.pending != [] && CanPrepare(s) {
      var ok := oks == [] || oks[0];
      LaunchImplicitGrows(s, s.bus.pending[0], ok);
      if ok {
        var u := LaunchImplicit(s, s.bus.pending[0], ok);
        SubmitPendingGrows(u.(bus := Dequeue(u.bus)), Rest(oks));
      }
    }
  }

  lemma {:induction false} SubmitInitialGrows(b: Bus, st: Stream, fills: seq<Filled>, count: nat, accepted: nat, stride: nat)
    requires stride > 0 && count <= |b.transfers| && count <= |fills|
    ensures var u := SubmitInitial(b, st, fills, count, accepted, stride).1;
            st.committed == u.committed && st.sent <= u.sent && st.lost <= u.lost
  {
    if count > 0 {
      SubmitInitialGrows(b, st, fills, count - 1, accepted, stride);
    }
  }

  lemma GrowsTrans(s: State, u: State, v: State)
    requires Grows(s, u) && Grows(u, v)
    ensures Grows(s, v)
  {
  }

  /** No history but the completions' moves, and those only forward. */
  ghost predicate Leaves(s: State, u: State) {
    && u.stream == s.stream && u.clock == s.clock && u.runway == s.runway && u.cfg == s.cfg
    && s.order.completions <= u.order.completions && u.order.resubmits == s.order.resubmits
    && (s.flags.stopRequested ==> u.flags.stopRequested)
  }

  lemma LeavesGrows(s: State, u: State)
    requires Leaves(s, u)
    ensures Grows(s, u)
  {
  }

  lemma DeferGrows(s: State, t: nat)
    requires t < |s.bus.transfers|
    ensures var u := Defer(s, t); Grows(s, u.(order := u.order.(completions := u.order.completions + [t])))
  {
  }

  lemma PacedGrows(s: State, t: nat, f: Filled, ok: bool)
    requires s.cfg.stride > 0 && t < |s.bus.transfers|
    ensures Grows(s, Launch(s, t, f, ok))
  {
  }

  lemma DirectGrows(s: State, t: nat, ok: bool)
    requires WellFormed(s) && t < |s.bus.transfers| && CanPrepare(s)
    ensures var u := LaunchImplicit(s, t, ok);
            Grows(s, u.(order := u.order.(completions := u.order.completions + [t],
                                          dropped := if ok then u.order.dropped else u.order.dropped + [t])))
  {
    LaunchImplicitGrows(s, t, ok);
  }

  lemma ResubmitGrows(s: State, t: nat, ok: bool, plan: seq<nat>)
    requires WellFormed(s) && t < |s.bus.transfers|
    ensures Grows(s, Resubmit(s, t, ok, plan))
  {
    if !ImplicitNow(s) {
      PacedGrows(s, t, Fill(s.stream.ring, plan, s.cfg.stride), ok);
    } else if |s.bus.pending| > 0 || !CanPrepare(s) {
      DeferGrows(s, t);
    } else {
      DirectGrows(s, t, ok);
    }
  }

  lemma OnIsoGrows(s: State, t: nat, status: Status, ok: bool, plan: seq<nat>)
    requires WellFormed(s) && t < |s.bus.transfers|
    ensures Grows(s, OnIso(s, t, status, ok, plan))
  {
    var u := Retired(s, t, s.flags.started);
    ResubmitGrows(u, t, ok, plan);
    assert Grows(s, u);
    GrowsTrans(s, u, Resubmit(u, t, ok, plan));
  }

  lemma CaptureLeavesGrows(s: State, fail: bool)
    ensures Grows(s, s.(bus := CaptureLeaves(s.bus), flags := if fail then Fail(s.flags) else s.flags))
  {
    LeavesGrows(s, s.(bus := CaptureLeaves(s.bus), flags := if fail then Fail(s.flags) else s.flags));
  }

  lemma ServedGrows(s: State, oks: seq<bool>, ok: bool)
    requires WellFormed(s)
    ensures Grows(s, ResubmitCapture(SubmitPending(s, oks), ok))
  {
    SubmitPendingGrows(s, oks);
    var u := SubmitPending(s, oks);
    CaptureLeavesGrows(u, !u.flags.failed);
    if u.flags.failed || !ok {
      GrowsTrans(s, u, ResubmitCapture(u, ok));
    }
  }

  lemma LoggedGrows(s: State, packets: seq<nat>)
    requires WellFormed(s)
    ensures Grows(s, s.(clock := LogLayouts(s.clock, packets)))
  {
    LogAllGrows(s.clock, packets);
  }

  lemma GrowsSelf(s: State)
    ensures Grows(s, s)
  {
  }

  lemma OnCaptureGrows(s: State, status: Status, packets: seq<nat>, oks: seq<bool>, ok: bool)
    requires WellFormed(s)
    ensures Grows(s, OnCapture(s, status, packets, oks, ok))
  {
    if !s.flags.captureActive || status == Cancelled || s.flags.stopRequested {
      CaptureLeavesGrows(s, false);
    } else if status == NoDevice {
      CaptureLeavesGrows(s, true);
    } else {
      var logged := if s.cfg.implicit then s.(clock := LogLayouts(s.clock, packets)) else s;
      LoggedGrows(s, packets);
      GrowsSelf(s);
      ServedGrows(logged, oks, ok);
      GrowsTrans(s, logged, OnCapture(s, status, packets, oks, ok));
    }
  }

  lemma PumpGrows(s: State, feedback: nat, accepted: nat, u: State)
    requires s.cfg.stride > 0 && u == SubmitPump(s, feedback, accepted)
    ensures s.stream.committed == u.stream.committed && s.stream.sent <= u.stream.sent && s.stream.lost <= u.stream.lost
    ensures u == s.(bus := u.bus, stream := u.stream)
  {
    var b := s.bus.(feedback := s.bus.feedback + feedback, inflight := s.bus.inflight + feedback);
    SubmitInitialGrows(b, s.stream, InitialFills(s.stream.ring, s.bus.transfers, |s.bus.transfers|, s.cfg.stride),
                       |s.bus.transfers|, accepted, s.cfg.stride);
  }

  lemma PumpedGrows(s: State, u: State, v: State)
    requires s.stream.committed == u.stream.committed && s.stream.sent <= u.stream.sent && s.stream.lost <= u.stream.lost
    requires u == s.(bus := u.bus, stream := u.stream)
    requires v == u.(flags := v.flags, ledger := v.ledger, control := v.control)
    requires s.flags.stopRequested ==> v.flags.stopRequested
    ensures Grows(s, v)
  {
  }

  lemma StartGrows(s: State, fb: nat, accepted: nat)
    requires WellFormed(s)
    ensures Grows(s, StartPlayback(s, fb, accepted))
  {
    if !s.flags.started && !s.flags.stopRequested && s.cfg.primeFrames <= RingFrames(s) {
      var f := Min(fb, s.bus.feedbackPool);
      var u := SubmitPump(s, f, if f < s.bus.feedbackPool then 0 else accepted);
      PumpGrows(s, f, if f < s.bus.feedbackPool then 0 else accepted, u);
      PumpedGrows(s, u, StartPlayback(s, fb, accepted));
    }
  }

  lemma PublishGrows(s: State, e: Event)
    requires WellFormed(s) && Renders(e)
    ensures Grows(s, Apply(s, e))
  {
  }

  lemma StopPhaseGrows(s: State)
    ensures Grows(s, StopPhase(s))
  {
    assert Leaves(s, StopPhase(s));
    LeavesGrows(s, StopPhase(s));
  }

  lemma CloseGrows(s: State)
    ensures Grows(s, CloseDevice(s))
  {
    LeavesGrows(s, CloseDevice(s));
  }

  lemma FeedbackGrows(s: State, status: Status, ok: bool)
    ensures Grows(s, OnFeedback(s, status, ok))
  {
    LeavesGrows(s, OnFeedback(s, status, ok));
  }

  lemma StepGrows(s: State, e: Event)
    ensures Grows(s, Apply(s, e))
  {
    if WellFormed(s) && Enabled(s, e) {
      match e {
        case Iso(t, status, ok, plan) => OnIsoGrows(s, t, status, ok, plan);
        case Capture(status, packets, oks, ok) => OnCaptureGrows(s, status, packets, oks, ok);
        case Start(fb, accepted) => StartGrows(s, fb, accepted);
        case Stop => StopPhaseGrows(s);
        case Close => CloseGrows(s);
        case Feedback(status, ok) => FeedbackGrows(s, status, ok);
        case _ => PublishGrows(s, e);
      }
    }
  }

  /** Histories are append-only along a run: nothing sent, logged or planned is ever rewritten. */
  lemma {:induction false} RunGrows(run: seq<State>, events: seq<Event>, i: nat, j: nat)
    requires IsRun(run, events) && i <= j < |run|
    ensures Grows(run[i], run[j])
    decreases j
  {
    if i < j {
      RunGrows(run, events, i, j - 1);
      StepGrows(run[j - 1], events[j - 1]);
    }
  }
}
