/**
 * What `stop()` and `close()` release, over every run and whatever happens between their phases: exactly what nothing can
 * call back into any more. Nothing here calls the step it is about.
 */
module TeardownEffects {
  import opened Core
  import opened Transport
  import opened TransportInvariants
  import opened TransportSafety
  import opened TransportRuns
  import opened TransportTheorems

  /** The OUT pool and the feedback pool gone, or as they were. */
  ghost predicate PlaybackReleased(s: State, u: State, stopped: bool) {
    && u.bus == (if stopped then s.bus.(pending := [], transfers := [], feedbackPool := 0, queued := 0) else s.bus)
    && u.flags == s.flags.(stopRequested := true, started := s.flags.started && !stopped)
    && u == s.(bus := u.bus, flags := u.flags, control := u.control)
  }

  /** One phase of a stop: what it looks at, what it gives up and what comes next. */
  ghost predicate PhaseOutcome(s: State, u: State) {
    match s.control
    case Free =>
      u == s.(flags := Flags(s.flags.started, true, s.flags.failed, false, false), control := StoppingPlayback)
    case AbortingStart => PlaybackReleased(s, u, s.bus.inflight == 0) && u.control == Control.Free
    case StoppingPlayback =>
      PlaybackReleased(s, u, s.bus.inflight == 0) && u.control == StoppingCapture(s.bus.inflight == 0)
    case StoppingCapture(playback) =>
      var stopped := s.bus.captureInflight == 0;
      u == s.(bus := s.bus.(capturePool := if stopped then 0 else s.bus.capturePool), control := Releasing(playback, stopped))
    case Releasing(playback, capture) =>
      u == s.(interfaces := s.interfaces && (!playback || !capture), control := Control.Free)
  }

  /** Nothing that could still be called back into. */
  ghost predicate Idle(b: Bus) {
    b.transfers == [] && b.feedbackPool == 0 && b.capturePool == 0 && b.inflight == 0 && b.captureInflight == 0
  }

  /** Every phase of every stop, and every close: the device goes exactly when both pools are gone and nothing is in flight. */
  lemma TeardownEffect(run: seq<State>, events: seq<Event>, i: nat)
    requires IsRun(run, events) && i < |events| && Enabled(run[i], events[i])
    ensures events[i].Stop? ==> PhaseOutcome(run[i], run[i + 1])
    ensures events[i].Close? ==> run[i + 1] == run[i].(deviceOpen := run[i].deviceOpen && !Idle(run[i].bus))
  {
    RunHolds(run, events, i);
  }

  // ---- Between the phases -----------------------------------------------------------------------

  /** Nothing a stop releases changed hands, and the control thread is where it was. */
  ghost predicate Untouched(s: State, u: State) {
    u.control == s.control && PoolsKept(s, u)
  }

  lemma {:induction false} ServingControls(s: State, oks: seq<bool>)
    requires WellFormed(s)
    ensures SubmitPending(s, oks).control == s.control
    decreases |s.bus.pending|
  {
    if s.bus.pending != [] && CanPrepare(s) && (oks == [] || oks[0]) {
      var u := LaunchImplicit(s, s.bus.pending[0], true);
      ServingControls(u.(bus := Dequeue(u.bus)), Rest(oks));
    }
  }

  lemma IsoControls(s: State, t: nat, ok: bool, plan: seq<nat>)
    requires WellFormed(s) && t < |s.bus.transfers|
    ensures Resubmit(s, t, ok, plan).control == s.control
  {
  }

  lemma CaptureControls(s: State, e: Event)
    requires WellFormed(s) && e.Capture?
    ensures OnCapture(s, e.status, e.packets, e.oks, e.ok).control == s.control
  {
    if s.flags.captureActive && e.status != Cancelled && !s.flags.stopRequested && e.status != NoDevice {
      var logged := if s.cfg.implicit then s.(clock := LogLayouts(s.clock, e.packets)) else s;
      ServingControls(logged, e.oks);
      TailControls(SubmitPending(logged, e.oks), e.ok);
    }
  }

  lemma TailControls(s: State, ok: bool)
    ensures ResubmitCapture(s, ok).control == s.control
  {
  }

  lemma BetweenPhases(s: State, e: Event)
    requires Inv(s) && !e.Stop? && !s.control.Free?
    ensures Untouched(s, Apply(s, e))
  {
    if Enabled(s, e) {
      PoolChange(s, e);
      match e {
        case Iso(t, status, ok, plan) => IsoControls(Retired(s, t, s.flags.started), t, ok, plan);
        case Capture(_, _, _, _) => CaptureControls(s, e);
        case _ =>
      }
    }
  }

  ghost predicate NoStop(events: seq<Event>, from: nat, to: nat)
    requires to <= |events|
  {
    forall k :: from <= k < to ==> !events[k].Stop?
  }

  lemma {:induction false} Waiting(run: seq<State>, events: seq<Event>, i: nat, j: nat)
    requires IsRun(run, events) && i <= j < |run| && !run[i].control.Free? && NoStop(events, i, j)
    ensures Untouched(run[i], run[j])
    decreases j
  {
    if i < j {
      Waiting(run, events, i, j - 1);
      RunHolds(run, events, j - 1);
      BetweenPhases(run[j - 1], events[j - 1]);
      UntouchedOn(run[i], run[j - 1], run[j]);
    }
  }

  lemma UntouchedOn(s: State, u: State, v: State)
    requires Untouched(s, u) && Untouched(u, v)
    ensures Untouched(s, v)
  {
  }

  // ---- A whole stop -----------------------------------------------------------------------------

  /** The four phases of one stop, with anything but another stop between them. */
  ghost predicate WholeStop(run: seq<State>, events: seq<Event>, a: nat, b: nat, c: nat, d: nat)
    requires |run| == |events| + 1
  {
    && a < b < c < d < |events| && run[a].control.Free?
    && events[a].Stop? && events[b].Stop? && events[c].Stop? && events[d].Stop?
    && NoStop(events, a + 1, b) && NoStop(events, b + 1, c) && NoStop(events, c + 1, d)
  }

  /** What each phase found when it came. */
  lemma Phases(run: seq<State>, events: seq<Event>, a: nat, b: nat, c: nat, d: nat)
    requires IsRun(run, events) && WholeStop(run, events, a, b, c, d)
    ensures run[b].control == StoppingPlayback && PoolsKept(run[a], run[b])
    ensures run[c].control == StoppingCapture(run[b].bus.inflight == 0) && PoolsKept(run[b + 1], run[c])
    ensures run[d].control == Releasing(run[b].bus.inflight == 0, run[c].bus.captureInflight == 0) && PoolsKept(run[c + 1], run[d])
  {
    TeardownEffect(run, events, a);
    Waiting(run, events, a + 1, b);
    TeardownEffect(run, events, b);
    Waiting(run, events, b + 1, c);
    TeardownEffect(run, events, c);
    Waiting(run, events, c + 1, d);
  }

  /** The second phase decides for playback, and the later ones leave it at that. */
  lemma PlaybackDecided(s: State, u: State, v: State, w: State, x: State)
    requires Inv(s) && Inv(x) && s.control.StoppingPlayback? && PhaseOutcome(s, u) && PoolsKept(u, v)
    requires v.control.StoppingCapture? && PhaseOutcome(v, w) && |x.bus.transfers| == |w.bus.transfers|
    ensures PlaybackFreed(x.bus) <==> s.bus.inflight == 0
  {
  }

  /** And the third for capture. */
  lemma CaptureDecided(s: State, u: State, v: State, x: State)
    requires Inv(s) && Inv(x) && s.control.StoppingCapture? && PhaseOutcome(s, u) && PoolsKept(u, v)
    requires x.bus.capturePool == v.bus.capturePool
    ensures CaptureFreed(x.bus) <==> s.bus.captureInflight == 0
  {
  }

  lemma Released(s: State, x: State)
    requires Inv(s) && s.control.Releasing? && PhaseOutcome(s, x)
    ensures x.control.Free? && x.flags.stopRequested && x.bus == s.bus && x.deviceOpen == s.deviceOpen
    ensures x.interfaces == (s.interfaces && !(s.control.playbackStopped && s.control.captureStopped))
  {
  }

  lemma InterfacesKept(s: State, u: State)
    requires PhaseOutcome(s, u) && !s.control.Releasing?
    ensures u.interfaces == s.interfaces && u.deviceOpen == s.deviceOpen
  {
  }

  /**
   * Exactly what a stop releases, whatever runs between its phases: the OUT and feedback pools if and only if nothing was
   * in flight when playback was waited for, the capture pool if and only if nothing was when capture was, and the
   * interfaces if and only if both.
   */
  lemma StopReleasesExactlyWhen(run: seq<State>, events: seq<Event>, a: nat, b: nat, c: nat, d: nat)
    requires IsRun(run, events) && WholeStop(run, events, a, b, c, d)
    ensures var u := run[d + 1]; var playback, capture := run[b].bus.inflight == 0, run[c].bus.captureInflight == 0;
            && u.control.Free? && u.flags.stopRequested
            && (PlaybackFreed(u.bus) <==> playback) && (CaptureFreed(u.bus) <==> capture)
            && u.interfaces == (run[a].interfaces && !(playback && capture))
            && u.deviceOpen == run[a].deviceOpen
  {
    Phases(run, events, a, b, c, d);
    StopAt(run, events, a);
    StopAt(run, events, b);
    StopAt(run, events, c);
    StopAt(run, events, d);
    Decided(run[a], run[a + 1], run[b], run[b + 1], run[c], run[c + 1], run[d], run[d + 1]);
  }

  lemma StopAt(run: seq<State>, events: seq<Event>, i: nat)
    requires IsRun(run, events) && i < |events| && events[i].Stop?
    ensures Inv(run[i]) && Inv(run[i + 1]) && PhaseOutcome(run[i], run[i + 1])
  {
    RunHolds(run, events, i);
    RunHolds(run, events, i + 1);
    TeardownEffect(run, events, i);
  }

  lemma Decided(a: State, a1: State, b: State, b1: State, c: State, c1: State, d: State, x: State)
    requires Inv(b) && Inv(c) && Inv(d) && Inv(x)
    requires a.control.Free? && PhaseOutcome(a, a1) && PhaseOutcome(b, b1) && PhaseOutcome(c, c1) && PhaseOutcome(d, x)
    requires PoolsKept(a, b) && PoolsKept(b1, c) && PoolsKept(c1, d)
    requires b.control == StoppingPlayback && c.control == StoppingCapture(b.bus.inflight == 0)
    requires d.control == Releasing(b.bus.inflight == 0, c.bus.captureInflight == 0)
    ensures x.control.Free? && x.flags.stopRequested
    ensures PlaybackFreed(x.bus) <==> b.bus.inflight == 0
    ensures CaptureFreed(x.bus) <==> c.bus.captureInflight == 0
    ensures x.interfaces == (a.interfaces && !(b.bus.inflight == 0 && c.bus.captureInflight == 0)) && x.deviceOpen == a.deviceOpen
  {
    Released(d, x);
    PlaybackDecided(b, b1, c, c1, x);
    CaptureDecided(c, c1, d, x);
    InterfacesKept(b, b1);
    InterfacesKept(c, c1);
  }

  /** A stop with nothing on the bus releases everything, and the close after it closes the device, whatever else is tried. */
  lemma IdleStopReleases(run: seq<State>, events: seq<Event>, a: nat, b: nat, c: nat, d: nat)
    requires IsRun(run, events) && WholeStop(run, events, a, b, c, d)
    requires run[a].bus.inflight == 0 && run[a].bus.captureInflight == 0
    ensures Idle(run[d + 1].bus) && !run[d + 1].interfaces
    ensures d + 1 < |events| && events[d + 1].Close? ==> !run[d + 2].deviceOpen
  {
    StopReleasesExactlyWhen(run, events, a, b, c, d);
    TeardownEffect(run, events, a);
    assert run[b].bus.inflight == 0 by {
      StopIsFinal(run, events, a + 1, b);
    }
    assert run[c].bus.captureInflight == 0 by {
      StopIsFinal(run, events, a + 1, c);
    }
    if d + 1 < |events| && events[d + 1].Close? {
      TeardownEffect(run, events, d + 1);
    }
  }
}
