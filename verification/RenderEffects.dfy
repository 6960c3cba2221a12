/**
 * What the render thread's calls do to playback, over every run: exactly when a charged publish goes through, what each
 * publish adds and pays, and that what is committed is what was published. Nothing here calls the step it is about.
 */
module RenderEffects {
  import opened Core
  import opened Transport
  import opened TransportInvariants
  import opened TransportSafety
  import opened TransportRuns
  import opened TransportTheorems

  /**
   * The pipeline behind the bus, the block included, stays within what was there at the start, the target, the reserve,
   * and whatever left the bus since its queue was read; frames once published without charge add to the allowance, and
   * frames a stop wrote off stay in the pipeline.
   */
  ghost predicate Affordable(s: State, frames: nat, seen: nat)
    requires s.cfg.stride > 0
  {
    |s.stream.ring| / s.cfg.stride + s.ledger.held + |s.stream.lost| / s.cfg.stride + s.ledger.retired + frames
    <= s.ledger.stock + s.ledger.uncharged + s.cfg.target + s.cfg.reserve + (seen - s.bus.queued)
  }

  /** A charged block goes through: free before the start, affordable after it. */
  ghost predicate GoesThrough(s: State, frames: nat, seen: nat)
    requires s.cfg.stride > 0
  {
    frames == 0 || !s.flags.started || Affordable(s, frames, seen)
  }

  lemma AdmitsExactlyWhen(s: State, frames: nat, seen: nat)
    requires Inv(s)
    ensures CreditAdmits(s, frames, seen) <==> GoesThrough(s, frames, seen)
  {
  }

  /** What a render call leaves behind: the block behind the ring, its frames charged, owed to nobody or taken from the slot. */
  ghost function Rendered(s: State, e: Event): State
    requires s.cfg.stride > 0 && Renders(e)
  {
    var started := s.flags.started;
    match e
    case SubmitCharged(pcm, seen) =>
      if !GoesThrough(s, |pcm| / s.cfg.stride, seen) then s
      else Published(s, pcm, s.ledger.(credit := s.ledger.credit - (if started then |pcm| / s.cfg.stride else 0)))
    case SubmitFree(pcm) =>
      Published(s, pcm, s.ledger.(uncharged := s.ledger.uncharged + (if started then |pcm| / s.cfg.stride else 0)))
    case EnterHold(frames) =>
      s.(ledger := s.ledger.(held := s.ledger.held + frames, credit := s.ledger.credit - (if started then frames else 0)))
    case SubmitHeld(pcm) =>
      Published(s, pcm, s.ledger.(held := if |pcm| / s.cfg.stride <= s.ledger.held then s.ledger.held - |pcm| / s.cfg.stride else 0))
    case _ => s
  }

  ghost function Published(s: State, pcm: seq<Byte>, ledger: Ledger): State {
    s.(stream := Stream(s.stream.ring + pcm, s.stream.committed + pcm, s.stream.sent, s.stream.lost), ledger := ledger)
  }

  lemma RenderStep(s: State, e: Event)
    requires Inv(s) && Renders(e) && Enabled(s, e)
    ensures Apply(s, e) == Rendered(s, e)
  {
    if e.SubmitCharged? {
      ChargedIs(s, e.pcm, e.seen);
    }
  }

  lemma ChargedIs(s: State, pcm: seq<Byte>, seen: nat)
    requires Inv(s)
    ensures PublishCharged(s, pcm, seen) == Rendered(s, SubmitCharged(pcm, seen))
  {
    AdmitsExactlyWhen(s, |pcm| / s.cfg.stride, seen);
  }

  /** Every render call of every run, and nothing it does not mention changes. */
  lemma RenderEffect(run: seq<State>, events: seq<Event>, i: nat)
    requires IsRun(run, events) && i < |events| && Renders(events[i]) && Enabled(run[i], events[i]) && run[i].cfg.stride > 0
    ensures run[i + 1] == Rendered(run[i], events[i])
  {
    RunHolds(run, events, i);
    RenderStep(run[i], events[i]);
  }

  /**
   * Exactly when a charged block goes through while playback runs and every publish was charged: with it, ring and slot
   * stay within the prime stock, the target, the reserve and what left the bus between the load of the queue, at
   * `load`, and now. Refused, it changes nothing.
   */
  lemma ChargedGoesThroughExactlyWhen(run: seq<State>, events: seq<Event>, load: nat, i: nat)
    requires IsRun(run, events) && load <= i < |events| && run[i].cfg.stride > 0
    requires run[i].flags.started && !run[i].flags.stopRequested && run[i].ledger.uncharged == 0
    requires events[i].SubmitCharged? && Enabled(run[i], events[i]) && events[i].seen == run[load].bus.queued
    requires |events[i].pcm| > 0
    ensures var s, u, pcm := run[i], run[i + 1], events[i].pcm; var frames := |pcm| / s.cfg.stride;
            && (u.stream.committed == s.stream.committed + pcm <==>
                  |s.stream.ring| / s.cfg.stride + s.ledger.held + frames
                  <= s.ledger.stock + s.cfg.target + s.cfg.reserve + (run[load].bus.queued - s.bus.queued))
            && (u.stream.committed != s.stream.committed + pcm ==> u == s)
  {
    RunHolds(run, events, i);
    RenderEffect(run, events, i);
    ChargedFrames(events[i].pcm, run[i].cfg.stride);
    WholeProduct(0, run[i].cfg.stride);
  }

  // ---- What is committed ------------------------------------------------------------------------

  /** The PCM an event publishes. */
  ghost function Publishes(s: State, e: Event): seq<Byte> {
    match e
    case SubmitCharged(pcm, seen) => if Enabled(s, e) && GoesThrough(s, |pcm| / s.cfg.stride, seen) then pcm else []
    case SubmitFree(pcm) => if Enabled(s, e) then pcm else []
    case SubmitHeld(pcm) => if Enabled(s, e) then pcm else []
    case _ => []
  }

  ghost function PublishedBy(run: seq<State>, events: seq<Event>, i: nat): seq<Byte>
    requires |run| == |events| + 1 && i <= |events|
  {
    if i == 0 then [] else PublishedBy(run, events, i - 1) + Publishes(run[i - 1], events[i - 1])
  }

  lemma {:induction false} ServingCommitsNothing(s: State, oks: seq<bool>)
    requires WellFormed(s)
    ensures SubmitPending(s, oks).stream.committed == s.stream.committed
    decreases |s.bus.pending|
  {
    if s.bus.pending != [] && CanPrepare(s) && (oks == [] || oks[0]) {
      var u := LaunchImplicit(s, s.bus.pending[0], true);
      ServingCommitsNothing(u.(bus := Dequeue(u.bus)), Rest(oks));
    }
  }

  lemma IsoCommitsNothing(s: State, t: nat, ok: bool, plan: seq<nat>)
    requires WellFormed(s) && t < |s.bus.transfers|
    ensures Resubmit(s, t, ok, plan).stream.committed == s.stream.committed
  {
  }

  lemma CaptureCommitsNothing(s: State, e: Event)
    requires WellFormed(s) && e.Capture?
    ensures OnCapture(s, e.status, e.packets, e.oks, e.ok).stream.committed == s.stream.committed
  {
    if s.flags.captureActive && e.status != Cancelled && !s.flags.stopRequested && e.status != NoDevice {
      var logged := if s.cfg.implicit then s.(clock := LogLayouts(s.clock, e.packets)) else s;
      ServingCommitsNothing(logged, e.oks);
      TailCommitsNothing(SubmitPending(logged, e.oks), e.ok);
    }
  }

  lemma TailCommitsNothing(s: State, ok: bool)
    ensures ResubmitCapture(s, ok).stream == s.stream
  {
  }

  lemma StartCommitsNothing(s: State, fb: nat, accepted: nat)
    requires WellFormed(s)
    ensures StartPlayback(s, fb, accepted).stream.committed == s.stream.committed
  {
    var f := Min(fb, s.bus.feedbackPool);
    var reached := if f < s.bus.feedbackPool then 0 else accepted;
    PumpGrows(s, f, reached, SubmitPump(s, f, reached));
  }

  lemma OthersCommitNothing(s: State, e: Event)
    requires Inv(s) && !Renders(e) && Enabled(s, e)
    ensures Apply(s, e).stream.committed == s.stream.committed
  {
    match e
    case Iso(t, status, ok, plan) => IsoCommitsNothing(Retired(s, t, s.flags.started), t, ok, plan);
    case Capture(_, _, _, _) => CaptureCommitsNothing(s, e);
    case Start(fb, accepted) => StartCommitsNothing(s, fb, accepted);
    case _ =>
  }

  lemma StepCommits(s: State, e: Event)
    requires Inv(s)
    ensures Apply(s, e).stream.committed == s.stream.committed + Publishes(s, e)
  {
    if !Enabled(s, e) {
      assert s.stream.committed + [] == s.stream.committed;
    } else if Renders(e) {
      RenderStep(s, e);
    } else {
      OthersCommitNothing(s, e);
    }
  }

  lemma EventCommits(run: seq<State>, events: seq<Event>, i: nat)
    requires IsRun(run, events) && i < |events|
    ensures run[i + 1].stream.committed == run[i].stream.committed + Publishes(run[i], events[i])
  {
    RunHolds(run, events, i);
    StepCommits(run[i], events[i]);
  }

  lemma {:induction false} CommitChain(run: seq<State>, events: seq<Event>, i: nat)
    requires |run| == |events| + 1 && i < |run| && run[0].stream.committed == []
    requires forall k :: 0 <= k < |events| ==> run[k + 1].stream.committed == run[k].stream.committed + Publishes(run[k], events[k])
    ensures run[i].stream.committed == PublishedBy(run, events, i)
  {
    if i > 0 {
      CommitChain(run, events, i - 1);
      assert run[i - 1 + 1].stream.committed == run[i - 1].stream.committed + Publishes(run[i - 1], events[i - 1]);
    }
  }

  /** Over every run the committed PCM is the blocks that went through, in order; so what the device is sent is what was rendered. */
  lemma CommittedIsPublished(run: seq<State>, events: seq<Event>, i: nat)
    requires IsRun(run, events) && i < |run|
    ensures run[i].stream.committed == PublishedBy(run, events, i)
    ensures !run[i].flags.stopRequested ==> PublishedBy(run, events, i) == run[i].stream.sent + run[i].stream.ring
  {
    forall k | 0 <= k < |events|
      ensures run[k + 1].stream.committed == run[k].stream.committed + Publishes(run[k], events[k])
    {
      EventCommits(run, events, k);
    }
    CommitChain(run, events, i);
    PlaybackStreamRefinement(run, events, i);
  }
}
