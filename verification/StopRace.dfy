/**
 * Stopping while a completion callback is in progress: the steps inside `onIso` and
 * `submitPendingImplicitTransfers`, interleaved with `stopIsoPump` reading `inflight_`, joining the
 * event thread and freeing the transfers.
 */
module StopRace {

  /** A callback past its own test of `stopRequested_`; before that test it has done nothing. */
  datatype Callback =
    | Nothing
    | Completion                  // onIso, its transfer back from the bus but still counted
    | Serving(counted: bool)      // onCapture serving deferrals; `counted` once inflight_ went up for one

  datatype Control = Running | Waiting | SawZero | Joined | Freed | GaveUp

  datatype State = State(
    held: nat,                    // transfers the bus holds
    inflight: nat,                // inflight_
    pending: nat,                 // pendingImplicitCount_
    stop: bool,                   // stopRequested_
    callback: Callback, alive: bool,     // the event thread
    control: Control,
    strayed: bool)                // the pool was freed with a transfer still on the bus

  datatype Step =
    | BeginCompletion | Defer | Resubmit(ok: bool)
    | BeginCapture | CountDeferred | SubmitDeferred(ok: bool) | EndCapture
    | ExitLoop
    | RaiseStop                          // requestStop() on its own, from any thread
    | RequestStop | ReadInflight | Deadline | Join | Free

  /** Somebody handles events: the event thread, or `stopIsoPump` while it waits. */
  predicate Handled(s: State) {
    s.callback.Nothing? && (s.alive || s.control.Waiting?)
  }

  function Next(s: State, step: Step): State {
    match step
    case BeginCompletion =>
      if !Handled(s) || s.held == 0 then s
      else if s.stop then s.(held := s.held - 1, inflight := if s.inflight > 0 then s.inflight - 1 else 0)
      else s.(held := s.held - 1, callback := Completion)
    case Defer =>
      if s.callback.Completion? && s.inflight > 0
      then s.(inflight := s.inflight - 1, pending := s.pending + 1, callback := Nothing) else s
    case Resubmit(ok) =>
      if !s.callback.Completion? || s.inflight == 0 then s
      else if ok then s.(held := s.held + 1, callback := Nothing)
      else s.(inflight := s.inflight - 1, stop := true, callback := Nothing)
    case BeginCapture => if Handled(s) && !s.stop then s.(callback := Serving(false)) else s
    case CountDeferred =>
      if s.callback == Serving(false) && s.pending > 0
      then s.(inflight := s.inflight + 1, callback := Serving(true)) else s
    case SubmitDeferred(ok) =>
      if s.callback != Serving(true) || s.inflight == 0 || s.pending == 0 then s
      else if ok then s.(held := s.held + 1, pending := s.pending - 1, callback := Serving(false))
      else s.(inflight := s.inflight - 1, stop := true, callback := Nothing)
    case EndCapture => if s.callback == Serving(false) then s.(callback := Nothing) else s
    case ExitLoop => if s.alive && s.callback.Nothing? && s.stop then s.(alive := false) else s
    case RaiseStop => s.(stop := true)
    case RequestStop => if s.control.Running? then s.(stop := true, control := Waiting) else s
    case ReadInflight => if s.control.Waiting? && s.inflight == 0 then s.(control := SawZero) else s
    case Deadline => if s.control.Waiting? && s.inflight > 0 then s.(control := GaveUp) else s
    case Join => if s.control.SawZero? && !s.alive then s.(control := Joined) else s
    case Free => if s.control.Joined? then s.(control := Freed, pending := 0, strayed := s.held > 0) else s
  }

  function Run(s: State, steps: seq<Step>): State
    decreases |steps|
  {
    if steps == [] then s else Run(Next(s, steps[0]), steps[1..])
  }

  predicate Init(s: State) {
    && s.inflight == s.held && s.callback.Nothing? && s.alive && s.control.Running? && !s.stop && !s.strayed
  }

  /** The counter is exact between any two steps, and a stop is on record before the control thread waits. */
  predicate Inv(s: State) {
    && s.inflight == s.held + (if s.callback.Completion? || s.callback == Serving(true) then 1 else 0)
    && (s.callback == Serving(true) ==> s.pending > 0)
    && (!s.alive ==> s.callback.Nothing? && s.stop)
    && (!s.control.Running? ==> s.stop)
    && (s.control.Joined? || s.control.Freed? ==> !s.alive)
  }

  lemma StepKeeps(s: State, step: Step)
    requires Inv(s)
    ensures Inv(Next(s, step))
  {
  }

  lemma {:induction false} RunHolds(s: State, steps: seq<Step>)
    requires Inv(s)
    ensures Inv(Run(s, steps))
    decreases |steps|
  {
    if steps != [] {
      StepKeeps(s, steps[0]);
      RunHolds(Next(s, steps[0]), steps[1..]);
    }
  }

  // ---- From the moment inflight_ reads zero ------------------------------------------------

  /** A capture callback already past its stop test still has deferred transfers to serve. */
  predicate StillServing(s: State) {
    s.callback.Serving? && s.pending > 0
  }

  /** Nothing is on the bus and nothing can be put there any more. */
  predicate Settled(s: State) {
    && s.stop && s.held == 0 && !s.strayed && !s.callback.Completion? && !StillServing(s)
    && (s.control.SawZero? || s.control.Joined? || s.control.Freed?)
  }

  lemma {:induction false} SettledStays(s: State, steps: seq<Step>)
    requires Inv(s) && Settled(s)
    ensures Settled(Run(s, steps))
    decreases |steps|
  {
    if steps != [] {
      StepKeeps(s, steps[0]);
      SettledStays(Next(s, steps[0]), steps[1..]);
    }
  }

  const STRAY: seq<Step> := [CountDeferred, SubmitDeferred(true), EndCapture, ExitLoop, Join, Free]

  lemma StillServingStrays(s: State)
    requires Inv(s) && s.control.SawZero? && s.inflight == 0 && StillServing(s)
    ensures Run(s, STRAY).strayed
  {
    DeferredGoesOut(s);
    var c := s.(held := 1, inflight := 1, pending := s.pending - 1, callback := Nothing);
    PoolGoes(c);
    assert STRAY == LAUNCH + RELEASE;
    RunConcat(s, LAUNCH, RELEASE);
  }

  const LAUNCH: seq<Step> := [CountDeferred, SubmitDeferred(true), EndCapture]
  const RELEASE: seq<Step> := [ExitLoop, Join, Free]

  lemma {:induction false} RunConcat(s: State, first: seq<Step>, rest: seq<Step>)
    ensures Run(s, first + rest) == Run(Run(s, first), rest)
    decreases |first|
  {
    if first == [] {
      assert first + rest == rest;
    } else {
      RunConcat(Next(s, first[0]), first[1..], rest);
      assert (first + rest)[1..] == first[1..] + rest;
    }
  }

  lemma RunThree(s: State, x: Step, y: Step, z: Step)
    ensures Run(s, [x, y, z]) == Next(Next(Next(s, x), y), z)
  {
    var a := Next(s, x);
    var b := Next(a, y);
    assert [x, y, z][1..] == [y, z] && [y, z][1..] == [z] && [z][1..] == [];
    assert Run(s, [x, y, z]) == Run(a, [y, z]);
    assert Run(a, [y, z]) == Run(b, [z]);
  }

  lemma DeferredGoesOut(s: State)
    requires Inv(s) && s.control.SawZero? && s.inflight == 0 && StillServing(s)
    ensures Run(s, LAUNCH) == s.(held := 1, inflight := 1, pending := s.pending - 1, callback := Nothing)
    ensures s.alive && s.stop
  {
    RunThree(s, CountDeferred, SubmitDeferred(true), EndCapture);
  }

  lemma PoolGoes(s: State)
    requires s.alive && s.stop && s.callback.Nothing? && s.control.SawZero? && s.held > 0
    ensures Run(s, RELEASE).strayed
  {
    RunThree(s, ExitLoop, Join, Free);
  }

  /**
   * Exactly when zero may be trusted: from a state in which `stopIsoPump` has just read `inflight_` as
   * zero, the pool is never freed under a transfer the bus holds, however the rest interleaves, if and
   * only if no capture callback is still serving deferred transfers.
   */
  lemma ZeroIsFinalExactlyWhen(s: State)
    requires Inv(s) && s.control.SawZero? && s.inflight == 0 && !s.strayed
    ensures (forall steps: seq<Step> :: !Run(s, steps).strayed) <==> !StillServing(s)
  {
    if StillServing(s) {
      StillServingStrays(s);
    } else {
      forall steps: seq<Step>
        ensures !Run(s, steps).strayed
      {
        SettledStays(s, steps);
      }
    }
  }

  const INTO_SERVICE: seq<Step> := [BeginCompletion, Defer, BeginCapture] + [RequestStop, ReadInflight]

  /** The excluded state does occur: the only transfer deferred, and the stop lands inside the next capture callback. */
  lemma StillServingReachable(s: State)
    requires Init(s) && s.held == 1 && s.pending == 0
    ensures var t := Run(s, INTO_SERVICE);
            Inv(t) && t.control.SawZero? && t.inflight == 0 && !t.strayed && StillServing(t)
  {
    RunConcat(s, [BeginCompletion, Defer, BeginCapture], [RequestStop, ReadInflight]);
    RunThree(s, BeginCompletion, Defer, BeginCapture);
    var c := s.(held := 0, inflight := 0, pending := 1, callback := Serving(false));
    assert Run(s, [BeginCompletion, Defer, BeginCapture]) == c;
    assert [RequestStop, ReadInflight][1..] == [ReadInflight] && [ReadInflight][1..] == [];
    assert Run(c, [RequestStop, ReadInflight]) == Next(Next(c, RequestStop), ReadInflight);
  }

  // ---- From the moment the stop lands ------------------------------------------------------

  /**
   * The stop lands while a capture callback, past its own stop test, has deferred transfers left to
   * serve, none of them counted yet, and nothing else is on the bus.
   */
  predicate OnlyDeferredLeft(s: State) {
    s.callback == Serving(false) && s.pending > 0 && s.held == 0
  }

  /** Whatever a callback may still put on the bus, `inflight_` stays above zero until it is back. */
  predicate Counted(s: State) {
    && s.stop && !s.strayed
    && (s.callback == Serving(false) ==> s.pending == 0 || s.held > 0)
    && (s.control.SawZero? || s.control.Joined? || s.control.Freed? ==> Settled(s))
  }

  lemma {:induction false} CountedStays(s: State, steps: seq<Step>)
    requires Inv(s) && Counted(s)
    ensures Counted(Run(s, steps))
    decreases |steps|
  {
    if steps != [] {
      StepKeeps(s, steps[0]);
      CountedStays(Next(s, steps[0]), steps[1..]);
    }
  }

  lemma OnlyDeferredLeftStrays(s: State)
    requires Inv(s) && s.control.Running? && !s.strayed && OnlyDeferredLeft(s)
    ensures Run(Next(s, RequestStop), [ReadInflight] + STRAY).strayed
  {
    var t := Next(s, RequestStop);
    var u := Next(t, ReadInflight);
    RunConcat(t, [ReadInflight], STRAY);
    assert [ReadInflight][1..] == [];
    assert Run(t, [ReadInflight]) == u;
    StillServingStrays(u);
  }

  /**
   * Exactly when a stop is safe, by what holds as it lands: the pool is never freed under a transfer the
   * bus holds, however the rest interleaves, if and only if the stop does not find a capture callback
   * with only deferred transfers left.
   */
  lemma StopIsSafeExactlyWhen(s: State)
    requires Inv(s) && s.control.Running? && !s.strayed
    ensures (forall steps: seq<Step> :: !Run(Next(s, RequestStop), steps).strayed) <==> !OnlyDeferredLeft(s)
  {
    var t := Next(s, RequestStop);
    StepKeeps(s, RequestStop);
    if OnlyDeferredLeft(s) {
      OnlyDeferredLeftStrays(s);
    } else {
      forall steps: seq<Step>
        ensures !Run(t, steps).strayed
      {
        CountedStays(t, steps);
      }
    }
  }

  /** So a caller that stops with a transfer still counted, or with nothing deferred, is safe. */
  lemma StopWithTransfersCountedIsSafe(s: State, steps: seq<Step>)
    requires Inv(s) && s.control.Running? && !s.strayed
    requires s.inflight > 0 || s.pending == 0
    ensures !Run(Next(s, RequestStop), steps).strayed
  {
    StopIsSafeExactlyWhen(s);
  }

  // ---- Stops between callbacks --------------------------------------------------------------

  /** No stop is requested while a callback is past its own stop test. */
  predicate StopsBetweenCallbacks(s: State, steps: seq<Step>)
    decreases |steps|
  {
    steps == [] ||
      (((steps[0].RequestStop? && s.control.Running?) || steps[0].RaiseStop? ==> s.callback.Nothing?)
       && StopsBetweenCallbacks(Next(s, steps[0]), steps[1..]))
  }

  /** A requested stop finds no callback in progress; a failed submission ends its own. */
  predicate Quiet(s: State) {
    (s.stop ==> s.callback.Nothing?) && (s.control.Freed? ==> !s.strayed)
    && (s.control.SawZero? || s.control.Joined? || s.control.Freed? ==> s.held == 0) && !s.strayed
  }

  /** When callbacks are not split by a stop, teardown frees only what nothing can call back into. */
  lemma {:induction false} StopBetweenCallbacksIsSafe(s: State, steps: seq<Step>)
    requires Inv(s) && Quiet(s) && StopsBetweenCallbacks(s, steps)
    ensures Quiet(Run(s, steps)) && !Run(s, steps).strayed
    decreases |steps|
  {
    if steps != [] {
      StepKeeps(s, steps[0]);
      StopBetweenCallbacksIsSafe(Next(s, steps[0]), steps[1..]);
    }
  }
}
