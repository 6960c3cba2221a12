/**
 * The wake channel: an event counter and a count of registered waiters, with the producer that skips
 * the write when nobody can be woken. Every atomic operation is a step; all threads interleave freely.
 */
module WakeChannel {
  import opened Core

  /** Where a waiter stands in `waitForCaptureFrames`. */
  datatype Stage =
    | Out                // not registered
    | Registered         // about to read captureActive_
    | SawActive          // about to read the cursors
    | Short              // too few frames; about to read streaming_
    | Polling            // blocked in poll() until the counter is nonzero
    | Woken              // poll() returned; about to drain the counter

  datatype Waiter = Waiter(stage: Stage, frames: nat)

  /** The completion callback, between publishing the cursor and its next publication. */
  datatype Gate = Rest | Published | Loaded

  /** A terminal transition: activity off, then streaming off, then an unconditional signal. */
  datatype Ending = Idle | Inactive | Ended

  datatype State = State(
    threads: seq<Waiter>, waiters: nat, counter: nat,
    available: nat, limit: nat, active: bool, streaming: bool,
    gate: Gate, failing: Ending, stopping: Ending)

  datatype Step =
    | Register(i: nat, frames: nat)
    | ReadActive(i: nat)
    | ReadCursors(i: nat)
    | ReadStreaming(i: nat)
    | PollReturns(i: nat)
    | Timeout(i: nat)
    | Drain(i: nat)
    | Consume(frames: nat)                // the render thread, waiter 0, reads while not waiting
    | Publish(frames: nat)
    | LoadWaiters
    | SignalGate
    | Fail | FailStreaming | FailSignal   // markTransportFailed
    | Stop | StopStreaming | StopSignal   // requestStop

  predicate Enough(s: State, frames: nat) {
    s.active && Min(s.available, s.limit) >= frames
  }

  predicate At(s: State, i: nat, stage: Stage) {
    i < |s.threads| && s.threads[i].stage == stage
  }

  function Move(s: State, i: nat, stage: Stage): State
    requires i < |s.threads|
  {
    s.(threads := s.threads[i := s.threads[i].(stage := stage)])
  }

  function Leave(s: State, i: nat): State
    requires i < |s.threads|
  {
    Move(s, i, Out).(waiters := if s.waiters > 0 then s.waiters - 1 else 0)
  }

  /** A step whose thread is not at that point of its program does nothing. */
  function Next(s: State, step: Step): State {
    match step
    case Register(i, frames) =>
      if At(s, i, Out) then s.(threads := s.threads[i := Waiter(Registered, frames)], waiters := s.waiters + 1) else s
    case ReadActive(i) =>
      if At(s, i, Registered) then Move(s, i, if s.active then SawActive else Short) else s
    case ReadCursors(i) =>
      if !At(s, i, SawActive) then s
      else if Min(s.available, s.limit) >= s.threads[i].frames then Leave(s, i) else Move(s, i, Short)
    case ReadStreaming(i) =>
      if !At(s, i, Short) then s else if s.streaming then Move(s, i, Polling) else Leave(s, i)
    case PollReturns(i) => if At(s, i, Polling) && s.counter > 0 then Move(s, i, Woken) else s
    case Timeout(i) => if At(s, i, Polling) then Leave(s, i) else s
    case Drain(i) => if At(s, i, Woken) then Move(s, i, Registered).(counter := 0) else s
    case Consume(frames) =>
      if At(s, 0, Out) && frames <= s.available then s.(available := s.available - frames) else s
    case Publish(frames) =>
      if s.gate.Rest? then s.(available := s.available + frames, gate := Published) else s
    case LoadWaiters => if s.gate.Published? then s.(gate := if s.waiters > 0 then Loaded else Rest) else s
    case SignalGate => if s.gate.Loaded? then s.(gate := Rest, counter := s.counter + 1) else s
    case Fail => if s.failing.Idle? then s.(failing := Inactive, active := false) else s
    case FailStreaming => if s.failing.Inactive? then s.(failing := Ended, streaming := false) else s
    case FailSignal => if s.failing.Ended? then s.(failing := Idle, counter := s.counter + 1) else s
    case Stop => if s.stopping.Idle? then s.(stopping := Inactive, active := false) else s
    case StopStreaming => if s.stopping.Inactive? then s.(stopping := Ended, streaming := false) else s
    case StopSignal => if s.stopping.Ended? then s.(stopping := Idle, counter := s.counter + 1) else s
  }

  function Run(s: State, steps: seq<Step>): State {
    if steps == [] then s else Next(Run(s, steps[..|steps| - 1]), steps[|steps| - 1])
  }

  predicate Init(s: State, threads: nat) {
    && |s.threads| == threads && (forall i :: 0 <= i < threads ==> s.threads[i].stage.Out?)
    && s.waiters == 0 && s.gate.Rest? && s.failing.Idle? && s.stopping.Idle?
  }

  /** Blocked, with no event pending on the channel. */
  predicate Blocked(s: State, i: nat) {
    At(s, i, Polling) && s.counter == 0
  }

  /** What the waiter waits for. */
  predicate Due(s: State, i: nat)
    requires i < |s.threads|
  {
    Enough(s, s.threads[i].frames) || !s.streaming
  }

  /** Some producer is committed to writing the counter. */
  predicate SignalOwed(s: State) {
    s.gate.Published? || s.gate.Loaded? || s.failing.Ended? || s.stopping.Ended?
  }

  predicate Inv(s: State) {
    && |s.threads| == 1
    && s.waiters == (if s.threads[0].stage.Out? then 0 else 1)
    && (s.threads[0].stage.Short? || s.threads[0].stage.Polling? ==>
          (Enough(s, s.threads[0].frames) ==> s.counter > 0 || !s.gate.Rest?))
    && (s.threads[0].stage.Polling? && !s.streaming ==>
          s.counter > 0 || s.failing.Ended? || s.stopping.Ended?)
  }

  lemma {:induction false} RunHolds(s: State, steps: seq<Step>)
    requires Init(s, 1)
    ensures Inv(Run(s, steps))
  {
    if steps != [] {
      RunHolds(s, steps[..|steps| - 1]);
      StepKeeps(Run(s, steps[..|steps| - 1]), steps[|steps| - 1]);
    }
  }

  lemma StepKeeps(s: State, step: Step)
    requires Inv(s)
    ensures Inv(Next(s, step))
  {
  }

  const FINISH: seq<Step> := [LoadWaiters, SignalGate, FailSignal, StopSignal]

  /**
   * No lost wakeup. In every interleaving, a single waiter that is blocked while what it waits for has
   * come about is owed a signal, and once the producers finish what they started it is woken.
   */
  lemma NoLostWakeup(start: State, steps: seq<Step>)
    requires Init(start, 1)
    ensures var s := Run(start, steps);
            && |s.threads| == 1
            && (Blocked(s, 0) && Due(s, 0) ==>
                  SignalOwed(s) && At(Next(Run(s, FINISH), PollReturns(0)), 0, Woken))
  {
    RunHolds(start, steps);
    var s := Run(start, steps);
    if Blocked(s, 0) && Due(s, 0) {
      FinishSignals(s);
    }
  }

  function Finished(s: State): State {
    Next(Next(Next(Next(s, LoadWaiters), SignalGate), FailSignal), StopSignal)
  }

  lemma FinishRuns(s: State)
    ensures Run(s, FINISH) == Finished(s)
  {
    RunConcat(s, [LoadWaiters, SignalGate], [FailSignal, StopSignal]);
    RunTwo(s, LoadWaiters, SignalGate);
    RunTwo(Next(Next(s, LoadWaiters), SignalGate), FailSignal, StopSignal);
    assert FINISH == [LoadWaiters, SignalGate] + [FailSignal, StopSignal];
  }

  lemma FinishSignals(s: State)
    requires Inv(s) && Blocked(s, 0) && SignalOwed(s)
    requires s.gate.Rest? ==> s.failing.Ended? || s.stopping.Ended?
    ensures Run(s, FINISH).counter > 0 && At(Run(s, FINISH), 0, Polling)
  {
    FinishRuns(s);
    FinishWakes(s, Next(s, LoadWaiters));
  }

  lemma FinishWakes(s: State, a: State)
    requires Inv(s) && Blocked(s, 0) && SignalOwed(s) && a == Next(s, LoadWaiters)
    requires s.gate.Rest? ==> s.failing.Ended? || s.stopping.Ended?
    ensures Finished(s).counter > 0 && At(Finished(s), 0, Polling)
  {
    var b := Next(a, SignalGate);
    assert a.threads == s.threads && b.threads == s.threads;
  }

  // ---- When a wait ends -------------------------------------------------------------------

  /** A waiter leaves only once its frames are there, streaming is over, or its time is up, and is then not counted. */
  lemma WaitEndsOnlyWhen(s: State, step: Step, i: nat)
    requires i < |s.threads| && !s.threads[i].stage.Out?
    requires At(Next(s, step), i, Out)
    ensures (step == ReadCursors(i) && Min(s.available, s.limit) >= s.threads[i].frames)
         || (step == ReadStreaming(i) && !s.streaming)
         || step == Timeout(i)
    ensures s.waiters > 0 ==> Next(s, step).waiters == s.waiters - 1
  {
  }

  function Wait(i: nat, frames: nat): seq<Step> {
    [Register(i, frames), ReadActive(i)] + [ReadCursors(i), ReadStreaming(i)]
  }

  /** Left alone, a wait returns at once exactly when its frames are there or streaming is over, and otherwise blocks. */
  lemma WaitReturnsExactlyWhen(s: State, i: nat, frames: nat)
    requires At(s, i, Out)
    ensures Run(s, Wait(i, frames))
            == if Enough(s, frames) || !s.streaming then s.(threads := s.threads[i := Waiter(Out, frames)])
               else s.(threads := s.threads[i := Waiter(Polling, frames)], waiters := s.waiters + 1)
  {
    RunConcat(s, [Register(i, frames), ReadActive(i)], [ReadCursors(i), ReadStreaming(i)]);
    Enters(s, i, frames);
    var a := s.(threads := s.threads[i := Waiter(if s.active then SawActive else Short, frames)], waiters := s.waiters + 1);
    RunTwo(a, ReadCursors(i), ReadStreaming(i));
    WaitDecides(s, a, i, frames);
  }

  lemma WaitDecides(s: State, a: State, i: nat, frames: nat)
    requires At(s, i, Out)
    requires a == s.(threads := s.threads[i := Waiter(if s.active then SawActive else Short, frames)], waiters := s.waiters + 1)
    ensures Next(Next(a, ReadCursors(i)), ReadStreaming(i))
            == if Enough(s, frames) || !s.streaming then s.(threads := s.threads[i := Waiter(Out, frames)])
               else s.(threads := s.threads[i := Waiter(Polling, frames)], waiters := s.waiters + 1)
  {
    var b := Next(a, ReadCursors(i));
    var out, short := s.threads[i := Waiter(Out, frames)], s.threads[i := Waiter(Short, frames)];
    if Enough(s, frames) {
      assert b.threads == out;
    } else {
      assert b.threads == short;
    }
  }

  // ---- Why one waiter per channel ---------------------------------------------------------

  const STRANDED: seq<Step> := [
    Register(0, 1), ReadActive(0), ReadCursors(0), ReadStreaming(0),
    Register(1, 1), ReadActive(1), ReadCursors(1), ReadStreaming(1),
    Publish(1), LoadWaiters, SignalGate, PollReturns(0), Drain(0)]

  function TwoWaiters(): State {
    State([Waiter(Out, 0), Waiter(Out, 0)], 0, 0, 0, 1, true, true, Rest, Idle, Idle)
  }

  /**
   * With two waiters the guarantee fails: the first one to wake drains the shared counter, and the
   * other stays blocked although its frame is there and nobody owes a signal.
   */
  lemma SecondWaiterStranded()
    ensures Init(TwoWaiters(), 2)
    ensures var s := Run(TwoWaiters(), STRANDED);
            |s.threads| == 2 && Blocked(s, 1) && Due(s, 1) && !SignalOwed(s)
  {
    CounterRaised();
    var c := Run(TwoWaiters(), STRANDED[..11]);
    var d := Next(c, PollReturns(0));
    assert Run(TwoWaiters(), STRANDED[..12]) == d by { assert STRANDED[..12][..11] == STRANDED[..11]; }
    assert Run(TwoWaiters(), STRANDED) == Next(d, Drain(0)) by { assert STRANDED[..13] == STRANDED; }
  }

  lemma CounterRaised()
    ensures Run(TwoWaiters(), STRANDED[..11])
            == TwoWaiters().(threads := [Waiter(Polling, 1), Waiter(Polling, 1)], waiters := 2, available := 1, counter := 1)
  {
    SecondWaiterBlocks();
    var a := Next(Run(TwoWaiters(), STRANDED[..8]), Publish(1));
    var b := Next(a, LoadWaiters);
    assert Run(TwoWaiters(), STRANDED[..9]) == a by { assert STRANDED[..9][..8] == STRANDED[..8]; }
    assert Run(TwoWaiters(), STRANDED[..10]) == b by { assert STRANDED[..10][..9] == STRANDED[..9]; }
    assert STRANDED[..11][..10] == STRANDED[..10];
  }

  lemma FirstWaiterBlocks()
    ensures Run(TwoWaiters(), STRANDED[..4]) == TwoWaiters().(threads := [Waiter(Polling, 1), Waiter(Out, 0)], waiters := 1)
  {
    var a := Next(TwoWaiters(), Register(0, 1));
    var b := Next(a, ReadActive(0));
    var c := Next(b, ReadCursors(0));
    assert Run(TwoWaiters(), STRANDED[..1]) == a by { assert STRANDED[..1][..0] == []; }
    assert Run(TwoWaiters(), STRANDED[..2]) == b by { assert STRANDED[..2][..1] == STRANDED[..1]; }
    assert Run(TwoWaiters(), STRANDED[..3]) == c by { assert STRANDED[..3][..2] == STRANDED[..2]; }
    assert STRANDED[..4][..3] == STRANDED[..3];
  }

  lemma SecondWaiterBlocks()
    ensures Run(TwoWaiters(), STRANDED[..8]) == TwoWaiters().(threads := [Waiter(Polling, 1), Waiter(Polling, 1)], waiters := 2)
  {
    FirstWaiterBlocks();
    var a := Next(Run(TwoWaiters(), STRANDED[..4]), Register(1, 1));
    var b := Next(a, ReadActive(1));
    var c := Next(b, ReadCursors(1));
    assert Run(TwoWaiters(), STRANDED[..5]) == a by { assert STRANDED[..5][..4] == STRANDED[..4]; }
    assert Run(TwoWaiters(), STRANDED[..6]) == b by { assert STRANDED[..6][..5] == STRANDED[..5]; }
    assert Run(TwoWaiters(), STRANDED[..7]) == c by { assert STRANDED[..7][..6] == STRANDED[..6]; }
    assert STRANDED[..8][..7] == STRANDED[..7];
  }

  // ---- Exactly one waiter per channel ---------------------------------------------------------

  /** Every waiter blocked while what it waits for has come about is owed a signal. */
  predicate Kept(s: State) {
    forall i :: 0 <= i < |s.threads| && Blocked(s, i) && Due(s, i) ==> SignalOwed(s)
  }

  lemma {:induction false} RunConcat(s: State, a: seq<Step>, b: seq<Step>)
    ensures Run(s, a + b) == Run(Run(s, a), b)
    decreases |b|
  {
    if b == [] {
      assert a + b == a;
    } else {
      var n := |b| - 1;
      RunConcat(s, a, b[..n]);
      var whole := a + b;
      assert whole[..|whole| - 1] == a + b[..n] && whole[|whole| - 1] == b[n];
    }
  }

  lemma RunTwo(s: State, x: Step, y: Step)
    ensures Run(s, [x, y]) == Next(Next(s, x), y)
  {
    assert [x, y][..1] == [x] && [x][..0] == [];
    assert Run(s, [x]) == Next(s, x);
  }

  lemma Enters(s: State, i: nat, frames: nat)
    requires At(s, i, Out)
    ensures Run(s, [Register(i, frames), ReadActive(i)])
            == s.(threads := s.threads[i := Waiter(if s.active then SawActive else Short, frames)], waiters := s.waiters + 1)
  {
    RunTwo(s, Register(i, frames), ReadActive(i));
  }

  lemma Blocks(s: State, i: nat)
    requires (At(s, i, SawActive) || At(s, i, Short)) && s.threads[i].frames > s.limit && s.streaming
    ensures Run(s, [ReadCursors(i), ReadStreaming(i)]) == Move(s, i, Polling)
  {
    RunTwo(s, ReadCursors(i), ReadStreaming(i));
  }

  lemma Parks(s: State, i: nat)
    requires At(s, i, Out) && s.streaming
    ensures Run(s, Wait(i, s.limit + 1))
            == s.(threads := s.threads[i := Waiter(Polling, s.limit + 1)], waiters := s.waiters + 1)
  {
    RunConcat(s, [Register(i, s.limit + 1), ReadActive(i)], [ReadCursors(i), ReadStreaming(i)]);
    Enters(s, i, s.limit + 1);
    Blocks(s.(threads := s.threads[i := Waiter(if s.active then SawActive else Short, s.limit + 1)],
              waiters := s.waiters + 1), i);
  }

  lemma StopSignals(s: State)
    requires s.stopping.Idle?
    ensures Run(s, [Stop, StopStreaming] + [StopSignal]) == s.(active := false, streaming := false, counter := s.counter + 1)
  {
    RunConcat(s, [Stop, StopStreaming], [StopSignal]);
    RunTwo(s, Stop, StopStreaming);
    RunOne(Next(Next(s, Stop), StopStreaming), StopSignal);
  }

  /** The first waiter to wake takes the event with it. */
  lemma WakeDrains(s: State)
    requires At(s, 0, Polling) && s.counter > 0
    ensures Run(s, [PollReturns(0), Drain(0)]) == s.(threads := s.threads[0 := s.threads[0].(stage := Registered)], counter := 0)
  {
    RunTwo(s, PollReturns(0), Drain(0));
  }

  lemma RunOne(s: State, step: Step)
    ensures Run(s, [step]) == Next(s, step)
  {
    assert [step][..0] == [];
  }

  const ENDING: seq<Step> := [Stop, StopStreaming] + [StopSignal] + [PollReturns(0), Drain(0)]

  /** With two waiters blocked, a stop wakes the first, which drains the event the second needed. */
  lemma EndStrands(s: State)
    requires |s.threads| >= 2 && At(s, 0, Polling) && At(s, 1, Polling)
    requires s.gate.Rest? && s.failing.Idle? && s.stopping.Idle?
    ensures !Kept(Run(s, ENDING))
  {
    var u := s.(active := false, streaming := false, counter := s.counter + 1);
    StopSignals(s);
    RunConcat(s, [Stop, StopStreaming] + [StopSignal], [PollReturns(0), Drain(0)]);
    WakeDrains(u);
    var t := u.(threads := s.threads[0 := s.threads[0].(stage := Registered)], counter := 0);
    assert Blocked(t, 1) && Due(t, 1) && !SignalOwed(t);
  }

  lemma BothPark(start: State)
    requires |start.threads| >= 2 && At(start, 0, Out) && At(start, 1, Out) && start.streaming
    ensures var t := Run(start, Wait(0, start.limit + 1) + Wait(1, start.limit + 1));
            && |t.threads| == |start.threads| && At(t, 0, Polling) && At(t, 1, Polling)
            && t.gate == start.gate && t.failing == start.failing && t.stopping == start.stopping
  {
    RunConcat(start, Wait(0, start.limit + 1), Wait(1, start.limit + 1));
    Parks(start, 0);
    Parks(start.(threads := start.threads[0 := Waiter(Polling, start.limit + 1)], waiters := start.waiters + 1), 1);
  }

  lemma TwoWaitersStranded(start: State, threads: nat)
    requires threads >= 2 && Init(start, threads) && start.streaming
    ensures exists steps :: !Kept(Run(start, steps))
  {
    var parked := Wait(0, start.limit + 1) + Wait(1, start.limit + 1);
    BothPark(start);
    RunConcat(start, parked, ENDING);
    EndStrands(Run(start, parked));
    assert !Kept(Run(start, parked + ENDING));
  }

  /** Without streaming nobody blocks in the first place. */
  predicate NobodyPolls(s: State) {
    !s.streaming && forall i :: 0 <= i < |s.threads| ==> !s.threads[i].stage.Polling?
  }

  lemma {:induction false} NeverPolls(start: State, steps: seq<Step>)
    requires NobodyPolls(start)
    ensures NobodyPolls(Run(start, steps))
  {
    if steps != [] {
      NeverPolls(start, steps[..|steps| - 1]);
    }
  }

  lemma StepThreads(s: State, step: Step)
    ensures |Next(s, step).threads| == |s.threads|
  {
  }

  lemma {:induction false} ThreadsFixed(start: State, steps: seq<Step>)
    ensures |Run(start, steps).threads| == |start.threads|
  {
    if steps != [] {
      ThreadsFixed(start, steps[..|steps| - 1]);
      StepThreads(Run(start, steps[..|steps| - 1]), steps[|steps| - 1]);
    }
  }

  lemma NobodyStranded(s: State)
    requires NobodyPolls(s) || |s.threads| == 0
    ensures Kept(s)
  {
    assert forall i :: 0 <= i < |s.threads| ==> !Blocked(s, i);
  }

  lemma OnlyWaiterKept(s: State)
    requires |s.threads| == 1 && (Blocked(s, 0) && Due(s, 0) ==> SignalOwed(s))
    ensures Kept(s)
  {
  }

  lemma FewWaitersKept(start: State, threads: nat, steps: seq<Step>)
    requires Init(start, threads) && (threads <= 1 || !start.streaming)
    ensures Kept(Run(start, steps))
  {
    if !start.streaming {
      NeverPolls(start, steps);
      NobodyStranded(Run(start, steps));
    } else if threads == 1 {
      NoLostWakeup(start, steps);
      OnlyWaiterKept(Run(start, steps));
    } else {
      ThreadsFixed(start, steps);
      NobodyStranded(Run(start, steps));
    }
  }

  /**
   * Exactly when no wakeup is lost, over every interleaving and every waiter: at most one thread waits
   * on the channel, or streaming had already ended.
   */
  lemma NoneLostExactlyWhen(start: State, threads: nat)
    requires Init(start, threads)
    ensures (forall steps: seq<Step> :: Kept(Run(start, steps))) <==> threads <= 1 || !start.streaming
  {
    if threads <= 1 || !start.streaming {
      forall steps: seq<Step>
        ensures Kept(Run(start, steps))
      {
        FewWaitersKept(start, threads, steps);
      }
    } else {
      TwoWaitersStranded(start, threads);
    }
  }
}
