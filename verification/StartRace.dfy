/**
 * Completions inside a start. `submitIsoPump` hands a transfer to the bus, then reads its descriptors, then adds
 * their frames to `queuedOutFrames_`, one step after the other, while the event thread already serves completions:
 * `onIso` subtracts with saturation, rewrites the descriptors, resubmits and adds. The runs of the transport
 * start in one step; here is what the finer steps do to the queue counter and the credit ledger.
 */
module StartRace {
  import opened Core
  import opened Transport

  /** `submitIsoPump` between submissions, or with transfer `t` on its way; `owed` is what `t` carried when it was submitted. */
  datatype Control =
    | Next(t: nat)
    | Submitted(t: nat, owed: nat)
    | Loaded(t: nat, owed: nat, frames: nat)   // its descriptors read, not yet added

  datatype Race = Race(
    frames: seq<nat>,      // frames in each transfer's descriptors
    onBus: seq<bool>,
    queued: nat,           // queuedOutFrames_
    control: Control,
    credit: int,           // playbackCredit_
    ring: nat)             // frames in the ring

  datatype Answer = Leaves | Resubmits(frames: nat)

  datatype Step =
    | Submit | Load | Add                       // submitIsoPump
    | Complete(t: nat, answer: Answer)          // onIso: deferred or retired, or filled anew and resubmitted
    | Relaunch(t: nat, frames: nat)             // submitPendingImplicitTransfers
    | Publish(frames: nat)                      // a charged publish

  predicate Sane(s: Race) {
    && |s.frames| == |s.onBus|
    && (s.control.Next? ==> s.control.t <= |s.frames|)
    && (!s.control.Next? ==> s.control.t < |s.frames|)
    && forall t :: Reached(s) <= t < |s.onBus| ==> !s.onBus[t]
  }

  /** Transfers submitted at least once. */
  function Reached(s: Race): nat {
    if s.control.Next? then s.control.t else s.control.t + 1
  }

  predicate Enabled(s: Race, step: Step)
    requires Sane(s)
  {
    match step
    case Submit => s.control.Next? && s.control.t < |s.frames|
    case Load => s.control.Submitted?
    case Add => s.control.Loaded?
    case Complete(t, answer) => t < |s.onBus| && s.onBus[t] && (answer.Resubmits? ==> answer.frames <= s.ring)
    case Relaunch(t, frames) => t < Reached(s) && !s.onBus[t] && frames <= s.ring
    case Publish(_) => true
  }

  function Completed(s: Race, t: nat, answer: Answer): Race
    requires Sane(s) && t < |s.frames| && (answer.Resubmits? ==> answer.frames <= s.ring)
  {
    var left := SaturatingSub(s.queued, s.frames[t]);
    var paid := s.credit + s.frames[t];
    match answer
    case Leaves => s.(onBus := s.onBus[t := false], queued := left, credit := paid)
    case Resubmits(g) => s.(frames := s.frames[t := g], queued := left + g, credit := paid, ring := s.ring - g)
  }

  /** A step that cannot be taken leaves everything as it is. */
  function After(s: Race, step: Step): Race {
    if !Sane(s) || !Enabled(s, step) then s
    else
      match step
      case Submit => s.(onBus := s.onBus[s.control.t := true], control := Submitted(s.control.t, s.frames[s.control.t]))
      case Load => s.(control := Loaded(s.control.t, s.control.owed, s.frames[s.control.t]))
      case Add => s.(queued := s.queued + s.control.frames, control := Next(s.control.t + 1))
      case Complete(t, answer) => Completed(s, t, answer)
      case Relaunch(t, g) =>
        s.(frames := s.frames[t := g], onBus := s.onBus[t := true], queued := s.queued + g, ring := s.ring - g)
      case Publish(n) => s.(credit := s.credit - n, ring := s.ring + n)
  }

  function Run(s: Race, steps: seq<Step>): Race
    decreases |steps|
  {
    if steps == [] then s else Run(After(s, steps[0]), steps[1..])
  }

  lemma {:induction false} RunSane(s: Race, steps: seq<Step>)
    requires Sane(s)
    ensures Sane(Run(s, steps)) && |Run(s, steps).frames| == |s.frames|
    decreases |steps|
  {
    if steps != [] {
      RunSane(After(s, steps[0]), steps[1..]);
    }
  }

  // ---- What the counter should say ----------------------------------------------------------

  function Carried(frames: seq<nat>, onBus: seq<bool>): nat
    requires |frames| == |onBus|
  {
    if frames == [] then 0
    else
      var n := |frames| - 1;
      Carried(frames[..n], onBus[..n]) + (if onBus[n] then frames[n] else 0)
  }

  lemma {:induction false} CarriedUpdate(frames: seq<nat>, onBus: seq<bool>, t: nat, f: nat, b: bool)
    requires |frames| == |onBus| && t < |frames|
    ensures Carried(frames[t := f], onBus[t := b]) + (if onBus[t] then frames[t] else 0)
            == Carried(frames, onBus) + (if b then f else 0)
    decreases |frames|
  {
    var n := |frames| - 1;
    if t == n {
      assert frames[t := f][..n] == frames[..n] && onBus[t := b][..n] == onBus[..n];
    } else {
      CarriedUpdate(frames[..n], onBus[..n], t, f, b);
      assert frames[t := f][..n] == frames[..n][t := f] && onBus[t := b][..n] == onBus[..n][t := b];
    }
  }

  function Owed(c: Control): nat {
    if c.Next? then 0 else c.owed
  }

  /** How far the counter, with what is still to be added, is from the frames on the bus. */
  function Excess(s: Race): int
    requires Sane(s)
  {
    s.queued + Owed(s.control) - Carried(s.frames, s.onBus)
  }

  /** What one step puts the counter off by: a saturated subtraction, or an addition of rewritten descriptors. */
  function Slip(s: Race, step: Step): int
    requires Sane(s)
  {
    if !Enabled(s, step) then 0
    else
      match step
      case Complete(t, _) => if s.frames[t] > s.queued then s.frames[t] - s.queued else 0
      case Add => s.control.frames - s.control.owed
      case _ => 0
  }

  lemma CompletedCarries(s: Race, t: nat, answer: Answer)
    requires Sane(s) && t < |s.frames| && s.onBus[t] && (answer.Resubmits? ==> answer.frames <= s.ring)
    ensures var u := Completed(s, t, answer);
            && |u.frames| == |u.onBus| == |s.frames|
            && Carried(u.frames, u.onBus) + s.frames[t]
               == Carried(s.frames, s.onBus) + (if answer.Resubmits? then answer.frames else 0)
  {
    if answer.Leaves? {
      assert s.frames[t := s.frames[t]] == s.frames;
      CarriedUpdate(s.frames, s.onBus, t, s.frames[t], false);
    } else {
      assert s.onBus[t := true] == s.onBus;
      CarriedUpdate(s.frames, s.onBus, t, answer.frames, true);
    }
  }

  lemma StepSlips(s: Race, step: Step)
    requires Sane(s)
    ensures Sane(After(s, step)) && Excess(After(s, step)) == Excess(s) + Slip(s, step)
  {
    if Enabled(s, step) {
      match step {
        case Submit =>
          assert s.frames[s.control.t := s.frames[s.control.t]] == s.frames;
          CarriedUpdate(s.frames, s.onBus, s.control.t, s.frames[s.control.t], true);
        case Complete(t, answer) => CompletedCarries(s, t, answer);
        case Relaunch(t, g) => CarriedUpdate(s.frames, s.onBus, t, g, true);
        case _ =>
      }
    }
  }

  function TotalSlip(s: Race, steps: seq<Step>): int
    requires Sane(s)
    decreases |steps|
  {
    if steps == [] then 0
    else
      StepSlips(s, steps[0]);
      Slip(s, steps[0]) + TotalSlip(After(s, steps[0]), steps[1..])
  }

  /** The counter is off by exactly what its steps slipped, however they interleave. */
  lemma {:induction false} RunSlips(s: Race, steps: seq<Step>)
    requires Sane(s)
    ensures Sane(Run(s, steps)) && Excess(Run(s, steps)) == Excess(s) + TotalSlip(s, steps)
    decreases |steps|
  {
    if steps != [] {
      StepSlips(s, steps[0]);
      RunSlips(After(s, steps[0]), steps[1..]);
    }
  }

  // ---- When it is exact ---------------------------------------------------------------------

  /** A completion finds its frames in the counter; an addition adds what was submitted. */
  predicate Fair(s: Race, step: Step)
    requires Sane(s)
  {
    Enabled(s, step) ==>
      match step
      case Complete(t, _) => s.frames[t] <= s.queued
      case Add => s.control.frames == s.control.owed
      case _ => true
  }

  predicate AllFair(s: Race, steps: seq<Step>)
    requires Sane(s)
    decreases |steps|
  {
    steps == [] || (StepSlips(s, steps[0]); Fair(s, steps[0]) && AllFair(After(s, steps[0]), steps[1..]))
  }

  /** Exact now and after every step. */
  predicate ExactThroughout(s: Race, steps: seq<Step>)
    requires Sane(s)
    decreases |steps|
  {
    Excess(s) == 0 && (steps == [] || (StepSlips(s, steps[0]); ExactThroughout(After(s, steps[0]), steps[1..])))
  }

  /** From an exact counter it stays exact exactly while no subtraction saturates and no rewritten descriptor is added. */
  lemma {:induction false} ExactExactlyWhen(s: Race, steps: seq<Step>)
    requires Sane(s) && Excess(s) == 0
    ensures ExactThroughout(s, steps) <==> AllFair(s, steps)
    decreases |steps|
  {
    if steps != [] {
      StepSlips(s, steps[0]);
      if Fair(s, steps[0]) {
        ExactExactlyWhen(After(s, steps[0]), steps[1..]);
      } else {
        assert Slip(s, steps[0]) != 0;
        OffNow(After(s, steps[0]), steps[1..]);
      }
    }
  }

  lemma OffNow(s: Race, steps: seq<Step>)
    requires Sane(s) && Excess(s) != 0
    ensures !ExactThroughout(s, steps)
  {
  }

  /** No completion reaches the transfer that is submitted and not yet counted. */
  predicate Spared(s: Race, step: Step) {
    step.Complete? && !s.control.Next? ==> step.t != s.control.t
  }

  predicate AllSpared(s: Race, steps: seq<Step>)
    decreases |steps|
  {
    steps == [] || (Spared(s, steps[0]) && AllSpared(After(s, steps[0]), steps[1..]))
  }

  /** The uncounted transfer is still on the bus as it was submitted. */
  predicate Intact(s: Race)
    requires Sane(s)
  {
    && (!s.control.Next? ==> s.onBus[s.control.t] && s.frames[s.control.t] == s.control.owed)
    && (s.control.Loaded? ==> s.control.frames == s.control.owed)
  }

  lemma {:induction false} CarriesOne(frames: seq<nat>, onBus: seq<bool>, t: nat)
    requires |frames| == |onBus| && t < |frames| && onBus[t]
    ensures Carried(frames, onBus) >= frames[t]
    decreases |frames|
  {
    var n := |frames| - 1;
    if t < n {
      CarriesOne(frames[..n], onBus[..n], t);
    }
  }

  lemma {:induction false} CarriesBoth(frames: seq<nat>, onBus: seq<bool>, t: nat, u: nat)
    requires |frames| == |onBus| && t < |frames| && u < |frames| && t != u && onBus[t] && onBus[u]
    ensures Carried(frames, onBus) >= frames[t] + frames[u]
    decreases |frames|
  {
    var n := |frames| - 1;
    if t == n {
      CarriesOne(frames[..n], onBus[..n], u);
    } else if u == n {
      CarriesOne(frames[..n], onBus[..n], t);
    } else {
      CarriesBoth(frames[..n], onBus[..n], t, u);
    }
  }

  lemma SparedIsFair(s: Race, step: Step)
    requires Sane(s) && Excess(s) == 0 && Intact(s) && Spared(s, step)
    ensures Fair(s, step) && Sane(After(s, step)) && Intact(After(s, step))
  {
    StepSlips(s, step);
    if Enabled(s, step) && step.Complete? {
      if s.control.Next? {
        CarriesOne(s.frames, s.onBus, step.t);
      } else {
        CarriesBoth(s.frames, s.onBus, step.t, s.control.t);
      }
    }
  }

  /** So a start is as good as one step whenever every completion is of a transfer already counted. */
  lemma {:induction false} SparedStaysExact(s: Race, steps: seq<Step>)
    requires Sane(s) && Excess(s) == 0 && Intact(s) && AllSpared(s, steps)
    ensures ExactThroughout(s, steps)
    decreases |steps|
  {
    if steps != [] {
      StepSlips(s, steps[0]);
      SparedIsFair(s, steps[0]);
      SparedStaysExact(After(s, steps[0]), steps[1..]);
    }
  }

  // ---- When it is not -----------------------------------------------------------------------

  /** One completion in the window of transfer `t`, before its descriptors are read or after. */
  function Window(t: nat, answer: Answer, loaded: bool): seq<Step> {
    if loaded then [Submit, Load, Complete(t, answer), Add] else [Submit, Complete(t, answer), Load, Add]
  }

  lemma RunFour(s: Race, w: Step, x: Step, y: Step, z: Step)
    ensures Run(s, [w, x, y, z]) == After(After(After(After(s, w), x), y), z)
  {
    assert [w, x, y, z][1..] == [x, y, z] && [x, y, z][1..] == [y, z] && [y, z][1..] == [z] && [z][1..] == [];
    var b := After(After(s, w), x);
    assert Run(b, [y, z]) == Run(After(b, y), [z]) == After(After(b, y), z);
  }

  lemma ReadAfterReturn(s: Race, t: nat, answer: Answer)
    requires Sane(s) && s.control == Next(t) && t < |s.frames|
    requires answer.Resubmits? ==> answer.frames <= s.ring
    ensures var u := Run(s, [Submit, Complete(t, answer), Load, Add]); var f := s.frames[t];
            && Sane(u) && u.control == Next(t + 1)
            && Excess(u) == Excess(s) + Max(0, f - s.queued) + (if answer.Resubmits? then answer.frames - f else 0)
  {
    RunFour(s, Submit, Complete(t, answer), Load, Add);
    var a := After(s, Submit);
    var b := After(a, Complete(t, answer));
    var c := After(b, Load);
    StepSlips(s, Submit);
    StepSlips(a, Complete(t, answer));
    StepSlips(b, Load);
    StepSlips(c, Add);
  }

  lemma ReadBeforeReturn(s: Race, t: nat, answer: Answer)
    requires Sane(s) && s.control == Next(t) && t < |s.frames|
    requires answer.Resubmits? ==> answer.frames <= s.ring
    ensures var u := Run(s, [Submit, Load, Complete(t, answer), Add]); var f := s.frames[t];
            Sane(u) && u.control == Next(t + 1) && Excess(u) == Excess(s) + Max(0, f - s.queued)
  {
    RunFour(s, Submit, Load, Complete(t, answer), Add);
    var a := After(s, Submit);
    var b := After(a, Load);
    var c := After(b, Complete(t, answer));
    StepSlips(s, Submit);
    StepSlips(a, Load);
    StepSlips(b, Complete(t, answer));
    StepSlips(c, Add);
  }

  /**
   * What it costs: the shortfall of the subtraction, and, if the transfer was resubmitted before its descriptors
   * were read, the difference the rewritten ones make.
   */
  lemma WindowExcess(s: Race, t: nat, answer: Answer, loaded: bool)
    requires Sane(s) && s.control == Next(t) && t < |s.frames|
    requires answer.Resubmits? ==> answer.frames <= s.ring
    ensures var u := Run(s, Window(t, answer, loaded)); var f := s.frames[t];
            && Sane(u) && u.control == Next(t + 1)
            && Excess(u) == Excess(s) + Max(0, f - s.queued) + (if answer.Resubmits? && !loaded then answer.frames - f else 0)
  {
    if loaded {
      ReadBeforeReturn(s, t, answer);
    } else {
      ReadAfterReturn(s, t, answer);
    }
  }

  lemma WindowLeaves(s: Race, t: nat)
    requires Sane(s) && s.control == Next(t) && t < |s.frames|
    ensures var f := s.frames[t];
            Run(s, Window(t, Leaves, false))
            == s.(queued := SaturatingSub(s.queued, f) + f, credit := s.credit + f, control := Next(t + 1))
  {
    RunFour(s, Submit, Complete(t, Leaves), Load, Add);
    var a := After(s, Submit);
    var b := After(a, Complete(t, Leaves));
    assert b == s.(queued := SaturatingSub(s.queued, s.frames[t]), credit := s.credit + s.frames[t],
                   control := Submitted(t, s.frames[t])) by {
      assert s.onBus[t := true][t := false] == s.onBus;
    }
  }

  /** Nothing on the bus and the counter says otherwise: the first transfer comes back before it is counted. */
  lemma CountedAfterItLeft(s: Race, t: nat)
    requires Sane(s) && s.control == Next(t) && t < |s.frames| && s.queued == 0 && Carried(s.frames, s.onBus) == 0
    ensures var u := Run(s, Window(t, Leaves, false)); Sane(u) && u.queued == s.frames[t] && Carried(u.frames, u.onBus) == 0
  {
    WindowLeaves(s, t);
  }

  /** Past the start nothing is added any more, so an excess never goes away. */
  lemma {:induction false} ExcessStays(s: Race, steps: seq<Step>)
    requires Sane(s) && s.control == Next(|s.frames|)
    ensures var u := Run(s, steps);
            && Sane(u) && u.control == Next(|u.frames|) && Excess(u) >= Excess(s) && u.queued >= Excess(s)
    decreases |steps|
  {
    if steps != [] {
      StepSlips(s, steps[0]);
      ExcessStays(After(s, steps[0]), steps[1..]);
    }
  }

  // ---- The ledger ---------------------------------------------------------------------------

  /** Frames in the ring, on the bus or still to be submitted, and the credit left to commit more. */
  function Stock(s: Race): int
    requires Sane(s)
  {
    s.credit + s.ring + Carried(s.frames, s.onBus) + Sum(s.frames[Reached(s)..])
  }

  lemma SumFront(xs: seq<nat>)
    requires xs != []
    ensures Sum(xs) == xs[0] + Sum(xs[1..])
  {
    SumConcat([xs[0]], xs[1..]);
    assert [xs[0]] + xs[1..] == xs && [xs[0]][..0] == [];
  }

  /** What is still to be submitted shrinks by what is. */
  lemma UnsubmittedNext(s: Race, step: Step)
    requires Sane(s) && Sane(After(s, step))
    ensures Sum(After(s, step).frames[Reached(After(s, step))..])
            == Sum(s.frames[Reached(s)..]) - (if step.Submit? && Enabled(s, step) then s.frames[s.control.t] else 0)
  {
    if Enabled(s, step) {
      if step.Submit? {
        SumFront(s.frames[s.control.t..]);
        assert s.frames[s.control.t..][1..] == s.frames[s.control.t + 1..];
      } else {
        assert After(s, step).frames[Reached(s)..] == s.frames[Reached(s)..];
      }
    }
  }

  lemma StockKept(s: Race, step: Step)
    requires Sane(s)
    ensures Sane(After(s, step)) && Stock(After(s, step)) == Stock(s)
  {
    StepSlips(s, step);
    UnsubmittedNext(s, step);
  }

  lemma {:induction false} StockConserved(s: Race, steps: seq<Step>)
    requires Sane(s)
    ensures Sane(Run(s, steps)) && Stock(Run(s, steps)) == Stock(s)
    decreases |steps|
  {
    if steps != [] {
      StockKept(s, steps[0]);
      StockConserved(After(s, steps[0]), steps[1..]);
    }
  }

  /** Once every transfer is counted, credit, ring and the counter are off the stock by exactly the excess. */
  lemma CreditOffByExcess(s: Race, steps: seq<Step>)
    requires Sane(s) && Run(s, steps).control == Next(|s.frames|)
    ensures var u := Run(s, steps);
            Sane(u) && u.credit + u.ring + u.queued == Stock(s) + Excess(s) + TotalSlip(s, steps)
  {
    RunSane(s, steps);
    StockConserved(s, steps);
    RunSlips(s, steps);
  }

  // ---- The start no completion interrupts -----------------------------------------------------

  function Uninterrupted(n: nat): seq<Step> {
    if n == 0 then [] else [Submit, Load, Add] + Uninterrupted(n - 1)
  }

  function Counted(s: Race): Race {
    After(After(After(s, Submit), Load), Add)
  }

  lemma CountedOne(s: Race, u: Race)
    requires Sane(s) && s.control.Next? && s.control.t < |s.frames| && u == Counted(s)
    ensures Sane(u) && u.frames == s.frames && u.control == Next(s.control.t + 1)
    ensures u.queued == s.queued + s.frames[s.control.t]
  {
  }

  lemma RunCounted(s: Race, rest: seq<Step>)
    ensures Run(s, [Submit, Load, Add] + rest) == Run(Counted(s), rest)
  {
    var steps := [Submit, Load, Add] + rest;
    assert steps[1..] == [Load, Add] + rest && steps[1..][1..] == [Add] + rest && steps[1..][1..][1..] == rest;
    assert Run(After(s, Submit), steps[1..]) == Run(After(After(s, Submit), Load), steps[1..][1..]);
  }

  /** All of it adds what the transfers carry. */
  lemma {:induction false} UninterruptedCounts(s: Race, n: nat)
    requires Sane(s) && s.control.Next? && s.control.t + n == |s.frames|
    ensures var u := Run(s, Uninterrupted(n));
            u.control == Next(|s.frames|) && u.queued == s.queued + Sum(s.frames[s.control.t..])
    decreases n
  {
    if n > 0 {
      var t, u := s.control.t, Counted(s);
      RunCounted(s, Uninterrupted(n - 1));
      CountedOne(s, u);
      UninterruptedCounts(u, n - 1);
      SumFront(s.frames[t..]);
      assert s.frames[t..][1..] == s.frames[t + 1..];
    }
  }

  /** Frames each initial transfer carries. */
  function FilledFrames(fills: seq<Filled>, stride: nat): (frames: seq<nat>)
    requires stride > 0
    ensures |frames| == |fills| && forall t :: 0 <= t < |fills| ==> frames[t] == Frames(fills[t].lengths, stride)
  {
    seq(|fills|, t requires 0 <= t < |fills| => Frames(fills[t].lengths, stride))
  }

  lemma {:induction false} AcceptedQueued(b: Bus, st: Stream, fills: seq<Filled>, count: nat, accepted: nat, stride: nat)
    requires stride > 0 && count <= accepted && count <= |b.transfers| && count <= |fills|
    ensures SubmitInitial(b, st, fills, count, accepted, stride).0.queued == b.queued + Sum(FilledFrames(fills, stride)[..count])
  {
    if count > 0 {
      AcceptedQueued(b, st, fills, count - 1, accepted, stride);
      assert FilledFrames(fills, stride)[..count][..count - 1] == FilledFrames(fills, stride)[..count - 1];
    }
  }

  /** The one-step start of the transport is this machine's start that no completion interrupts. */
  lemma OneStepStart(s: State, credit: int, ring: nat)
    requires s.cfg.stride > 0
    ensures var n := |s.bus.transfers|;
            var frames := FilledFrames(InitialFills(s.stream.ring, s.bus.transfers, n, s.cfg.stride), s.cfg.stride);
            var race := Race(frames, seq(n, _ => false), s.bus.queued, Next(0), credit, ring);
            Run(race, Uninterrupted(n)).queued == SubmitPump(s, s.bus.feedbackPool, n).bus.queued
  {
    var n := |s.bus.transfers|;
    var fills := InitialFills(s.stream.ring, s.bus.transfers, n, s.cfg.stride);
    var frames := FilledFrames(fills, s.cfg.stride);
    assert frames[..n] == frames && frames[0..] == frames;
    UninterruptedCounts(Race(frames, seq(n, _ => false), s.bus.queued, Next(0), credit, ring), n);
    PumpQueued(s, fills, SubmitPump(s, s.bus.feedbackPool, n));
  }

  lemma PumpQueued(s: State, fills: seq<Filled>, u: State)
    requires s.cfg.stride > 0 && u == SubmitPump(s, s.bus.feedbackPool, |s.bus.transfers|)
    requires fills == InitialFills(s.stream.ring, s.bus.transfers, |s.bus.transfers|, s.cfg.stride)
    ensures u.bus.queued == s.bus.queued + Sum(FilledFrames(fills, s.cfg.stride)[..|fills|])
  {
    var n := |s.bus.transfers|;
    var b := s.bus.(feedback := s.bus.feedback + s.bus.feedbackPool, inflight := s.bus.inflight + s.bus.feedbackPool);
    AcceptedQueued(b, s.stream, fills, n, n, s.cfg.stride);
  }
}
