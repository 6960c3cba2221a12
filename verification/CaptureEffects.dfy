/**
 * What one capture completion does to playback, over every run: which layouts enter the FIFO, and which deferred
 * transfers leave theirs. Nothing here calls the step it is about.
 */
module CaptureEffects {
  import opened Core
  import opened Transport
  import opened TransportInvariants
  import opened TransportSafety
  import opened TransportRuns
  import opened CompletionEffects

  /** The callback goes past its guards: capture live, no stop, the transfer neither cancelled nor lost. */
  ghost predicate Serves(s: State, e: Event) {
    && e.Capture? && s.bus.captureInflight > 0 && s.flags.captureActive && !s.flags.stopRequested
    && e.status != Cancelled && e.status != NoDevice
  }

  // ---- Layouts ----------------------------------------------------------------------------------

  /** What an event logs: a capture-clocked callback past its guards logs its packets, nothing else logs anything. */
  ghost function Logged(s: State, e: Event): seq<nat> {
    if Serves(s, e) && s.cfg.implicit then e.packets else []
  }

  ghost function LoggedBy(run: seq<State>, events: seq<Event>, i: nat): seq<nat>
    requires |run| == |events| + 1 && i <= |events|
  {
    if i == 0 then [] else LoggedBy(run, events, i - 1) + Logged(run[i - 1], events[i - 1])
  }

  lemma {:induction false} LogAll(c: Clock, packets: seq<nat>)
    ensures var u := LogLayouts(c, packets);
            u.log == c.log + packets && u.plan == c.plan && u.base == c.base
  {
    if packets != [] {
      LogAll(c, packets[..|packets| - 1]);
      assert c.log + packets[..|packets| - 1] + [packets[|packets| - 1]] == c.log + packets;
    }
  }

  /** Entries left queued of `n` offered to an empty FIFO: the one that finds it full discards the 256 before it. */
  function Depth(n: nat): (r: nat)
    ensures r <= n && r <= FIFO_CAPACITY
  {
    if n == 0 then 0 else (n - 1) % FIFO_CAPACITY + 1
  }

  function Overflows(n: nat): nat {
    if n == 0 then 0 else (n - 1) / FIFO_CAPACITY
  }

  /** `depth` entries left and `overflows` full FIFOs discarded, of `n`. */
  predicate Split(n: nat, depth: nat, overflows: nat) {
    n == depth + FIFO_CAPACITY * overflows && depth <= FIFO_CAPACITY && (depth == 0 ==> n == 0)
  }

  lemma SplitIs(n: nat, depth: nat, overflows: nat)
    requires Split(n, depth, overflows)
    ensures depth == Depth(n) && overflows == Overflows(n)
  {
  }

  /** The log indices the reader is moved to, 256 apart. */
  ghost function Jumps(first: nat, n: nat): (r: seq<nat>)
    ensures |r| == n && forall k :: 0 <= k < n ==> r[k] == first + FIFO_CAPACITY * k
  {
    seq(n, k requires 0 <= k < n => first + FIFO_CAPACITY * k)
  }

  ghost predicate Suffix(c: Clock) {
    && |c.layouts| <= FIFO_CAPACITY && |c.layouts| <= |c.log| && c.layouts == c.log[|c.log| - |c.layouts|..]
  }

  /** The FIFO with `log` behind it, the newest `depth` entries queued after `overflows` more of them. */
  ghost function Newest(c: Clock, log: seq<nat>, depth: nat, overflows: nat): (u: Clock)
    requires |c.layouts| <= FIFO_CAPACITY && depth <= |log|
  {
    Clock(log[|log| - depth..], c.overruns + overflows, log,
          c.resyncs + Jumps(|c.log| + FIFO_CAPACITY - |c.layouts|, overflows), c.plan, c.base)
  }

  /** The FIFO once `packets` are in: the newest entries of the log, as many as the overflows left. */
  ghost function Behind(c: Clock, packets: seq<nat>): (u: Clock)
    requires Suffix(c)
    ensures Suffix(u) && u.plan == c.plan && u.base == c.base
  {
    var n := |c.layouts| + |packets|;
    Newest(c, c.log + packets, Depth(n), Overflows(n))
  }

  lemma LogsBehind(c: Clock, packets: seq<nat>)
    requires Suffix(c)
    ensures LogLayouts(c, packets) == Behind(c, packets)
  {
    var depth, overflows := LogsNewest(c, packets);
    NewestIsBehind(c, packets, depth, overflows);
  }

  lemma NewestIsBehind(c: Clock, packets: seq<nat>, depth: nat, overflows: nat)
    requires Suffix(c) && Split(|c.layouts| + |packets|, depth, overflows) && depth <= |c.log + packets|
    ensures Newest(c, c.log + packets, depth, overflows) == Behind(c, packets)
  {
    SplitIs(|c.layouts| + |packets|, depth, overflows);
  }

  lemma {:induction false} LogsNewest(c: Clock, packets: seq<nat>) returns (depth: nat, overflows: nat)
    requires Suffix(c)
    ensures Split(|c.layouts| + |packets|, depth, overflows) && depth <= |c.log + packets|
    ensures LogLayouts(c, packets) == Newest(c, c.log + packets, depth, overflows)
  {
    if packets == [] {
      depth, overflows := |c.layouts|, 0;
      assert c.log + [] == c.log && c.resyncs + Jumps(|c.log| + FIFO_CAPACITY - |c.layouts|, 0) == c.resyncs;
    } else {
      var n := |packets| - 1;
      depth, overflows := LogsNewest(c, packets[..n]);
      assert c.log + packets[..n] + [packets[n]] == c.log + packets;
      OneNewest(c, c.log + packets[..n], depth, overflows, packets[n]);
      depth, overflows := if depth == FIFO_CAPACITY then 1 else depth + 1, if depth == FIFO_CAPACITY then overflows + 1 else overflows;
    }
  }

  lemma OneNewest(c: Clock, log: seq<nat>, depth: nat, overflows: nat, frames: nat)
    requires |c.layouts| <= FIFO_CAPACITY && depth <= FIFO_CAPACITY && depth <= |log|
    requires depth == FIFO_CAPACITY ==> |log| == |c.log| + FIFO_CAPACITY - |c.layouts| + FIFO_CAPACITY * overflows
    ensures LogLayout(Newest(c, log, depth, overflows), frames)
            == if depth == FIFO_CAPACITY then Newest(c, log + [frames], 1, overflows + 1)
               else Newest(c, log + [frames], depth + 1, overflows)
  {
    var first := |c.log| + FIFO_CAPACITY - |c.layouts|;
    if depth == FIFO_CAPACITY {
      assert c.resyncs + Jumps(first, overflows) + [|log|] == c.resyncs + Jumps(first, overflows + 1);
      assert (log + [frames])[|log|..] == [frames];
    } else {
      assert (log + [frames])[|log| + 1 - (depth + 1)..] == log[|log| - depth..] + [frames];
    }
  }

  lemma {:induction false} ServedLogs(s: State, oks: seq<bool>)
    requires WellFormed(s)
    ensures SubmitPending(s, oks).clock.log == s.clock.log
    decreases |s.bus.pending|
  {
    if s.bus.pending != [] && CanPrepare(s) && (oks == [] || oks[0]) {
      var u := LaunchImplicit(s, s.bus.pending[0], true);
      ServedLogs(u.(bus := Dequeue(u.bus)), Rest(oks));
    }
  }

  lemma CaptureLogs(s: State, e: Event)
    requires WellFormed(s) && e.Capture? && Enabled(s, e)
    ensures Apply(s, e).clock.log == s.clock.log + Logged(s, e)
  {
    if Serves(s, e) {
      var logged := if s.cfg.implicit then s.(clock := LogLayouts(s.clock, e.packets)) else s;
      LogAll(s.clock, e.packets);
      ServedLogs(logged, e.oks);
      KeptByTail(SubmitPending(logged, e.oks), e.ok);
    }
  }

  lemma KeptByTail(s: State, ok: bool)
    ensures ResubmitCapture(s, ok).clock == s.clock
  {
  }

  lemma StepLogs(s: State, e: Event)
    requires Inv(s)
    ensures Apply(s, e).clock.log == s.clock.log + Logged(s, e)
  {
    if e.Capture? && Enabled(s, e) {
      CaptureLogs(s, e);
    } else {
      OthersLogNothing(s, e);
    }
  }

  lemma OthersLogNothing(s: State, e: Event)
    requires Inv(s) && !(e.Capture? && Enabled(s, e))
    ensures Apply(s, e).clock.log == s.clock.log && Logged(s, e) == []
  {
    if e.Iso? {
      if Enabled(s, e) {
        IsoLogsNothing(Retired(s, e.t, s.flags.started), e.t, e.ok, e.plan);
      }
    } else if e.Feedback? || e.Start? {
      PumpLogsNothing(s, e);
    }
  }

  lemma PumpLogsNothing(s: State, e: Event)
    requires e.Feedback? || e.Start?
    ensures Apply(s, e).clock.log == s.clock.log && Logged(s, e) == []
  {
  }

  lemma IsoLogsNothing(s: State, t: nat, ok: bool, plan: seq<nat>)
    requires WellFormed(s) && t < |s.bus.transfers|
    ensures Resubmit(s, t, ok, plan).clock.log == s.clock.log
  {
  }

  lemma EventLogs(run: seq<State>, events: seq<Event>, i: nat)
    requires IsRun(run, events) && i < |events|
    ensures run[i + 1].clock.log == run[i].clock.log + Logged(run[i], events[i])
  {
    RunHolds(run, events, i);
    StepLogs(run[i], events[i]);
  }

  lemma {:induction false} LogChain(run: seq<State>, events: seq<Event>, i: nat)
    requires |run| == |events| + 1 && i < |run|
    requires forall k :: 0 <= k < |events| ==> run[k + 1].clock.log == run[k].clock.log + Logged(run[k], events[k])
    ensures run[i].clock.log == run[0].clock.log + LoggedBy(run, events, i)
  {
    if i > 0 {
      LogChain(run, events, i - 1);
      assert run[i - 1 + 1].clock.log == run[i - 1].clock.log + Logged(run[i - 1], events[i - 1]);
    }
  }

  /** Over every run the log is what it started with and every capture packet since, in order: none lost, none made up. */
  lemma LogIsCapture(run: seq<State>, events: seq<Event>, i: nat)
    requires IsRun(run, events) && i < |run|
    ensures run[i].clock.log == run[0].clock.log + LoggedBy(run, events, i)
  {
    forall k | 0 <= k < |events|
      ensures run[k + 1].clock.log == run[k].clock.log + Logged(run[k], events[k])
    {
      EventLogs(run, events, k);
    }
    LogChain(run, events, i);
  }

  // ---- Serving the deferral FIFO ----------------------------------------------------------------

  /** The transfer is on the bus with `frames` frames in its packets. */
  ghost predicate OnBus(ts: seq<Transfer>, t: nat, frames: seq<nat>, stride: nat) {
    t < |ts| && ts[t].place.InFlight? && InBytes(ts[t].lengths, frames, stride)
  }

  /** The transfers, in order, are on the bus and carry the next `packets` of these each. */
  ghost predicate Carry(ts: seq<Transfer>, order: seq<nat>, frames: seq<nat>, packets: nat, stride: nat)
    decreases |order|
  {
    if order == [] then frames == []
    else
      && |frames| >= packets && OnBus(ts, order[|order| - 1], frames[|frames| - packets..], stride)
      && Carry(ts, order[..|order| - 1], frames[..|frames| - packets], packets, stride)
  }

  /** Layouts taken between two states. */
  ghost function TakenFrames(s: State, u: State): seq<nat>
    requires |u.clock.layouts| <= |s.clock.layouts|
  {
    Wanted(s.clock, |s.clock.layouts| - |u.clock.layouts|, s.cfg.maxFrames)
  }

  /** Deferred transfers that left their FIFO between two states. */
  ghost function Gone(s: State, u: State): seq<nat>
    requires |u.bus.pending| <= |s.bus.pending|
  {
    s.bus.pending[..|s.bus.pending| - |u.bus.pending|]
  }

  ghost predicate BusServed(b: Bus, u: Bus, gone: seq<nat>, frames: seq<nat>, packets: nat, stride: nat) {
    && gone <= b.pending && |u.transfers| == |b.transfers|
    && u == b.(transfers := u.transfers, pending := b.pending[|gone|..],
               inflight := b.inflight + |gone|, queued := b.queued + Sum(frames))
    && Carry(u.transfers, gone, frames, packets, stride)
    && forall t :: 0 <= t < |b.transfers| && t !in gone ==> u.transfers[t] == b.transfers[t]
  }

  /** Order and starvation as `gone` and their frames leave them, and the rest of the state alone. */
  ghost predicate Beside(s: State, u: State, gone: seq<nat>, frames: nat) {
    && u.order == Order(s.order.completions, s.order.resubmits + gone, s.order.dropped)
    && u.runway == s.runway.(latch := s.runway.latch && frames == 0, loaded := u.runway.loaded)
    && u == s.(bus := u.bus, stream := u.stream, clock := u.clock, order := u.order, runway := u.runway)
  }

  /** The transfers `gone` went out with `frames`, and nothing else was touched. */
  ghost predicate Took(s: State, u: State, gone: seq<nat>, frames: seq<nat>) {
    && BusServed(s.bus, u.bus, gone, frames, s.cfg.packets, s.cfg.stride)
    && Moved(s.stream, u.stream, Sum(frames) * s.cfg.stride, true)
    && Used(s.clock, u.clock, frames)
    && Beside(s, u, gone, Sum(frames))
  }

  /**
   * The front of the deferral FIFO went out in order, with the oldest layouts and the bytes they ask for from the front
   * of the ring.
   */
  ghost predicate WentOut(s: State, u: State) {
    && |u.bus.pending| <= |s.bus.pending| && |u.clock.layouts| <= |s.clock.layouts|
    && Took(s, u, Gone(s, u), TakenFrames(s, u))
  }

  /** The head of the deferral FIFO, prepared and refused: it stays at the head, its PCM is lost, the transport failed. */
  ghost predicate Refused(s: State, u: State) {
    && Ready(s) && s.bus.pending != [] && s.bus.pending[0] < |s.bus.transfers|
    && var t, frames := s.bus.pending[0], Wanted(s.clock, s.cfg.packets, s.cfg.maxFrames);
    && t < |u.bus.transfers| && InBytes(u.bus.transfers[t].lengths, frames, s.cfg.stride)
    && u.bus == s.bus.(transfers := s.bus.transfers[t := Transfer(s.bus.transfers[t].place, u.bus.transfers[t].lengths)])
    && Moved(s.stream, u.stream, Sum(frames) * s.cfg.stride, false)
    && Used(s.clock, u.clock, frames)
    && u == s.(bus := u.bus, stream := u.stream, clock := u.clock, flags := Failed(s.flags))
  }

  // ---- One deferred transfer --------------------------------------------------------------------

  /** One transfer from the head of the FIFO. */
  ghost predicate HeadOut(s: State, u: State) {
    && s.bus.pending != [] && s.bus.pending[0] < |s.bus.transfers| && Ready(s)
    && var t, frames := s.bus.pending[0], Wanted(s.clock, s.cfg.packets, s.cfg.maxFrames);
    && t < |u.bus.transfers| && InBytes(u.bus.transfers[t].lengths, frames, s.cfg.stride)
    && u.bus == s.bus.(transfers := s.bus.transfers[t := Transfer(InFlight, u.bus.transfers[t].lengths)],
                       pending := s.bus.pending[1..],
                       inflight := s.bus.inflight + 1, queued := s.bus.queued + Sum(frames))
    && Moved(s.stream, u.stream, Sum(frames) * s.cfg.stride, true)
    && Used(s.clock, u.clock, frames)
    && u.order == Order(s.order.completions, s.order.resubmits + [t], s.order.dropped)
    && Fed(s.runway, u.runway, Sum(frames))
    && u == s.(bus := u.bus, stream := u.stream, clock := u.clock, order := u.order, runway := u.runway)
  }

  lemma HeadGoesOut(s: State)
    requires Inv(s) && s.bus.pending != [] && Ready(s)
    ensures CanPrepare(s) && s.bus.pending[0] < |s.bus.transfers|
    ensures var u := LaunchImplicit(s, s.bus.pending[0], true); HeadOut(s, u.(bus := Dequeue(u.bus)))
  {
    ClockedFill(s);
    var frames := Wanted(s.clock, s.cfg.packets, s.cfg.maxFrames);
    ScaleBound(0, Sum(frames), s.cfg.stride);
    HeadLaunch(s, NextFill(s), frames, Sum(frames) * s.cfg.stride);
  }

  lemma HeadLaunch(s: State, f: Filled, frames: seq<nat>, n: nat)
    requires Inv(s) && s.bus.pending != [] && Ready(s) && CanPrepare(s)
    requires f == NextFill(s) && frames == Wanted(s.clock, s.cfg.packets, s.cfg.maxFrames) && n == Sum(frames) * s.cfg.stride
    requires n <= |s.stream.ring| && f.payload == s.stream.ring[..n] && f.rest == s.stream.ring[n..]
    requires InBytes(f.lengths, frames, s.cfg.stride) && Frames(f.lengths, s.cfg.stride) == Sum(frames)
    ensures s.bus.pending[0] < |s.bus.transfers|
    ensures var u := LaunchImplicit(s, s.bus.pending[0], true); HeadOut(s, u.(bus := Dequeue(u.bus)))
  {
    var t := s.bus.pending[0];
    LaunchedFields(s, t, f);
    HeadFrom(s, LaunchImplicit(s, t, true), t, f, frames, n);
  }

  lemma HeadFrom(s: State, u: State, t: nat, f: Filled, frames: seq<nat>, n: nat)
    requires s.cfg.stride > 0 && s.bus.pending != [] && t == s.bus.pending[0] < |s.bus.transfers| && Ready(s)
    requires |s.clock.layouts| <= |s.clock.log|
    requires frames == Wanted(s.clock, s.cfg.packets, s.cfg.maxFrames) && n == Sum(frames) * s.cfg.stride
    requires n <= |s.stream.ring| && f.payload == s.stream.ring[..n] && f.rest == s.stream.ring[n..]
    requires InBytes(f.lengths, frames, s.cfg.stride)
    requires u == s.(bus := u.bus, stream := u.stream, clock := u.clock, order := u.order, runway := u.runway)
    requires u.bus == s.bus.(transfers := s.bus.transfers[t := Transfer(InFlight, f.lengths)],
                             inflight := s.bus.inflight + 1, queued := s.bus.queued + Sum(frames))
    requires u.stream == Ship(s.stream, f, true) && u.clock == Take(s.clock, f.lengths, s.cfg.stride)
    requires u.order == s.order.(resubmits := s.order.resubmits + [t]) && u.runway == Load(s.runway, Sum(frames))
    ensures HeadOut(s, u.(bus := Dequeue(u.bus)))
  {
    LaunchMoves(s.stream, f, n, true);
    TakenUsed(s.clock, f.lengths, frames, s.cfg.stride);
    FedByLoad(s.runway, Sum(frames));
    HeadParts(s, u.(bus := Dequeue(u.bus)), t, f.lengths, frames, n);
  }

  lemma LaunchedFields(s: State, t: nat, f: Filled)
    requires s.cfg.stride > 0 && t < |s.bus.transfers| && CanPrepare(s) && |s.clock.layouts| <= |s.clock.log|
    requires f == NextFill(s) && |f.lengths| == s.cfg.packets
    ensures var u := LaunchImplicit(s, t, true); var frames := Frames(f.lengths, s.cfg.stride);
            && u == s.(bus := u.bus, stream := u.stream, clock := u.clock, order := u.order, runway := u.runway)
            && u.bus == s.bus.(transfers := s.bus.transfers[t := Transfer(InFlight, f.lengths)],
                               inflight := s.bus.inflight + 1, queued := s.bus.queued + frames)
            && u.stream == Ship(s.stream, f, true) && u.clock == Take(s.clock, f.lengths, s.cfg.stride)
            && u.order == s.order.(resubmits := s.order.resubmits + [t]) && u.runway == Load(s.runway, frames)
  {
  }

  lemma HeadParts(s: State, u: State, t: nat, lengths: seq<nat>, frames: seq<nat>, n: nat)
    requires s.bus.pending != [] && t == s.bus.pending[0] < |s.bus.transfers| && Ready(s)
    requires frames == Wanted(s.clock, s.cfg.packets, s.cfg.maxFrames) && n == Sum(frames) * s.cfg.stride
    requires InBytes(lengths, frames, s.cfg.stride)
    requires u.bus == s.bus.(transfers := s.bus.transfers[t := Transfer(InFlight, lengths)], pending := s.bus.pending[1..],
                             inflight := s.bus.inflight + 1, queued := s.bus.queued + Sum(frames))
    requires Moved(s.stream, u.stream, n, true) && Used(s.clock, u.clock, frames)
    requires u.order == Order(s.order.completions, s.order.resubmits + [t], s.order.dropped)
    requires Fed(s.runway, u.runway, Sum(frames))
    requires u == s.(bus := u.bus, stream := u.stream, clock := u.clock, order := u.order, runway := u.runway)
    ensures HeadOut(s, u)
  {
    assert u.bus.transfers[t].lengths == lengths;
  }

  lemma HeadRefused(s: State)
    requires Inv(s) && s.bus.pending != [] && Ready(s)
    ensures CanPrepare(s) && s.bus.pending[0] < |s.bus.transfers|
    ensures Refused(s, LaunchImplicit(s, s.bus.pending[0], false))
  {
    ClockedFill(s);
    var frames := Wanted(s.clock, s.cfg.packets, s.cfg.maxFrames);
    ScaleBound(0, Sum(frames), s.cfg.stride);
    RefusedLaunch(s, NextFill(s), frames, Sum(frames) * s.cfg.stride);
  }

  lemma RefusedLaunch(s: State, f: Filled, frames: seq<nat>, n: nat)
    requires Inv(s) && s.bus.pending != [] && Ready(s) && CanPrepare(s)
    requires f == NextFill(s) && frames == Wanted(s.clock, s.cfg.packets, s.cfg.maxFrames) && n == Sum(frames) * s.cfg.stride
    requires n <= |s.stream.ring| && f.payload == s.stream.ring[..n] && f.rest == s.stream.ring[n..]
    requires InBytes(f.lengths, frames, s.cfg.stride)
    ensures s.bus.pending[0] < |s.bus.transfers| && Refused(s, LaunchImplicit(s, s.bus.pending[0], false))
  {
    RefusedFields(s, s.bus.pending[0], f);
    RefusedFrom(s, LaunchImplicit(s, s.bus.pending[0], false), s.bus.pending[0], f, frames, n);
  }

  lemma RefusedFields(s: State, t: nat, f: Filled)
    requires s.cfg.stride > 0 && t < |s.bus.transfers| && CanPrepare(s) && |s.clock.layouts| <= |s.clock.log|
    requires f == NextFill(s) && |f.lengths| == s.cfg.packets
    ensures var u := LaunchImplicit(s, t, false);
            && u == s.(bus := u.bus, stream := Ship(s.stream, f, false), clock := Take(s.clock, f.lengths, s.cfg.stride),
                       flags := Failed(s.flags))
            && u.bus == s.bus.(transfers := s.bus.transfers[t := Transfer(s.bus.transfers[t].place, f.lengths)])
  {
  }

  lemma RefusedFrom(s: State, u: State, t: nat, f: Filled, frames: seq<nat>, n: nat)
    requires s.cfg.stride > 0 && s.bus.pending != [] && t == s.bus.pending[0] < |s.bus.transfers| && Ready(s)
    requires |s.clock.layouts| <= |s.clock.log|
    requires frames == Wanted(s.clock, s.cfg.packets, s.cfg.maxFrames) && n == Sum(frames) * s.cfg.stride
    requires n <= |s.stream.ring| && f.payload == s.stream.ring[..n] && f.rest == s.stream.ring[n..]
    requires InBytes(f.lengths, frames, s.cfg.stride)
    requires u == s.(bus := u.bus, stream := Ship(s.stream, f, false), clock := Take(s.clock, f.lengths, s.cfg.stride),
                     flags := Failed(s.flags))
    requires u.bus == s.bus.(transfers := s.bus.transfers[t := Transfer(s.bus.transfers[t].place, f.lengths)])
    ensures Refused(s, u)
  {
    LaunchMoves(s.stream, f, n, false);
    TakenUsed(s.clock, f.lengths, frames, s.cfg.stride);
    assert u.bus.transfers[t].lengths == f.lengths;
  }

  // ---- One after the other ----------------------------------------------------------------------

  lemma NoneOut(s: State)
    requires |s.clock.layouts| <= |s.clock.log|
    ensures WentOut(s, s)
  {
    assert Gone(s, s) == [] && TakenFrames(s, s) == [];
    NothingMoved(s.stream);
    assert s.order.resubmits + [] == s.order.resubmits;
    assert s.bus.pending[0..] == s.bus.pending && s.clock.layouts[0..] == s.clock.layouts;
    assert Sum([]) * s.cfg.stride == 0;
  }

  lemma NothingMoved(st: Stream)
    ensures Moved(st, st, 0, true)
  {
    assert st.ring[0..] == st.ring && st.sent + st.ring[..0] == st.sent;
  }

  lemma MovedOn(st: Stream, u: Stream, w: Stream, n: nat, m: nat)
    requires Moved(st, u, n, true) && Moved(u, w, m, true)
    ensures Moved(st, w, n + m, true)
  {
    TakeOn(st.ring, n, m);
    assert st.sent + st.ring[..n] + u.ring[..m] == st.sent + (st.ring[..n] + u.ring[..m]);
  }

  lemma UsedOn(c: Clock, u: Clock, w: Clock, a: seq<nat>, b: seq<nat>)
    requires Used(c, u, a) && Used(u, w, b)
    ensures Used(c, w, a + b)
  {
    assert c.layouts[|a|..][|b|..] == c.layouts[|a + b|..];
  }

  lemma WantedOn(c: Clock, u: Clock, a: nat, p: nat, maxFrames: nat)
    requires a <= |c.layouts| && u.layouts == c.layouts[a..] && p <= |u.layouts|
    ensures Wanted(c, a + p, maxFrames) == Wanted(c, a, maxFrames) + Wanted(u, p, maxFrames)
  {
  }

  lemma {:induction false} CarryKept(ts: seq<Transfer>, us: seq<Transfer>, order: seq<nat>, frames: seq<nat>, packets: nat, stride: nat)
    requires Carry(ts, order, frames, packets, stride) && |us| == |ts|
    requires forall t :: 0 <= t < |ts| && t in order ==> us[t] == ts[t]
    ensures Carry(us, order, frames, packets, stride)
    decreases |order|
  {
    if order != [] {
      assert order[|order| - 1] in order;
      CarryKept(ts, us, order[..|order| - 1], frames[..|frames| - packets], packets, stride);
    }
  }

  lemma CarryOn(ts: seq<Transfer>, us: seq<Transfer>, order: seq<nat>, frames: seq<nat>, t: nat, next: seq<nat>, stride: nat)
    requires Carry(ts, order, frames, |next|, stride) && t < |ts| && t !in order
    requires |us| == |ts| && OnBus(us, t, next, stride) && forall k :: 0 <= k < |ts| && k != t ==> us[k] == ts[k]
    ensures Carry(us, order + [t], frames + next, |next|, stride)
  {
    CarryKept(ts, us, order, frames, |next|, stride);
    assert (order + [t])[..|order|] == order;
    assert (frames + next)[|frames|..] == next && (frames + next)[..|frames|] == frames;
  }

  lemma BusOn(b: Bus, v: Bus, w: Bus, gone: seq<nat>, frames: seq<nat>, t: nat, next: seq<nat>, stride: nat, lengths: seq<nat>)
    requires BusServed(b, v, gone, frames, |next|, stride) && NoDup(b.pending) && v.pending != [] && v.pending[0] == t < |v.transfers|
    requires InBytes(lengths, next, stride)
    requires w == v.(transfers := v.transfers[t := Transfer(InFlight, lengths)], pending := v.pending[1..],
                     inflight := v.inflight + 1, queued := v.queued + Sum(next))
    ensures BusServed(b, w, gone + [t], frames + next, |next|, stride)
  {
    assert t !in gone && gone + [t] <= b.pending && w.pending == b.pending[|gone + [t]|..] by {
      NextGone(b.pending, |gone|);
    }
    assert Carry(w.transfers, gone + [t], frames + next, |next|, stride) by {
      CarryOn(v.transfers, w.transfers, gone, frames, t, next, stride);
    }
    SumConcat(frames, next);
  }

  lemma NextGone(pending: seq<nat>, k: nat)
    requires NoDup(pending) && k < |pending|
    ensures pending[k] !in pending[..k]
    ensures pending[..k] + [pending[k]] <= pending && pending[k..][1..] == pending[k + 1..]
  {
    assert pending[..k] + [pending[k]] == pending[..k + 1];
  }

  lemma TookOn(s: State, v: State, w: State, gone: seq<nat>, frames: seq<nat>, t: nat, next: seq<nat>, n: nat, m: nat)
    requires Took(s, v, gone, frames) && HeadOut(v, w) && NoDup(s.bus.pending)
    requires t == v.bus.pending[0] && next == Wanted(v.clock, v.cfg.packets, v.cfg.maxFrames)
    requires n == Sum(frames) * s.cfg.stride && m == Sum(next) * s.cfg.stride && n + m == Sum(frames + next) * s.cfg.stride
    ensures Took(s, w, gone + [t], frames + next)
  {
    assert BusServed(s.bus, w.bus, gone + [t], frames + next, s.cfg.packets, s.cfg.stride) by {
      BusOn(s.bus, v.bus, w.bus, gone, frames, t, next, s.cfg.stride, w.bus.transfers[t].lengths);
    }
    assert Moved(s.stream, w.stream, n + m, true) by {
      MovedOn(s.stream, v.stream, w.stream, n, m);
    }
    assert Used(s.clock, w.clock, frames + next) by {
      UsedOn(s.clock, v.clock, w.clock, frames, next);
    }
    assert Beside(s, w, gone + [t], Sum(frames + next)) by {
      RestOn(s, v, w, gone, frames, t, next);
    }
    TookParts(s, w, gone + [t], frames + next, n + m);
  }

  lemma RestOn(s: State, v: State, w: State, gone: seq<nat>, frames: seq<nat>, t: nat, next: seq<nat>)
    requires v.order == Order(s.order.completions, s.order.resubmits + gone, s.order.dropped)
    requires w.order == Order(v.order.completions, v.order.resubmits + [t], v.order.dropped)
    requires v.runway == s.runway.(latch := s.runway.latch && Sum(frames) == 0, loaded := v.runway.loaded)
    requires Fed(v.runway, w.runway, Sum(next))
    requires v == s.(bus := v.bus, stream := v.stream, clock := v.clock, order := v.order, runway := v.runway)
    requires w == v.(bus := w.bus, stream := w.stream, clock := w.clock, order := w.order, runway := w.runway)
    ensures Beside(s, w, gone + [t], Sum(frames + next))
  {
    SumConcat(frames, next);
    assert s.order.resubmits + gone + [t] == s.order.resubmits + (gone + [t]);
  }

  lemma TookParts(s: State, w: State, gone: seq<nat>, frames: seq<nat>, n: nat)
    requires BusServed(s.bus, w.bus, gone, frames, s.cfg.packets, s.cfg.stride)
    requires n == Sum(frames) * s.cfg.stride && Moved(s.stream, w.stream, n, true)
    requires Used(s.clock, w.clock, frames) && Beside(s, w, gone, Sum(frames))
    ensures Took(s, w, gone, frames)
  {
  }

  lemma SumsInBytes(frames: seq<nat>, next: seq<nat>, stride: nat)
    ensures Sum(frames) * stride + Sum(next) * stride == Sum(frames + next) * stride
    ensures Sum(frames) * stride >= 0 && Sum(next) * stride >= 0
  {
    SumConcat(frames, next);
    Distribute(Sum(frames), Sum(next), stride);
    ScaleBound(0, Sum(frames), stride);
    ScaleBound(0, Sum(next), stride);
  }

  lemma TookIs(s: State, u: State, gone: seq<nat>, frames: seq<nat>)
    requires Took(s, u, gone, frames) && |frames| <= |s.clock.layouts| && frames == Wanted(s.clock, |frames|, s.cfg.maxFrames)
    ensures WentOut(s, u)
  {
    assert |u.bus.pending| == |s.bus.pending| - |gone| && s.bus.pending[..|gone|] == gone;
    assert |u.clock.layouts| == |s.clock.layouts| - |frames|;
  }

  lemma OutOn(s: State, v: State, w: State)
    requires WentOut(s, v) && HeadOut(v, w) && NoDup(s.bus.pending)
    ensures WentOut(s, w)
  {
    var gone, frames := Gone(s, v), TakenFrames(s, v);
    var t, next := v.bus.pending[0], Wanted(v.clock, v.cfg.packets, v.cfg.maxFrames);
    TookNext(s, v, w, gone, frames, t, next);
    assert frames + next == Wanted(s.clock, |frames + next|, s.cfg.maxFrames) by {
      WantedOn(s.clock, v.clock, |frames|, |next|, s.cfg.maxFrames);
    }
    TookIs(s, w, gone + [t], frames + next);
  }

  lemma TookNext(s: State, v: State, w: State, gone: seq<nat>, frames: seq<nat>, t: nat, next: seq<nat>)
    requires Took(s, v, gone, frames) && HeadOut(v, w) && NoDup(s.bus.pending)
    requires t == v.bus.pending[0] && next == Wanted(v.clock, v.cfg.packets, v.cfg.maxFrames)
    ensures Took(s, w, gone + [t], frames + next) && |frames + next| <= |s.clock.layouts|
  {
    SumsInBytes(frames, next, s.cfg.stride);
    TookOn(s, v, w, gone, frames, t, next, Sum(frames) * s.cfg.stride, Sum(next) * s.cfg.stride);
  }

  // ---- Until one cannot go ----------------------------------------------------------------------

  /** The first `k` submissions were accepted; answers past the end are. */
  ghost predicate Accepted(oks: seq<bool>, k: nat) {
    forall j :: 0 <= j < k && j < |oks| ==> oks[j]
  }

  /** Transfers went out until none was deferred, or the next lacks layouts or PCM. */
  ghost predicate Exhausted(s: State, u: State, oks: seq<bool>) {
    WentOut(s, u) && Accepted(oks, |Gone(s, u)|) && (u.bus.pending == [] || !Ready(u))
  }

  /** Transfers went out until `libusb` refused one. */
  ghost predicate CutShort(s: State, u: State, oks: seq<bool>) {
    exists v :: WentOut(s, v) && RefusedNext(s, v, u, oks)
  }

  ghost predicate RefusedNext(s: State, v: State, u: State, oks: seq<bool>) {
    && |v.bus.pending| <= |s.bus.pending|
    && var k := |Gone(s, v)|; Accepted(oks, k) && k < |oks| && !oks[k] && Refused(v, u)
  }

  function Later(oks: seq<bool>, k: nat): seq<bool> {
    if k <= |oks| then oks[k..] else []
  }

  lemma LaterRest(oks: seq<bool>, k: nat)
    ensures Rest(Later(oks, k)) == Later(oks, k + 1)
  {
  }

  /** A state on the way through the loop: nothing has stopped it. */
  ghost predicate Live(v: State) {
    Inv(v) && !v.flags.stopRequested && (v.bus.pending != [] ==> v.flags.started)
  }

  /** The loop ends: nothing deferred, the next not ready, or the next refused. */
  ghost predicate Ends(w: State, oks: seq<bool>, k: nat, u: State) {
    (u == w && (w.bus.pending == [] || !Ready(w))) || (k < |oks| && !oks[k] && Refused(w, u))
  }

  lemma LiveOn(v: State, u: State, w: State)
    requires Live(v) && v.bus.pending != [] && CanPrepare(v) && v.bus.pending[0] < |v.bus.transfers|
    requires u == LaunchImplicit(v, v.bus.pending[0], true) && w == u.(bus := Dequeue(u.bus))
    ensures Live(w) && |w.bus.pending| == |v.bus.pending| - 1
  {
    LaunchHeadOnward(v, true, u);
  }

  lemma NextSubmission(v: State, answers: seq<bool>, u: State)
    requires WellFormed(v) && v.bus.pending != [] && CanPrepare(v) && u == SubmitPending(v, answers)
    ensures if answers != [] && !answers[0] then u == LaunchImplicit(v, v.bus.pending[0], false)
            else var w := LaunchImplicit(v, v.bus.pending[0], true); u == SubmitPending(w.(bus := Dequeue(w.bus)), Rest(answers))
  {
  }

  lemma LastSubmission(v: State, oks: seq<bool>, k: nat, u: State)
    requires Live(v) && u == SubmitPending(v, Later(oks, k))
    requires v.bus.pending == [] || !Ready(v) || (k < |oks| && !oks[k])
    ensures Ends(v, oks, k, u)
  {
    ReadyIs(v);
    if v.bus.pending != [] && Ready(v) {
      HeadRefused(v);
      NextSubmission(v, Later(oks, k), u);
    }
  }

  lemma AnotherSubmission(v: State, oks: seq<bool>, k: nat, u: State) returns (w: State)
    requires Live(v) && u == SubmitPending(v, Later(oks, k))
    requires v.bus.pending != [] && Ready(v) && (k < |oks| ==> oks[k])
    ensures Live(w) && HeadOut(v, w) && |w.bus.pending| == |v.bus.pending| - 1 && u == SubmitPending(w, Later(oks, k + 1))
  {
    ReadyIs(v);
    var l := LaunchImplicit(v, v.bus.pending[0], true);
    w := l.(bus := Dequeue(l.bus));
    assert u == SubmitPending(w, Later(oks, k + 1)) by {
      NextSubmission(v, Later(oks, k), u);
      LaterRest(oks, k);
    }
    assert HeadOut(v, w) by {
      HeadGoesOut(v);
    }
    LiveOn(v, l, w);
  }

  /** Whatever one transfer leaving the head keeps, the loop keeps. */
  lemma {:induction false} Serving(kept: State -> bool, v: State, oks: seq<bool>, k: nat, u: State) returns (w: State, j: nat)
    requires Live(v) && kept(v) && Accepted(oks, k) && u == SubmitPending(v, Later(oks, k))
    requires forall x, y :: kept(x) && HeadOut(x, y) ==> kept(y)
    ensures kept(w) && Accepted(oks, j) && j == k + |v.bus.pending| - |w.bus.pending| && Ends(w, oks, j, u)
    decreases |v.bus.pending|
  {
    if v.bus.pending == [] || !Ready(v) || (k < |oks| && !oks[k]) {
      LastSubmission(v, oks, k, u);
      w, j := v, k;
    } else {
      var next := AnotherSubmission(v, oks, k, u);
      w, j := Serving(kept, next, oks, k + 1, u);
    }
  }

  ghost predicate FrontServed(s: State, u: State, oks: seq<bool>) {
    Exhausted(s, u, oks) || CutShort(s, u, oks)
  }

  lemma ServedSo(s: State, w: State, oks: seq<bool>, k: nat, u: State)
    requires WentOut(s, w) && Accepted(oks, k) && k == |s.bus.pending| - |w.bus.pending| && Ends(w, oks, k, u)
    ensures FrontServed(s, u, oks)
  {
    if k < |oks| && !oks[k] && Refused(w, u) {
      assert RefusedNext(s, w, u, oks);
      assert CutShort(s, u, oks);
    } else {
      EndsExhausted(s, w, oks, k, u);
    }
  }

  lemma EndsExhausted(s: State, w: State, oks: seq<bool>, k: nat, u: State)
    requires WentOut(s, w) && Accepted(oks, k) && k == |s.bus.pending| - |w.bus.pending|
    requires u == w && (w.bus.pending == [] || !Ready(w))
    ensures Exhausted(s, u, oks)
  {
  }

  lemma ServesFront(s: State, oks: seq<bool>, u: State)
    requires Live(s) && u == SubmitPending(s, oks)
    ensures FrontServed(s, u, oks)
  {
    var kept := (v: State) => WentOut(s, v);
    NoneOut(s);
    forall x, y | kept(x) && HeadOut(x, y)
      ensures kept(y)
    {
      OutOn(s, x, y);
    }
    assert Later(oks, 0) == oks;
    var w, k := Serving(kept, s, oks, 0, u);
    ServedSo(s, w, oks, k, u);
  }

  // ---- The capture completion -------------------------------------------------------------------

  /** What the callback has heard by the time it looks at the deferral FIFO. */
  ghost function Heard(s: State, e: Event): State
    requires Suffix(s.clock) && e.Capture?
  {
    if s.cfg.implicit then s.(clock := Behind(s.clock, e.packets)) else s
  }

  ghost function LeftCapture(s: State, failed: bool): State
    requires s.bus.captureInflight > 0
  {
    s.(bus := s.bus.(captureInflight := s.bus.captureInflight - 1), flags := if failed then Failed(s.flags) else s.flags)
  }

  /** The capture transfer goes back to the bus, unless the transport failed or fails over it. */
  ghost predicate Tail(v: State, u: State, ok: bool) {
    if !v.flags.failed && ok then u == v
    else v.bus.captureInflight > 0 && u == LeftCapture(v, !v.flags.failed)
  }

  ghost predicate Heeded(h: State, u: State, e: Event)
    requires e.Capture?
  {
    exists v :: FrontServed(h, v, e.oks) && Tail(v, u, e.ok)
  }

  /** Everything a capture completion may do to playback. */
  ghost predicate CaptureOutcome(s: State, u: State, e: Event)
    requires Suffix(s.clock) && e.Capture? && s.bus.captureInflight > 0
  {
    if Serves(s, e) then Heeded(Heard(s, e), u, e)
    else u == LeftCapture(s, s.flags.captureActive && !s.flags.stopRequested && e.status == NoDevice)
  }

  lemma TailIs(v: State, ok: bool)
    requires v.bus.captureInflight > 0
    ensures Tail(v, ResubmitCapture(v, ok), ok)
  {
  }

  lemma HeardIs(s: State, e: Event)
    requires Inv(s) && e.Capture?
    ensures Suffix(s.clock)
    ensures Heard(s, e) == if s.cfg.implicit then s.(clock := LogLayouts(s.clock, e.packets)) else s
    ensures Inv(Heard(s, e))
  {
    LogsBehind(s.clock, e.packets);
    LoggedKeeps(s, e.packets);
  }

  lemma ServedStep(s: State, h: State, e: Event, u: State)
    requires Live(h) && h.bus.captureInflight > 0 && e.Capture?
    requires u == ResubmitCapture(SubmitPending(h, e.oks), e.ok)
    ensures Heeded(h, u, e)
  {
    var v := SubmitPending(h, e.oks);
    ServesFront(h, e.oks, v);
    SubmitPendingKeeps(h, e.oks);
    TailIs(v, e.ok);
  }

  lemma HeardLive(s: State, e: Event)
    requires Inv(s) && e.Capture? && !s.flags.stopRequested
    ensures Suffix(s.clock) && Live(Heard(s, e))
  {
    HeardIs(s, e);
    if s.bus.pending != [] {
      DeferredMeansStarted(s);
    }
  }

  lemma CaptureStep(s: State, e: Event, u: State)
    requires Inv(s) && e.Capture? && s.bus.captureInflight > 0 && u == OnCapture(s, e.status, e.packets, e.oks, e.ok)
    ensures Suffix(s.clock) && CaptureOutcome(s, u, e)
  {
    HeardIs(s, e);
    if Serves(s, e) {
      HeardLive(s, e);
      ServedStep(s, Heard(s, e), e, u);
    }
  }

  /**
   * Every capture completion of every run: its packets queue behind the layouts, deferred transfers go out from the front
   * of their FIFO with the oldest of them until one lacks layouts or PCM or is refused, and its own transfer goes back.
   */
  lemma CaptureEffect(run: seq<State>, events: seq<Event>, i: nat)
    requires IsRun(run, events) && i < |events| && events[i].Capture? && Enabled(run[i], events[i])
    ensures Suffix(run[i].clock) && CaptureOutcome(run[i], run[i + 1], events[i])
  {
    RunHolds(run, events, i);
    CaptureStep(run[i], events[i], run[i + 1]);
  }

  /** Fewer layouts than a transfer has packets, or fewer frames than the next ones ask for. */
  ghost predicate NextMustWait(u: State) {
    |u.clock.layouts| < u.cfg.packets || |u.stream.ring| < Sum(Wanted(u.clock, u.cfg.packets, u.cfg.maxFrames)) * u.cfg.stride
  }

  /** What left the deferral FIFO is its front, and is on the bus. */
  ghost predicate FrontOnBus(b: Bus, u: Bus) {
    && |u.pending| <= |b.pending|
    && var k := |b.pending| - |u.pending|;
    && u.pending == b.pending[k..]
    && forall j :: 0 <= j < k ==> b.pending[j] < |u.transfers| && u.transfers[b.pending[j]].place.InFlight?
  }

  lemma {:induction false} CarriedOnBus(ts: seq<Transfer>, order: seq<nat>, frames: seq<nat>, packets: nat, stride: nat, j: nat)
    requires Carry(ts, order, frames, packets, stride) && j < |order|
    ensures order[j] < |ts| && ts[order[j]].place.InFlight?
    decreases |order|
  {
    if j < |order| - 1 {
      CarriedOnBus(ts, order[..|order| - 1], frames[..|frames| - packets], packets, stride, j);
    }
  }

  lemma OutOnBus(s: State, u: State)
    requires WentOut(s, u)
    ensures FrontOnBus(s.bus, u.bus)
  {
    var gone := Gone(s, u);
    forall j | 0 <= j < |gone|
      ensures gone[j] < |u.bus.transfers| && u.bus.transfers[gone[j]].place.InFlight?
    {
      CarriedOnBus(u.bus.transfers, gone, TakenFrames(s, u), s.cfg.packets, s.cfg.stride, j);
    }
    assert forall j :: 0 <= j < |gone| ==> gone[j] == s.bus.pending[j];
  }

  lemma RefusedOnBus(b: Bus, v: State, u: State)
    requires FrontOnBus(b, v.bus) && Refused(v, u)
    ensures FrontOnBus(b, u.bus) && u.flags.failed
  {
    var t := v.bus.pending[0];
    assert u.bus.pending == v.bus.pending && |u.bus.transfers| == |v.bus.transfers|;
    assert forall j :: 0 <= j < |v.bus.transfers| ==> u.bus.transfers[j].place == v.bus.transfers[j].place;
  }

  lemma FrontServedOnBus(s: State, u: State, oks: seq<bool>)
    requires FrontServed(s, u, oks)
    ensures FrontOnBus(s.bus, u.bus)
    ensures u.flags.failed || u.bus.pending == [] || NextMustWait(u)
  {
    if Exhausted(s, u, oks) {
      OutOnBus(s, u);
    } else {
      var v :| WentOut(s, v) && RefusedNext(s, v, u, oks);
      OutOnBus(s, v);
      RefusedOnBus(s.bus, v, u);
    }
  }

  /**
   * No deferred transfer is left waiting for what is there: past its guards a capture completion leaves the deferral FIFO
   * empty or its next transfer short of layouts or PCM, unless the transport failed; and what left went to the bus in order.
   */
  lemma DeferredAreServed(run: seq<State>, events: seq<Event>, i: nat)
    requires IsRun(run, events) && i < |events| && Serves(run[i], events[i])
    ensures var u := run[i + 1];
            && (u.flags.failed || u.bus.pending == [] || NextMustWait(u))
            && FrontOnBus(run[i].bus, u.bus)
  {
    CaptureEffect(run, events, i);
    HeededServes(Heard(run[i], events[i]), run[i + 1], events[i]);
  }

  lemma HeededServes(h: State, u: State, e: Event)
    requires e.Capture? && Heeded(h, u, e)
    ensures FrontOnBus(h.bus, u.bus) && (u.flags.failed || u.bus.pending == [] || NextMustWait(u))
  {
    var v :| FrontServed(h, v, e.oks) && Tail(v, u, e.ok);
    FrontServedOnBus(h, v, e.oks);
    TailServes(h.bus, v, u, e.ok);
  }

  lemma TailServes(b: Bus, v: State, u: State, ok: bool)
    requires Tail(v, u, ok) && FrontOnBus(b, v.bus) && (v.flags.failed || v.bus.pending == [] || NextMustWait(v))
    ensures FrontOnBus(b, u.bus) && (u.flags.failed || u.bus.pending == [] || NextMustWait(u))
  {
    assert u.bus.transfers == v.bus.transfers && u.bus.pending == v.bus.pending;
  }
}
