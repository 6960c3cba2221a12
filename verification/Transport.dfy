/**
 * The playback transport as a state machine: one step per completion callback, per render
 * publish and per control-thread phase. Each function follows the branches of the driver member
 * named beside it. Some fields are bookkeeping no branch reads: they record what was committed,
 * submitted, logged and granted, so that the invariants have something to speak about.
 */
module Transport {
  import opened Core

  const FIFO_CAPACITY: nat := 256      // kImplicitFifoCapacity
  const MAX_TRANSFERS: nat := 8        // kMaxTransferCount, size of the deferral array
  const MAX_PACKETS: nat := 8          // kMaxPacketsPerTransfer

  datatype Config = Config(
    stride: nat,        // bytes per playback frame
    packets: nat,       // isochronous packets per OUT transfer
    maxFrames: nat,     // maxFramesPerPacket_
    primeFrames: nat,   // startupPrimeFrames_
    target: nat,        // playbackTargetFrames_
    reserve: nat,       // playbackCreditReserve_
    implicit: bool)     // capture-clocked: implicit feedback and no feedback endpoint
  {
    ghost predicate Valid() {
      stride > 0 && 1 <= packets <= MAX_PACKETS
    }
  }

  /** Where an OUT transfer is. `Idle` covers both "not yet started" and "retired by teardown". */
  datatype Place = Idle | InFlight | Deferred

  datatype Transfer = Transfer(place: Place, lengths: seq<nat>)

  datatype Status = Completed | Cancelled | NoDevice | OtherError

  /** Transfer pools and their counters. */
  datatype Bus = Bus(
    transfers: seq<Transfer>,
    pending: seq<nat>,                       // pendingImplicitTransfers_
    feedbackPool: nat, feedback: nat,        // allocated / in-flight feedback transfers
    capturePool: nat, captureInflight: nat,  // allocated / in-flight capture transfers
    inflight: nat,                           // inflight_
    queued: nat)                             // queuedOutFrames_

  /** The playback ring, and where every byte published into it went. */
  datatype Stream = Stream(
    ring: seq<Byte>,          // bytes between ringTail_ and ringHead_
    committed: seq<Byte>,     // every byte the render thread published
    sent: seq<Byte>,          // payloads of submitted OUT transfers, in submission order
    lost: seq<Byte>)          // drained for a transfer whose submission failed

  /** One packet prepared from a layout: the log entry it came from and the frames it carries. */
  datatype Planned = Planned(index: nat, frames: nat)

  /** The capture-derived layout FIFO. */
  datatype Clock = Clock(
    layouts: seq<nat>,        // entries between implicitRead_ and implicitWrite_
    overruns: nat,            // metadataFifoOverruns_
    log: seq<nat>,            // every layout capture logged
    resyncs: seq<nat>,        // log index the reader jumped to at each overflow
    plan: seq<Planned>,       // packets prepared, in order
    base: nat)                // entries consumed before playback, by priming

  /** Completion order against resubmission order, in capture-clocked mode. */
  datatype Order = Order(
    completions: seq<nat>,
    resubmits: seq<nat>,
    dropped: seq<nat>)        // a transfer whose direct resubmission failed

  datatype Ledger = Ledger(
    credit: int,              // playbackCredit_
    held: nat,                // frames in the caller's holding slot
    retired: nat,             // frames completed without a grant
    uncharged: nat,           // frames published without a charge
    stock: int)               // what ring and slot held when playback started

  datatype Runway = Runway(
    latch: bool,              // implicitZeroRunwayActive_
    events: nat,              // zeroRunwayEvents_
    loaded: nat,              // resubmissions that carried at least one frame
    episodes: seq<nat>)       // value of `loaded` at each event

  datatype Flags = Flags(
    started: bool, stopRequested: bool, failed: bool, captureActive: bool, streaming: bool)

  /** The control thread's position inside `stop()`, or inside the `stopIsoPump` of a refused start. */
  datatype Control = Free | AbortingStart | StoppingPlayback | StoppingCapture(playbackStopped: bool)
                   | Releasing(playbackStopped: bool, captureStopped: bool)

  datatype State = State(
    cfg: Config, bus: Bus, stream: Stream, clock: Clock, order: Order, ledger: Ledger,
    runway: Runway, flags: Flags, control: Control, interfaces: bool, deviceOpen: bool)

  // ---- Stream ---------------------------------------------------------------------------

  datatype Filled = Filled(lengths: seq<nat>, payload: seq<Byte>, rest: seq<Byte>)

  /** `drainRing` once per packet: each length is what the ring still held, up to the plan. */
  function Fill(ring: seq<Byte>, plan: seq<nat>, stride: nat): Filled {
    if plan == [] then Filled([], [], ring)
    else
      var f := Fill(ring, plan[..|plan| - 1], stride);
      var n := Min(plan[|plan| - 1] * stride, |f.rest|);
      Filled(f.lengths + [n], f.payload + f.rest[..n], f.rest[n..])
  }

  function Ship(st: Stream, f: Filled, ok: bool): Stream {
    if ok then st.(ring := f.rest, sent := st.sent + f.payload)
    else st.(ring := f.rest, lost := st.lost + f.payload)
  }

  function Append(st: Stream, pcm: seq<Byte>): Stream {
    st.(ring := st.ring + pcm, committed := st.committed + pcm)
  }

  // ---- Clock ----------------------------------------------------------------------------

  function CapFrames(layouts: seq<nat>, maxFrames: nat): (r: seq<nat>)
    ensures |r| == |layouts|
    ensures forall k :: 0 <= k < |r| ==> r[k] == Min(layouts[k], maxFrames)
  {
    seq(|layouts|, k requires 0 <= k < |layouts| => Min(layouts[k], maxFrames))
  }

  function PlannedPackets(first: nat, lengths: seq<nat>, stride: nat): (r: seq<Planned>)
    requires stride > 0
    ensures |r| == |lengths|
    ensures forall k :: 0 <= k < |r| ==> r[k] == Planned(first + k, lengths[k] / stride)
  {
    seq(|lengths|, k requires 0 <= k < |lengths| => Planned(first + k, lengths[k] / stride))
  }

  /** Take one transfer's layouts off the FIFO and record what was built from them. */
  function Take(c: Clock, lengths: seq<nat>, stride: nat): Clock
    requires stride > 0 && |lengths| <= |c.layouts| <= |c.log|
  {
    c.(layouts := c.layouts[|lengths|..],
       plan := c.plan + PlannedPackets(|c.log| - |c.layouts|, lengths, stride))
  }

  /** One capture packet's frame count enters the FIFO; a full FIFO first discards its backlog. */
  function LogLayout(c: Clock, frames: nat): Clock {
    if |c.layouts| >= FIFO_CAPACITY then
      c.(layouts := [frames], overruns := c.overruns + 1,
         log := c.log + [frames], resyncs := c.resyncs + [|c.log|])
    else c.(layouts := c.layouts + [frames], log := c.log + [frames])
  }

  function LogLayouts(c: Clock, packets: seq<nat>): (r: Clock)
    ensures |c.layouts| <= |c.log| ==> |r.layouts| <= |r.log|
  {
    if packets == [] then c
    else LogLayout(LogLayouts(c, packets[..|packets| - 1]), packets[|packets| - 1])
  }

  // ---- Bus ------------------------------------------------------------------------------

  /** `subtractQueued`: saturates at zero. */
  function SaturatingSub(value: nat, amount: nat): nat {
    if value > amount then value - amount else 0
  }

  /** A completion takes the transfer off the bus and its frames out of the queue. */
  function Retire(b: Bus, t: nat, stride: nat): Bus
    requires stride > 0 && t < |b.transfers|
  {
    b.(queued := SaturatingSub(b.queued, Frames(b.transfers[t].lengths, stride)),
       transfers := b.transfers[t := b.transfers[t].(place := Idle)],
       inflight := SaturatingSub(b.inflight, 1))
  }

  /** A submission attempt: descriptors are already rewritten when libusb refuses it. */
  function Submit(b: Bus, t: nat, lengths: seq<nat>, stride: nat, ok: bool): Bus
    requires stride > 0 && t < |b.transfers|
  {
    if ok then
      b.(transfers := b.transfers[t := Transfer(InFlight, lengths)],
         inflight := b.inflight + 1, queued := b.queued + Frames(lengths, stride))
    else b.(transfers := b.transfers[t := b.transfers[t].(lengths := lengths)])
  }

  function Enqueue(b: Bus, t: nat): Bus
    requires t < |b.transfers|
  {
    b.(pending := b.pending + [t],
       transfers := b.transfers[t := b.transfers[t].(place := Deferred)])
  }

  function CaptureLeaves(b: Bus): Bus {
    b.(captureInflight := SaturatingSub(b.captureInflight, 1))
  }

  function FeedbackLeaves(b: Bus): Bus {
    b.(feedback := SaturatingSub(b.feedback, 1), inflight := SaturatingSub(b.inflight, 1))
  }

  ghost predicate PendingInPool(b: Bus) {
    forall k :: 0 <= k < |b.pending| ==> b.pending[k] < |b.transfers|
  }

  // ---- Runway, ledger, flags ------------------------------------------------------------

  function Starve(r: Runway, queued: nat): Runway {
    if queued == 0 && !r.latch then
      r.(latch := true, events := r.events + 1, episodes := r.episodes + [r.loaded])
    else r
  }

  function Load(r: Runway, frames: nat): Runway {
    if frames > 0 then r.(latch := false, loaded := r.loaded + 1) else r
  }

  /** Played frames become the producer's to spend, once playback has started. */
  function Grant(l: Ledger, started: bool, frames: nat): Ledger {
    if started then l.(credit := l.credit + frames) else l.(retired := l.retired + frames)
  }

  /** `markTransportFailed`. */
  function Fail(f: Flags): Flags {
    f.(failed := true, captureActive := false, streaming := false, stopRequested := true)
  }

  // ---- Launching a transfer -------------------------------------------------------------

  function RingFrames(s: State): nat
    requires s.cfg.stride > 0
  {
    |s.stream.ring| / s.cfg.stride
  }

  /** The capped layouts the next transfer would take. */
  function NextPlan(s: State): seq<nat>
    requires |s.clock.layouts| >= s.cfg.packets
  {
    CapFrames(s.clock.layouts[..s.cfg.packets], s.cfg.maxFrames)
  }

  /** `prepareImplicitTransfer` succeeds: whole layout present and whole payload buffered. */
  predicate CanPrepare(s: State)
    requires s.cfg.stride > 0
  {
    |s.clock.layouts| >= s.cfg.packets && RingFrames(s) >= Sum(NextPlan(s))
  }

  predicate ImplicitNow(s: State) {
    s.flags.captureActive && s.cfg.implicit
  }

  /** Submit what was drained into transfer `t`; a refused submission fails the transport. */
  function Launch(s: State, t: nat, f: Filled, ok: bool): State
    requires s.cfg.stride > 0 && t < |s.bus.transfers|
  {
    s.(bus := Submit(s.bus, t, f.lengths, s.cfg.stride, ok),
       stream := Ship(s.stream, f, ok),
       flags := if ok then s.flags else Fail(s.flags))
  }

  function NextFill(s: State): Filled
    requires |s.clock.layouts| >= s.cfg.packets
  {
    Fill(s.stream.ring, NextPlan(s), s.cfg.stride)
  }

  lemma {:induction false} FillLengths(ring: seq<Byte>, plan: seq<nat>, stride: nat)
    ensures |Fill(ring, plan, stride).lengths| == |plan|
  {
    if plan != [] {
      FillLengths(ring, plan[..|plan| - 1], stride);
    }
  }

  /** A capture-clocked launch, straight from a completion or from the head of the deferral FIFO. */
  function LaunchImplicit(s: State, t: nat, ok: bool): (r: State)
    requires s.cfg.stride > 0 && t < |s.bus.transfers| && CanPrepare(s)
    requires |s.clock.layouts| <= |s.clock.log|
    ensures |r.clock.layouts| <= |r.clock.log|
    ensures |r.bus.transfers| == |s.bus.transfers| && r.bus.pending == s.bus.pending && r.cfg == s.cfg
  {
    FillLengths(s.stream.ring, NextPlan(s), s.cfg.stride);
    var f := NextFill(s);
    var u := Launch(s, t, f, ok).(clock := Take(s.clock, f.lengths, s.cfg.stride));
    if ok then
      u.(runway := Load(s.runway, Frames(f.lengths, s.cfg.stride)),
         order := s.order.(resubmits := s.order.resubmits + [t]))
    else u
  }

  function Dequeue(b: Bus): Bus
    requires b.pending != []
  {
    b.(pending := b.pending[1..])
  }

  /** Submission answers still to come; past the end every submission is accepted. */
  function Rest(oks: seq<bool>): seq<bool> {
    if oks == [] then [] else oks[1..]
  }

  /** `submitPendingImplicitTransfers`: oldest first, stopping at the first that cannot go. */
  function SubmitPending(s: State, oks: seq<bool>): State
    requires s.cfg.stride > 0 && |s.clock.layouts| <= |s.clock.log| && PendingInPool(s.bus)
    decreases |s.bus.pending|
  {
    if s.bus.pending == [] || !CanPrepare(s) then s
    else
      var ok := oks == [] || oks[0];
      var u := LaunchImplicit(s, s.bus.pending[0], ok);
      if !ok then u
      else SubmitPending(u.(bus := Dequeue(u.bus)), Rest(oks))
  }

  // ---- Completion callbacks -------------------------------------------------------------

  /** The deferral branch of `onIso`, with the overflow branch the array bound calls for. */
  function Defer(s: State, t: nat): State
    requires t < |s.bus.transfers|
  {
    if |s.bus.pending| < MAX_TRANSFERS
    then s.(bus := Enqueue(s.bus, t), runway := Starve(s.runway, s.bus.queued))
    else s.(flags := Fail(s.flags))
  }

  /** The tail of `onIso`: defer, or drain and resubmit. `plan` paces an endpoint capture does not clock. */
  function Resubmit(s: State, t: nat, ok: bool, plan: seq<nat>): State
    requires s.cfg.stride > 0 && t < |s.bus.transfers| && |s.clock.layouts| <= |s.clock.log|
  {
    if ImplicitNow(s) then
      if |s.bus.pending| > 0 || !CanPrepare(s) then
        var u := Defer(s, t);
        u.(order := u.order.(completions := u.order.completions + [t]))
      else
        var u := LaunchImplicit(s, t, ok);
        u.(order := u.order.(completions := u.order.completions + [t],
                             dropped := if ok then u.order.dropped else u.order.dropped + [t]))
    else Launch(s, t, Fill(s.stream.ring, plan, s.cfg.stride), ok)
  }

  /** `onIso` up to its status checks, and the credit grant where it goes on. */
  function Retired(s: State, t: nat, grant: bool): State
    requires s.cfg.stride > 0 && t < |s.bus.transfers|
  {
    s.(bus := Retire(s.bus, t, s.cfg.stride),
       ledger := Grant(s.ledger, grant, Frames(s.bus.transfers[t].lengths, s.cfg.stride)))
  }

  function OnIso(s: State, t: nat, status: Status, ok: bool, plan: seq<nat>): State
    requires s.cfg.stride > 0 && t < |s.bus.transfers| && |s.clock.layouts| <= |s.clock.log|
  {
    if status == Cancelled || s.flags.stopRequested then Retired(s, t, false)
    else if status == NoDevice then Retired(s, t, false).(flags := Fail(s.flags))
    else Resubmit(Retired(s, t, s.flags.started), t, ok, plan)
  }

  /** The tail of `onCapture`: the capture transfer resubmits itself unless the transport failed. */
  function ResubmitCapture(s: State, ok: bool): State {
    if s.flags.failed then s.(bus := CaptureLeaves(s.bus))
    else if ok then s
    else s.(bus := CaptureLeaves(s.bus), flags := Fail(s.flags))
  }

  /** `onCapture`, its ring copy aside: log layouts, retry deferred OUT transfers, resubmit itself. */
  function OnCapture(s: State, status: Status, packets: seq<nat>, oks: seq<bool>, ok: bool): State
    requires s.cfg.stride > 0 && |s.clock.layouts| <= |s.clock.log| && PendingInPool(s.bus)
  {
    if !s.flags.captureActive || status == Cancelled || s.flags.stopRequested then
      s.(bus := CaptureLeaves(s.bus))
    else if status == NoDevice then
      s.(bus := CaptureLeaves(s.bus), flags := Fail(s.flags))
    else
      var logged := if s.cfg.implicit then s.(clock := LogLayouts(s.clock, packets)) else s;
      ResubmitCapture(SubmitPending(logged, oks), ok)
  }

  /** `onFeedback`, its rate aside. */
  function OnFeedback(s: State, status: Status, ok: bool): State {
    if status == Cancelled || s.flags.stopRequested then s.(bus := FeedbackLeaves(s.bus))
    else if status == NoDevice || !ok then s.(bus := FeedbackLeaves(s.bus), flags := Fail(s.flags))
    else s
  }

  // ---- Render thread --------------------------------------------------------------------

  /** `seen` is `queuedOutFrames_` as it was loaded; completions may have landed since. */
  function CreditFloor(s: State, seen: nat): int {
    0 - s.cfg.target - seen - s.cfg.reserve
  }

  /** Admission under the credit policy: `takePlaybackCredit`. */
  predicate CreditAdmits(s: State, frames: nat, seen: nat) {
    frames == 0 || !s.flags.started || s.ledger.credit - frames >= CreditFloor(s, seen)
  }

  /** A publish under the credit policy pays as it publishes, or does neither. */
  function PublishCharged(s: State, pcm: seq<Byte>, seen: nat): State
    requires s.cfg.stride > 0
  {
    var frames := |pcm| / s.cfg.stride;
    if CreditAdmits(s, frames, seen) then
      s.(stream := Append(s.stream, pcm),
         ledger := if s.flags.started then s.ledger.(credit := s.ledger.credit - frames) else s.ledger)
    else s
  }

  /** A publish under the room policy: nothing is charged. */
  function PublishFree(s: State, pcm: seq<Byte>): State
    requires s.cfg.stride > 0
  {
    s.(stream := Append(s.stream, pcm),
       ledger := if s.flags.started
                 then s.ledger.(uncharged := s.ledger.uncharged + |pcm| / s.cfg.stride)
                 else s.ledger)
  }

  /** `chargePlaybackCredit` on entry to the holding slot. */
  function Hold(s: State, frames: nat): State {
    s.(ledger := s.ledger.(credit := if s.flags.started then s.ledger.credit - frames else s.ledger.credit,
                           held := s.ledger.held + frames))
  }

  /** `submitHeldQuantum`: republished without a second charge. */
  function PublishHeld(s: State, pcm: seq<Byte>): State
    requires s.cfg.stride > 0 && |pcm| / s.cfg.stride <= s.ledger.held
  {
    s.(stream := Append(s.stream, pcm),
       ledger := s.ledger.(held := s.ledger.held - |pcm| / s.cfg.stride))
  }

  // ---- Control thread -------------------------------------------------------------------

  function DescriptorFrames(lengths: seq<nat>, stride: nat): (r: seq<nat>)
    requires stride > 0
    ensures |r| == |lengths|
    ensures forall k :: 0 <= k < |r| ==> r[k] == lengths[k] / stride
  {
    seq(|lengths|, k requires 0 <= k < |lengths| => lengths[k] / stride)
  }

  /** What every transfer is primed to carry. */
  function Plans(ts: seq<Transfer>): (plans: seq<seq<nat>>)
    ensures |plans| == |ts| && forall t :: 0 <= t < |ts| ==> plans[t] == ts[t].lengths
  {
    seq(|ts|, t requires 0 <= t < |ts| => ts[t].lengths)
  }

  /** The first `count` transfers drained in order from the primed ring. */
  function InitialFills(ring: seq<Byte>, transfers: seq<Transfer>, count: nat, stride: nat): (r: seq<Filled>)
    requires stride > 0 && count <= |transfers|
    ensures |r| == count
  {
    if count == 0 then []
    else
      var fills := InitialFills(ring, transfers, count - 1, stride);
      var rest := if fills == [] then ring else fills[count - 2].rest;
      fills + [Fill(rest, DescriptorFrames(transfers[count - 1].lengths, stride), stride)]
  }

  /** The first `count` submissions, of which those below `accepted` go through. */
  function SubmitInitial(b: Bus, st: Stream, fills: seq<Filled>, count: nat, accepted: nat, stride: nat)
      : (r: (Bus, Stream))
    requires stride > 0 && count <= |b.transfers| && count <= |fills|
    ensures |r.0.transfers| == |b.transfers|
  {
    if count == 0 then (b, st)
    else
      var (b1, st1) := SubmitInitial(b, st, fills, count - 1, accepted, stride);
      var ok := count - 1 < accepted;
      (Submit(b1, count - 1, fills[count - 1].lengths, stride, ok), Ship(st1, fills[count - 1], ok))
  }

  /** `submitIsoPump`: every OUT transfer drained before the first submission is attempted. */
  function SubmitPump(s: State, feedback: nat, accepted: nat): State
    requires s.cfg.stride > 0
  {
    var n := |s.bus.transfers|;
    var fills := InitialFills(s.stream.ring, s.bus.transfers, n, s.cfg.stride);
    var b := s.bus.(feedback := s.bus.feedback + feedback, inflight := s.bus.inflight + feedback);
    var r := SubmitInitial(b, s.stream, fills, n, accepted, s.cfg.stride);
    s.(bus := r.0, stream := r.1)
  }

  /**
   * `startPlayback`: `feedbackAccepted` and `accepted` count the submissions that succeed before
   * the first refusal, so the start succeeds exactly when they reach both pool sizes.
   */
  function StartPlayback(s: State, feedbackAccepted: nat, accepted: nat): State
    requires s.cfg.stride > 0
  {
    if s.flags.started || s.flags.stopRequested || s.cfg.primeFrames > RingFrames(s) then s
    else
      var fb := Min(feedbackAccepted, s.bus.feedbackPool);
      var u := SubmitPump(s, fb, if fb < s.bus.feedbackPool then 0 else accepted);
      if fb == s.bus.feedbackPool && accepted >= |s.bus.transfers| then
        u.(flags := s.flags.(started := true, streaming := true),
           ledger := s.ledger.(stock := s.ledger.credit + RingFrames(s) + s.ledger.held))
      else u.(flags := s.flags.(stopRequested := true), control := AbortingStart)
  }

  /** `requestStop`. */
  function RequestStop(f: Flags): Flags {
    f.(stopRequested := true, captureActive := false, streaming := false)
  }

  /** `stopIsoPump` after its bounded wait: frees only what nothing can call back into. */
  function StopPlaybackPump(s: State): State {
    if s.bus.inflight != 0 then s.(flags := s.flags.(stopRequested := true))
    else
      s.(bus := s.bus.(pending := [], transfers := [], feedbackPool := 0, queued := 0),
         flags := s.flags.(stopRequested := true, started := false))
  }

  /** `stopCapturePump` after its bounded wait. */
  function StopCapturePump(b: Bus): Bus {
    if b.captureInflight != 0 then b else b.(capturePool := 0)
  }

  /** One phase of `stop()`, or the end of a refused start; callbacks run between phases. */
  function StopPhase(s: State): State {
    match s.control
    case Free => s.(flags := RequestStop(s.flags), control := StoppingPlayback)
    case AbortingStart => StopPlaybackPump(s).(control := Free)
    case StoppingPlayback =>
      StopPlaybackPump(s).(control := StoppingCapture(s.bus.inflight == 0))
    case StoppingCapture(playbackStopped) =>
      s.(bus := StopCapturePump(s.bus), control := Releasing(playbackStopped, s.bus.captureInflight == 0))
    case Releasing(playbackStopped, captureStopped) =>
      s.(control := Free, interfaces := s.interfaces && !(playbackStopped && captureStopped))
  }

  /** `close()` once its own `stop()` has returned. */
  function CloseDevice(s: State): State {
    if s.bus.transfers != [] || s.bus.feedbackPool != 0 || s.bus.capturePool != 0 ||
       s.bus.inflight != 0 || s.bus.captureInflight != 0
    then s
    else s.(deviceOpen := false)
  }
}
