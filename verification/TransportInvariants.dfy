/** What every reachable transport state satisfies, one predicate per concern. */
module TransportInvariants {
  import opened Core
  import opened Transport

  // ---- Bus ------------------------------------------------------------------------------

  function InFlightCount(ts: seq<Transfer>): nat {
    if ts == [] then 0
    else InFlightCount(ts[..|ts| - 1]) + (if ts[|ts| - 1].place.InFlight? then 1 else 0)
  }

  /** Frames of the descriptors the device still owns. */
  function InFlightFrames(ts: seq<Transfer>, stride: nat): nat
    requires stride > 0
  {
    if ts == [] then 0
    else
      InFlightFrames(ts[..|ts| - 1], stride) +
      (if ts[|ts| - 1].place.InFlight? then Frames(ts[|ts| - 1].lengths, stride) else 0)
  }

  ghost predicate NoDup(xs: seq<nat>) {
    forall i, j :: 0 <= i < j < |xs| ==> xs[i] != xs[j]
  }

  /** Descriptors are whole frames, and packet k ends inside its transfer's buffer. */
  ghost predicate DescriptorsOk(x: Transfer, cfg: Config)
    requires cfg.stride > 0
  {
    && |x.lengths| == cfg.packets
    && AllWhole(x.lengths, cfg.stride)
    && forall k :: 0 <= k < |x.lengths| ==> x.lengths[k] <= cfg.maxFrames * cfg.stride
  }

  ghost predicate BusOk(cfg: Config, b: Bus)
    requires cfg.stride > 0
  {
    && |b.transfers| <= MAX_TRANSFERS
    && (forall t :: 0 <= t < |b.transfers| ==> DescriptorsOk(b.transfers[t], cfg))
    && PendingInPool(b)
    && NoDup(b.pending)
    && (forall t :: 0 <= t < |b.transfers| ==> (b.transfers[t].place.Deferred? <==> t in b.pending))
    && b.inflight == InFlightCount(b.transfers) + b.feedback
    && b.queued == InFlightFrames(b.transfers, cfg.stride)
    && b.feedback <= b.feedbackPool
    && b.captureInflight <= b.capturePool
  }

  // ---- Stream ---------------------------------------------------------------------------

  ghost predicate StreamOk(stride: nat, st: Stream, stopRequested: bool)
    requires stride > 0
  {
    && st.committed == st.sent + st.lost + st.ring
    && |st.ring| % stride == 0
    && |st.lost| % stride == 0
    && (st.lost != [] ==> stopRequested)
  }

  // ---- Clock ----------------------------------------------------------------------------

  function ReadIndex(c: Clock): int {
    |c.log| - |c.layouts|
  }

  /** The step from one prepared packet's log index to the next one's. */
  ghost predicate Follows(c: Clock, prev: nat, next: int) {
    next == prev + 1 || (prev < next && next in c.resyncs)
  }

  ghost predicate ClockOk(maxFrames: nat, c: Clock) {
    && |c.layouts| <= FIFO_CAPACITY
    && |c.layouts| <= |c.log|
    && c.layouts == c.log[ReadIndex(c)..]
    && |c.log| == c.base + |c.plan| + FIFO_CAPACITY * |c.resyncs| + |c.layouts|
    && c.overruns == |c.resyncs|
    && (forall k :: 0 <= k < |c.plan| ==>
          c.plan[k].index < ReadIndex(c) && c.plan[k].frames == Min(c.log[c.plan[k].index], maxFrames))
    && (forall k :: 0 < k < |c.plan| ==> Follows(c, c.plan[k - 1].index, c.plan[k].index))
    && (|c.plan| > 0 ==> Follows(c, c.plan[|c.plan| - 1].index, ReadIndex(c)))
  }

  // ---- Order, ledger, runway, flags, teardown -------------------------------------------

  ghost predicate OrderOk(o: Order, b: Bus, stopRequested: bool) {
    && (b.transfers != [] ==> o.completions == o.resubmits + o.dropped + b.pending)
    && o.resubmits <= o.completions
    && (o.dropped != [] ==> stopRequested)
  }

  ghost predicate LedgerOk(stride: nat, l: Ledger, st: Stream, queued: nat, f: Flags)
    requires stride > 0
  {
    && (f.started ==>
          l.credit + |st.ring| / stride + queued + l.held + |st.lost| / stride + l.retired
          == l.stock + l.uncharged)
    && (l.retired > 0 ==> f.stopRequested)
    && (!f.started && !f.stopRequested ==> l.uncharged == 0)
  }

  ghost predicate RunwayOk(r: Runway, queued: nat) {
    && (r.latch ==> queued == 0)
    && r.events == |r.episodes|
    && (forall i, j :: 0 <= i < j < |r.episodes| ==> r.episodes[i] < r.episodes[j])
    && (|r.episodes| > 0 ==>
          if r.latch then r.episodes[|r.episodes| - 1] == r.loaded
          else r.episodes[|r.episodes| - 1] < r.loaded)
    && (r.latch ==> |r.episodes| > 0)
  }

  ghost predicate FlagsOk(s: State) {
    && (s.flags.failed ==> s.flags.stopRequested && !s.flags.captureActive)
    && (s.cfg.implicit ==> s.flags.captureActive || s.flags.stopRequested)
    && (!s.flags.started && !s.flags.stopRequested ==>
          s.bus.feedback == 0 && !s.runway.latch &&
          forall t :: 0 <= t < |s.bus.transfers| ==> s.bus.transfers[t].place.Idle?)
    && (s.runway.latch ==> s.cfg.implicit)
  }

  ghost predicate PlaybackFreed(b: Bus) {
    b.transfers == [] && b.feedbackPool == 0 && b.inflight == 0 && b.pending == []
  }

  ghost predicate CaptureFreed(b: Bus) {
    b.capturePool == 0 && b.captureInflight == 0
  }

  ghost predicate TeardownOk(s: State) {
    && (s.bus.transfers == [] ==> s.flags.stopRequested && PlaybackFreed(s.bus))
    && (s.control != Control.Free ==> s.flags.stopRequested)
    && (s.control.StoppingCapture? && s.control.playbackStopped ==> PlaybackFreed(s.bus))
    && (s.control.Releasing? && s.control.playbackStopped ==> PlaybackFreed(s.bus))
    && (s.control.Releasing? && s.control.captureStopped ==> CaptureFreed(s.bus))
    && (!s.interfaces ==> PlaybackFreed(s.bus) && CaptureFreed(s.bus))
    && (!s.deviceOpen ==> PlaybackFreed(s.bus) && CaptureFreed(s.bus))
  }

  ghost predicate Inv(s: State) {
    && s.cfg.Valid()
    && BusOk(s.cfg, s.bus)
    && StreamOk(s.cfg.stride, s.stream, s.flags.stopRequested)
    && ClockOk(s.cfg.maxFrames, s.clock)
    && OrderOk(s.order, s.bus, s.flags.stopRequested)
    && LedgerOk(s.cfg.stride, s.ledger, s.stream, s.bus.queued, s.flags)
    && RunwayOk(s.runway, s.bus.queued)
    && FlagsOk(s)
    && TeardownOk(s)
  }

  // ---- Counting over the pool -----------------------------------------------------------

  lemma {:induction false} CountUpdate(ts: seq<Transfer>, t: nat, x: Transfer, stride: nat)
    requires stride > 0 && t < |ts|
    ensures InFlightCount(ts[t := x]) + (if ts[t].place.InFlight? then 1 else 0)
            == InFlightCount(ts) + (if x.place.InFlight? then 1 else 0)
    ensures InFlightFrames(ts[t := x], stride) + (if ts[t].place.InFlight? then Frames(ts[t].lengths, stride) else 0)
            == InFlightFrames(ts, stride) + (if x.place.InFlight? then Frames(x.lengths, stride) else 0)
  {
    var last := |ts| - 1;
    var us := ts[t := x];
    if t == last {
      assert us[..last] == ts[..last];
    } else {
      CountUpdate(ts[..last], t, x, stride);
      assert us[..last] == ts[..last][t := x];
    }
  }

  lemma {:induction false} CountIdle(ts: seq<Transfer>, stride: nat)
    requires stride > 0 && forall t :: 0 <= t < |ts| ==> !ts[t].place.InFlight?
    ensures InFlightCount(ts) == 0 && InFlightFrames(ts, stride) == 0
  {
    if ts != [] {
      CountIdle(ts[..|ts| - 1], stride);
    }
  }

  lemma {:induction false} CountPositive(ts: seq<Transfer>, t: nat)
    requires t < |ts| && ts[t].place.InFlight?
    ensures InFlightCount(ts) >= 1
  {
    if t < |ts| - 1 {
      CountPositive(ts[..|ts| - 1], t);
    }
  }

  ghost function Below(n: nat): (r: set<nat>)
    ensures |r| == n && forall i :: i in r <==> 0 <= i < n
  {
    if n == 0 then {} else Below(n - 1) + {n - 1}
  }

  ghost function Elements(xs: seq<nat>): (r: set<nat>)
    ensures forall x :: x in r <==> x in xs
    ensures NoDup(xs) ==> |r| == |xs|
  {
    if xs == [] then {}
    else
      assert xs == xs[..|xs| - 1] + [xs[|xs| - 1]];
      Elements(xs[..|xs| - 1]) + {xs[|xs| - 1]}
  }

  lemma SubsetSize(a: set<nat>, b: set<nat>)
    requires a <= b
    ensures |a| <= |b|
  {
    assert b == a + (b - a);
  }

  /** The deferral array can never be full when a completion arrives. */
  lemma DeferralArrayHasRoom(cfg: Config, b: Bus, t: nat)
    requires cfg.stride > 0 && BusOk(cfg, b)
    requires t < |b.transfers| && !b.transfers[t].place.Deferred?
    ensures |b.pending| < |b.transfers| <= MAX_TRANSFERS
  {
    var n := |b.transfers|;
    assert Elements(b.pending) <= Below(n) - {t};
    SubsetSize(Elements(b.pending), Below(n) - {t});
  }
}
