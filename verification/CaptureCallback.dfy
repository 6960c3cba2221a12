/**
 * `onCapture` whole: its guards, the copy into the capture ring, the layouts it logs for playback, the deferred
 * transfers it serves and its own resubmission, over the capture ring and the playback driver together.
 */
module CaptureCallback {
  import opened Core
  import opened CaptureRing
  import opened Driver
  import Capture = CaptureStream
  import CaptureEffects
  import Transport
  import TransportInvariants
  import TransportRuns

  const LAYOUT_LIMIT: nat := 0x1_0000   // a packet's frames are cast to 16 bits before they are logged

  /** `packetOk`, the transfer's own status included. */
  function Checked(status: Transport.Status, packets: seq<Packet>): (r: seq<Packet>)
    ensures |r| == |packets|
  {
    seq(|packets|, k requires 0 <= k < |packets| => packets[k].(completed := packets[k].completed && status == Transport.Completed))
  }

  predicate Carries(p: Packet) {
    p.completed && p.actual > 0
  }

  /** The layout one packet logs: its frames, or zero when it carries none. */
  function Layout(p: Packet, stride: nat): nat
    requires stride > 0
  {
    if Carries(p) then p.actual / stride % LAYOUT_LIMIT else 0
  }

  function Layouts(packets: seq<Packet>, stride: nat): (r: seq<nat>)
    requires stride > 0
    ensures |r| == |packets| && forall k :: 0 <= k < |packets| ==> r[k] == Layout(packets[k], stride)
  {
    seq(|packets|, k requires 0 <= k < |packets| => Layout(packets[k], stride))
  }

  /** Past the guards: everything before them leaves ring and layouts alone. */
  predicate Serves(s: Transport.State, status: Transport.Status) {
    s.flags.captureActive && status != Transport.Cancelled && !s.flags.stopRequested && status != Transport.NoDevice
  }

  /** The callback's data path: a store per packet that carries frames, and one publish. */
  function CopySteps(serves: bool, packets: seq<Packet>, buffer: seq<Byte>, stride: nat): seq<Capture.Step>
    requires stride > 0 && LaidOut(packets, 0, |buffer|, stride)
  {
    if serves then [Capture.Begin] + Stores(packets, buffer, 0, stride) + [Capture.Publish] else []
  }

  function EndSteps(ends: bool): seq<Capture.Step> {
    if ends then [Capture.Deactivate] else []
  }

  method StoreCapture(capture: Ring, buffer: array<Byte>, serves: bool, packets: seq<Packet>)
    requires capture.Mirrors() && !capture.spec.busy
    requires buffer != capture.data && LaidOut(packets, 0, buffer.Length, capture.stride)
    modifies capture.data, capture`head, capture`spec
    ensures capture.Mirrors() && !capture.spec.busy
    ensures capture.spec == Capture.Run(old(capture.spec), CopySteps(serves, packets, buffer[..], capture.stride))
    ensures buffer[..] == old(buffer[..])
  {
    if serves {
      capture.OnCapture(buffer, packets);
    }
  }

  /** A failed transport ends capture. */
  method EndCapture(capture: Ring, ends: bool, ghost start: Capture.State, ghost steps: seq<Capture.Step>)
    requires capture.Mirrors() && !capture.spec.busy && capture.spec == Capture.Run(start, steps)
    modifies capture`active, capture`spec
    ensures capture.Mirrors() && !capture.spec.busy && capture.spec == Capture.Run(start, steps + EndSteps(ends))
    ensures capture.active == (old(capture.active) && !ends)
  {
    if ends {
      capture.Deactivate(steps, start);
    } else {
      assert steps + [] == steps;
    }
  }

  /** Nothing of the capture ring is the playback driver's. */
  ghost predicate Apart(d: UacDriver, capture: Ring)
  {
    capture.data != d.ring.data && capture.data !in d.buffers
  }

  /** The capture half: the playback driver is not touched. */
  method CopyPackets(d: UacDriver, capture: Ring, buffer: array<Byte>, status: Transport.Status, packets: seq<Packet>,
                     ghost s: Transport.State)
    requires d.Shape() && d.Refines(s, 0)
    requires capture.Mirrors() && !capture.spec.busy && Apart(d, capture)
    requires buffer != capture.data && LaidOut(packets, 0, buffer.Length, capture.stride)
    modifies capture.data, capture`head, capture`spec
    ensures d.Shape() && d.Refines(s, 0) && capture.Mirrors() && !capture.spec.busy && Apart(d, capture)
    ensures capture.spec == Capture.Run(old(capture.spec), CopySteps(Serves(s, status), packets, old(buffer[..]), capture.stride))
  {
    var serves := d.captureActive && status != Transport.Cancelled && !d.stopRequested && status != Transport.NoDevice;
    StoreCapture(capture, buffer, serves, packets);
  }

  /** The playback half; the capture ring is as the copy left it. */
  method ServePlayback(d: UacDriver, capture: Ring, status: Transport.Status, layouts: seq<nat>, oks: seq<bool>, ok: bool,
                       ghost s: Transport.State, ghost u: Transport.State)
    requires d.Shape() && d.Refines(s, 0) && s.bus.captureInflight > 0
    requires |s.clock.layouts| <= |s.clock.log| && Transport.PendingInPool(s.bus)
    requires u == Transport.OnCapture(s, status, layouts, oks, ok)
    requires capture.Mirrors() && Apart(d, capture)
    modifies d, d.ring`tail, d.layouts, d.layouts.slots, d.pending, d.pending.slots, d.buffers
    ensures d.Shape() && d.Refines(u, 0) && capture.Mirrors() && unchanged(capture)
    ensures d.captureActive == u.flags.captureActive && (u.flags.captureActive ==> s.flags.captureActive)
  {
    d.OnCapture(status, layouts, oks, ok, s);
  }

  /** The transport step, given what the packets carried. */
  function Outcome(s: Transport.State, status: Transport.Status, packets: seq<Packet>, oks: seq<bool>, ok: bool, stride: nat)
      : Transport.State
    requires stride > 0 && s.cfg.stride > 0 && |s.clock.layouts| <= |s.clock.log| && Transport.PendingInPool(s.bus)
  {
    Transport.OnCapture(s, status, Layouts(packets, stride), oks, ok)
  }

  /** `onCapture`. */
  method OnCapture(d: UacDriver, capture: Ring, buffer: array<Byte>, status: Transport.Status, packets: seq<Packet>,
                   oks: seq<bool>, ok: bool, ghost s: Transport.State)
    requires d.Shape() && d.Refines(s, 0) && s.bus.captureInflight > 0
    requires |s.clock.layouts| <= |s.clock.log| && Transport.PendingInPool(s.bus)
    requires capture.Mirrors() && !capture.spec.busy && capture.active == d.captureActive && Apart(d, capture)
    requires buffer != capture.data && LaidOut(Checked(status, packets), 0, buffer.Length, capture.stride)
    modifies d, d.ring`tail, d.layouts, d.layouts.slots, d.pending, d.pending.slots, d.buffers, capture, capture.data
    ensures d.Shape() && capture.Mirrors() && !capture.spec.busy && capture.active == d.captureActive
    ensures var r := Checked(status, packets);
            var u := Outcome(s, status, r, oks, ok, capture.stride);
            && d.Refines(u, 0)
            && capture.spec == Capture.Run(old(capture.spec),
                                           CopySteps(Serves(s, status), r, old(buffer[..]), capture.stride)
                                           + EndSteps(s.flags.captureActive && !u.flags.captureActive))
  {
    var checked := Checked(status, packets);
    ghost var steps := CopySteps(Serves(s, status), checked, buffer[..], capture.stride);
    CopyPackets(d, capture, buffer, status, checked, s);
    ServePlayback(d, capture, status, Layouts(checked, capture.stride), oks, ok, s,
                  Outcome(s, status, checked, oks, ok, capture.stride));
    EndCapture(capture, capture.active && !d.captureActive, old(capture.spec), steps);
  }

  /** Frames per packet as the callback measures them: none unless transfer and packet completed. */
  ghost predicate Measured(frames: seq<nat>, status: Transport.Status, packets: seq<Packet>, stride: nat)
    requires stride > 0
  {
    && |frames| == |packets|
    && forall k :: 0 <= k < |packets| ==>
         frames[k] == if status == Transport.Completed && packets[k].completed then packets[k].actual / stride % 0x1_0000 else 0
  }

  /**
   * What reaches the layout FIFO is the frames of each capture packet, in order, zero for a failed one; behind them the
   * callback is the capture event of the runs.
   */
  lemma CallbackHears(s: Transport.State, status: Transport.Status, packets: seq<Packet>, oks: seq<bool>, ok: bool, stride: nat,
                      frames: seq<nat>)
    requires stride > 0 && TransportInvariants.Inv(s) && s.bus.captureInflight > 0 && Measured(frames, status, packets, stride)
    ensures var u := Outcome(s, status, Checked(status, packets), oks, ok, stride);
            var e := TransportRuns.Capture(status, frames, oks, ok);
            && CaptureEffects.Suffix(s.clock) && CaptureEffects.CaptureOutcome(s, u, e)
            && u.clock.log == s.clock.log + (if Serves(s, status) && s.cfg.implicit then frames else [])
  {
    WholeProduct(0, stride);
    assert frames == Layouts(Checked(status, packets), stride);
    HeardBy(s, status, frames, oks, ok, Transport.OnCapture(s, status, frames, oks, ok));
  }

  lemma HeardBy(s: Transport.State, status: Transport.Status, frames: seq<nat>, oks: seq<bool>, ok: bool, u: Transport.State)
    requires TransportInvariants.Inv(s) && s.bus.captureInflight > 0 && u == Transport.OnCapture(s, status, frames, oks, ok)
    ensures CaptureEffects.Suffix(s.clock) && CaptureEffects.CaptureOutcome(s, u, TransportRuns.Capture(status, frames, oks, ok))
    ensures u.clock.log == s.clock.log + (if Serves(s, status) && s.cfg.implicit then frames else [])
  {
    var e := TransportRuns.Capture(status, frames, oks, ok);
    CaptureEffects.CaptureStep(s, e, u);
    CaptureEffects.CaptureLogs(s, e);
  }

  lemma CheckedNext(status: Transport.Status, packets: seq<Packet>)
    requires packets != []
    ensures Checked(status, packets) != [] && Checked(status, packets)[1..] == Checked(status, packets[1..])
    ensures Checked(status, packets)[0] == packets[0].(completed := packets[0].completed && status == Transport.Completed)
  {
  }

  lemma {:induction false} SameLayout(status: Transport.Status, packets: seq<Packet>, at: nat, size: nat, stride: nat)
    requires stride > 0 && LaidOut(packets, at, size, stride)
    ensures LaidOut(Checked(status, packets), at, size, stride)
    decreases |packets|
  {
    if packets != [] {
      CheckedNext(status, packets);
      SameLayout(status, packets[1..], at + packets[0].length, size, stride);
    }
  }

  /** Packets of a completed transfer carry what they carried, those of any other nothing. */
  lemma {:induction false} SamePayload(status: Transport.Status, packets: seq<Packet>, checked: seq<Packet>, buffer: seq<Byte>,
                                       at: nat, stride: nat)
    requires stride > 0 && LaidOut(packets, at, |buffer|, stride) && LaidOut(checked, at, |buffer|, stride)
    requires checked == Checked(status, packets)
    ensures Payload(checked, buffer, at, stride)
            == if status == Transport.Completed then Payload(packets, buffer, at, stride) else []
    decreases |packets|
  {
    if packets != [] {
      CheckedNext(status, packets);
      SamePayload(status, packets[1..], checked[1..], buffer, at + packets[0].length, stride);
    }
  }

  /**
   * What the callback copies: past its guards, the completed packets of a completed transfer, whole frames from the start
   * as far as the ring has room, published at once; otherwise nothing. A failed transport then ends capture.
   */
  lemma CallbackCopies(c: Capture.State, serves: bool, status: Transport.Status, packets: seq<Packet>, buffer: seq<Byte>, ends: bool)
    requires Capture.Inv(c) && !c.busy && LaidOut(packets, 0, |buffer|, c.stride)
    ensures LaidOut(Checked(status, packets), 0, |buffer|, c.stride)
    ensures var payload := if serves && status == Transport.Completed then Payload(packets, buffer, 0, c.stride) else [];
            var n := Min(|payload|, WholeOf(|c.ring| - (c.head - c.tail), c.stride));
            var u := Capture.Run(c, CopySteps(serves, Checked(status, packets), buffer, c.stride) + EndSteps(ends));
            && u.written == c.written + payload[..n] && u.head == c.head + n && u.tail == c.tail
            && u.active == (c.active && !ends) && u.live == c.live && u.region == c.region && !u.busy
  {
    SameLayout(status, packets, 0, |buffer|, c.stride);
    SamePayload(status, packets, Checked(status, packets), buffer, 0, c.stride);
    var steps := CopySteps(serves, Checked(status, packets), buffer, c.stride);
    var v := Capture.Run(c, steps);
    Copied(c, serves, Checked(status, packets), buffer, v);
    RunConcat(c, steps, EndSteps(ends));
    Ends(v, ends);
  }

  lemma Copied(c: Capture.State, serves: bool, checked: seq<Packet>, buffer: seq<Byte>, v: Capture.State)
    requires Capture.Inv(c) && !c.busy && LaidOut(checked, 0, |buffer|, c.stride)
    requires v == Capture.Run(c, CopySteps(serves, checked, buffer, c.stride))
    ensures var payload := if serves then Payload(checked, buffer, 0, c.stride) else [];
            var n := Min(|payload|, WholeOf(|c.ring| - (c.head - c.tail), c.stride));
            && Capture.Sane(v) && v.written == c.written + payload[..n] && v.head == c.head + n && v.tail == c.tail
            && v.active == c.active && v.live == c.live && v.region == c.region && !v.busy
  {
    if serves {
      CallbackAdmits(c, checked, buffer);
    } else {
      assert c.written + [] == c.written;
    }
  }

  lemma Ends(c: Capture.State, ends: bool)
    requires Capture.Sane(c)
    ensures Capture.Run(c, EndSteps(ends)) == c.(active := c.active && !ends)
  {
    if ends {
      RunOne(c, Capture.Deactivate);
    }
  }

  // ---- Layouts against capture frames ---------------------------------------------------------

  /** A whole packet with room for it is kept whole. */
  lemma KeptWhole(n: nat, free: nat, stride: nat)
    requires stride > 0 && n % stride == 0 && n <= free
    ensures Capture.Keep(n, free, stride) == n
  {
    DivMonotone(n, free, stride);
    assert free - free % stride == free / stride * stride;
    assert (free / stride - n / stride) * stride >= 0;
  }

  lemma FrontSum(x: nat, xs: seq<nat>, stride: nat)
    ensures Sum([x] + xs) * stride == x * stride + Sum(xs) * stride
  {
    SumConcat([x], xs);
    assert [x][..0] == [];
    assert (x + Sum(xs)) * stride == x * stride + Sum(xs) * stride;
  }

  lemma CarriedWhole(p: Packet, stride: nat)
    requires stride > 0 && p.actual % stride == 0 && p.actual / stride < LAYOUT_LIMIT
    ensures Layout(p, stride) * stride == if Carries(p) then p.actual else 0
  {
  }

  lemma FirstLayout(packets: seq<Packet>, stride: nat)
    requires stride > 0 && packets != []
    requires packets[0].actual % stride == 0 && packets[0].actual / stride < LAYOUT_LIMIT
    ensures Sum(Layouts(packets, stride)) * stride
            == (if Carries(packets[0]) then packets[0].actual else 0) + Sum(Layouts(packets[1..], stride)) * stride
  {
    assert Layouts(packets, stride) == [Layout(packets[0], stride)] + Layouts(packets[1..], stride);
    FrontSum(Layout(packets[0], stride), Layouts(packets[1..], stride), stride);
    CarriedWhole(packets[0], stride);
  }

  lemma AdmitOne(c: Capture.State, payload: seq<Byte>)
    requires Capture.Sane(c) && c.busy && |payload| % c.stride == 0
    requires Capture.Keep(|payload|, |c.ring| - (c.writeHead - c.seenTail), c.stride) == |payload|
    ensures var u := Capture.Next(c, Capture.Store(payload));
            Capture.Sane(u) && u.busy && u.stride == c.stride && |u.ring| == |c.ring| && u.seenTail == c.seenTail
            && u.writeHead == c.writeHead + |payload|
  {
  }

  /** Bytes of the packets that carry frames. */
  function Carried(packets: seq<Packet>): nat {
    if packets == [] then 0 else (if Carries(packets[0]) then packets[0].actual else 0) + Carried(packets[1..])
  }

  lemma {:induction false} CarriedIsLogged(packets: seq<Packet>, at: nat, size: nat, stride: nat)
    requires stride > 0 && LaidOut(packets, at, size, stride)
    requires forall k :: 0 <= k < |packets| ==> packets[k].actual / stride < LAYOUT_LIMIT
    ensures Sum(Layouts(packets, stride)) * stride == Carried(packets)
    decreases |packets|
  {
    if packets != [] {
      FirstLayout(packets, stride);
      CarriedIsLogged(packets[1..], at + packets[0].length, size, stride);
    }
  }

  lemma {:induction false} CarriedIsAdmitted(c: Capture.State, packets: seq<Packet>, buffer: seq<Byte>, at: nat, stride: nat)
    requires Capture.Sane(c) && c.busy && c.stride == stride && LaidOut(packets, at, |buffer|, stride)
    requires Carried(packets) <= |c.ring| - (c.writeHead - c.seenTail)
    ensures StoreAll(c, packets, buffer, at, stride).writeHead == c.writeHead + Carried(packets)
    decreases |packets|
  {
    if packets != [] {
      var p, rest := packets[0], packets[1..];
      RoomForPacket(packets, at, |buffer|, stride);
      if Carries(p) {
        KeptWhole(p.actual, |c.ring| - (c.writeHead - c.seenTail), stride);
        AdmitOne(c, buffer[at..at + p.actual]);
        CarriedIsAdmitted(Capture.Next(c, Capture.Store(buffer[at..at + p.actual])), rest, buffer, at + p.length, stride);
      } else {
        CarriedIsAdmitted(c, rest, buffer, at + p.length, stride);
      }
    }
  }

  /**
   * The frames a callback logs for playback are the frames it admits to the capture ring, whenever the ring
   * has room for them: playback sends what was captured, no frame more or less.
   */
  lemma LayoutsCountAdmitted(c: Capture.State, packets: seq<Packet>, buffer: seq<Byte>, at: nat, stride: nat)
    requires Capture.Sane(c) && c.busy && c.stride == stride && LaidOut(packets, at, |buffer|, stride)
    requires forall k :: 0 <= k < |packets| ==> packets[k].actual / stride < LAYOUT_LIMIT
    requires Sum(Layouts(packets, stride)) * stride <= |c.ring| - (c.writeHead - c.seenTail)
    ensures StoreAll(c, packets, buffer, at, stride).writeHead == c.writeHead + Sum(Layouts(packets, stride)) * stride
  {
    CarriedIsLogged(packets, at, |buffer|, stride);
    CarriedIsAdmitted(c, packets, buffer, at, stride);
  }
}
