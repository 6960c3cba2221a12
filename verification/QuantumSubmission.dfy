/**
 * `submitQuantum` whole: the gate, the room the producer is allowed, the credit it pays, the packing across
 * the wrap and the publish, against the transport's publish steps.
 */
module QuantumSubmission {
  import opened Core
  import opened Transport
  import opened PlaybackRing
  import opened PcmFormat
  import opened PcmPacking
  import opened Driver
  import TransportInvariants
  import TransportRuns
  import RenderEffects
  import CompletionEffects

  /** Frames the producer may have queued: `writableFrames`' limit, before and after the start. */
  function FrameLimit(s: State, headroom: nat): nat {
    (if s.flags.started then s.cfg.target else s.cfg.primeFrames) + headroom
  }

  /** The whole quantum fits under the limit and in the ring's storage. */
  predicate RoomFor(s: State, frames: nat, headroom: nat, capacity: nat)
    requires s.cfg.stride > 0
  {
    RingFrames(s) + frames <= FrameLimit(s, headroom) && frames <= (capacity - |s.stream.ring|) / s.cfg.stride
  }

  /** The publish a submission amounts to. */
  function Published(s: State, pcm: seq<Byte>, charge: bool, seen: nat): State
    requires s.cfg.stride > 0
  {
    if charge then PublishCharged(s, pcm, seen) else PublishFree(s, pcm)
  }

  /** The step's ring and credit are all a driver can see of a publish. */
  ghost predicate Visible(s: State, u: State, pcm: seq<Byte>) {
    && u == s.(stream := u.stream, ledger := u.ledger) && u.stream.sent == s.stream.sent
    && u.stream.ring == s.stream.ring + pcm && u.ledger.credit == s.ledger.credit
  }

  /** What the producer pays before it packs. */
  function Paid(s: State, frames: nat, charge: bool): State {
    if charge then Charged(s, frames) else s
  }

  lemma PublishedVisible(s: State, pcm: seq<Byte>, frames: nat, charge: bool, seen: nat)
    requires s.cfg.stride > 0 && |pcm| == frames * s.cfg.stride && (charge ==> CreditAdmits(s, frames, seen))
    ensures Visible(Paid(s, frames, charge), Published(s, pcm, charge, seen), pcm)
  {
    WholeProduct(frames, s.cfg.stride);
  }

  lemma HeldVisible(s: State, pcm: seq<Byte>, frames: nat)
    requires s.cfg.stride > 0 && |pcm| == frames * s.cfg.stride && frames <= s.ledger.held
    ensures |pcm| / s.cfg.stride <= s.ledger.held && Visible(s, PublishHeld(s, pcm), pcm)
  {
    WholeProduct(frames, s.cfg.stride);
  }

  method ReserveWhole(d: UacDriver, frames: nat, headroom: nat, ghost s: State) returns (ok: bool, region: Region)
    requires d.Shape() && d.Refines(s, 0) && frames > 0
    ensures ok == RoomFor(s, frames, headroom, d.ring.data.Length)
    ensures ok ==> d.ring.Reserved(region) && region.frames == frames && region.frameStride == d.cfg.stride
  {
    var limit := (if d.started then d.cfg.target else d.cfg.primeFrames) + headroom;
    region := d.ring.PrepareWrite(frames, d.cfg.stride, limit);
    ok := region.frames == frames;
  }

  /** Room for the whole quantum and, if it is charged, credit for it: both, or nothing is touched. */
  method Admit(d: UacDriver, frames: nat, headroom: nat, charge: bool, seen: nat, ghost s: State) returns (ok: bool, region: Region)
    requires d.Shape() && d.Refines(s, 0) && frames > 0
    modifies d`credit
    ensures d.Shape()
    ensures ok <==> RoomFor(s, frames, headroom, d.ring.data.Length) && (charge ==> CreditAdmits(s, frames, seen))
    ensures d.Refines(if ok then Paid(s, frames, charge) else s, 0)
    ensures ok ==> d.ring.Reserved(region) && region.frames == frames && region.frameStride == d.cfg.stride
  {
    ok, region := ReserveWhole(d, frames, headroom, s);
    if ok && charge {
      ok := d.TakeCredit(frames, seen, s);
    }
  }

  lemma QuantumBytes(left: seq<int>, right: seq<int>, l: Layout)
    requires l.Legal() && |left| == |right|
    ensures |Join(QuantumFrames(left, right, l))| == |left| * l.stride
  {
    JoinLength(QuantumFrames(left, right, l), l.stride);
  }

  /** Pack into the reserved spans and publish them. */
  method PackAndCommit(d: UacDriver, region: Region, left: seq<int>, right: seq<int>, l: Layout,
                       ghost s: State, ghost u: State, ghost pcm: seq<Byte>)
    requires d.Shape() && l.Legal() && |left| == |right| == region.frames && region.frameStride == l.stride
    requires d.ring.Reserved(region)
    requires d.Refines(s, 0) && pcm == Join(QuantumFrames(left, right, l)) && Visible(s, u, pcm)
    modifies d.ring`head, d.ring.data
    ensures d.Shape() && d.Refines(u, 0)
  {
    PackReserved(d.ring, region, left, right, l);
    d.ring.CommitWrite(region);
  }

  /**
   * `submitQuantum`: `open` and `stillOpen` are its two reads of the gate, `charge` a charged call under the credit
   * policy, `seen` the queue as the charge loaded it. It publishes the flat block whole and pays for it, or changes
   * nothing at all.
   */
  method SubmitQuantum(d: UacDriver, left: seq<int>, right: seq<int>, l: Layout, headroom: nat, open: bool, stillOpen: bool,
                       charge: bool, seen: nat, ghost s: State)
      returns (submitted: bool)
    requires d.Shape() && d.Refines(s, 0) && l.Legal() && l.stride == d.cfg.stride && |left| == |right|
    modifies d`credit, d.ring`head, d.ring.data
    ensures d.Shape()
    ensures submitted <==>
              && open && stillOpen && 0 < |left| <= MAX_FRAMES_PER_WRITE
              && RoomFor(s, |left|, headroom, d.ring.data.Length)
              && (charge ==> CreditAdmits(s, |left|, seen))
    ensures var pcm := Join(QuantumFrames(left, right, l));
            && |pcm| == |left| * l.stride
            && d.Refines(if submitted then Published(s, pcm, charge, seen) else s, 0)
  {
    ghost var pcm := Join(QuantumFrames(left, right, l));
    QuantumBytes(left, right, l);
    if |left| == 0 || |left| > MAX_FRAMES_PER_WRITE || !open {
      return false;
    }
    if !stillOpen {
      return false;
    }
    var region;
    submitted, region := Admit(d, |left|, headroom, charge, seen, s);
    if submitted {
      PublishedVisible(s, pcm, |left|, charge, seen);
      PackAndCommit(d, region, left, right, l, Paid(s, |left|, charge), Published(s, pcm, charge, seen), pcm);
    }
  }

  /** In frames and bytes: under the limit of its phase, and inside the storage. */
  ghost predicate Fits(s: State, frames: nat, headroom: nat, capacity: nat)
    requires s.cfg.stride > 0
  {
    && |s.stream.ring| / s.cfg.stride + frames <= headroom + (if s.flags.started then s.cfg.target else s.cfg.primeFrames)
    && |s.stream.ring| + frames * s.cfg.stride <= capacity
  }

  lemma RoomIsFit(s: State, frames: nat, headroom: nat, capacity: nat)
    requires s.cfg.stride > 0 && |s.stream.ring| <= capacity
    ensures RoomFor(s, frames, headroom, capacity) <==> Fits(s, frames, headroom, capacity)
  {
    CompletionEffects.WholeBelow(frames, capacity - |s.stream.ring|, s.cfg.stride);
  }

  /**
   * `submitQuantum` in a session: exactly when it accepts. A charged block is refused for credit precisely when ring,
   * slot and block would exceed the prime stock, the target, the reserve and what left the bus since the queue was read
   * at `load`; for room precisely when it would pass the limit of its phase or the storage. Accepted, its flat block is
   * the next event of the run; refused, nothing is touched.
   */
  method SubmitInRun(d: UacDriver, left: seq<int>, right: seq<int>, l: Layout, headroom: nat, open: bool, stillOpen: bool,
                     charge: bool, seen: nat, ghost run: seq<State>, ghost events: seq<TransportRuns.Event>, ghost load: nat)
      returns (submitted: bool)
    requires TransportRuns.IsRun(run, events) && load < |run| && seen == run[load].bus.queued
    requires var s := run[|events|];
             && d.Shape() && d.Refines(s, 0) && l.Legal() && l.stride == d.cfg.stride && |left| == |right|
             && (charge && s.flags.started ==> !s.flags.stopRequested && s.ledger.uncharged == 0)
    modifies d`credit, d.ring`head, d.ring.data
    ensures d.Shape()
    ensures var s := run[|events|];
            submitted <==>
              && open && stillOpen && 0 < |left| <= MAX_FRAMES_PER_WRITE
              && Fits(s, |left|, headroom, d.ring.data.Length)
              && (charge && s.flags.started ==>
                    |s.stream.ring| / s.cfg.stride + s.ledger.held + |left|
                    <= s.ledger.stock + s.cfg.target + s.cfg.reserve + (run[load].bus.queued - s.bus.queued))
    ensures var s, pcm := run[|events|], Join(QuantumFrames(left, right, l));
            d.Refines(if submitted then TransportRuns.Apply(s, if charge then TransportRuns.SubmitCharged(pcm, seen)
                                                              else TransportRuns.SubmitFree(pcm)) else s, 0)
    ensures d.ring.Contents() == old(d.ring.Contents()) + (if submitted then Join(QuantumFrames(left, right, l)) else [])
  {
    ghost var s, pcm := run[|events|], Join(QuantumFrames(left, right, l));
    ghost var u := TransportRuns.Apply(s, if charge then TransportRuns.SubmitCharged(pcm, seen) else TransportRuns.SubmitFree(pcm));
    TransportRuns.RunHolds(run, events, |events|);
    RoomIsFit(s, |left|, headroom, d.ring.data.Length);
    QuantumApplies(s, left, right, l, charge, seen);
    if |left| > 0 && charge {
      PaidInRun(s, |left|, seen);
    }
    submitted := SubmitAs(d, left, right, l, headroom, open, stillOpen, charge, seen, s, u, pcm);
  }

  method SubmitAs(d: UacDriver, left: seq<int>, right: seq<int>, l: Layout, headroom: nat, open: bool, stillOpen: bool,
                  charge: bool, seen: nat, ghost s: State, ghost u: State, ghost pcm: seq<Byte>)
      returns (submitted: bool)
    requires d.Shape() && d.Refines(s, 0) && l.Legal() && l.stride == d.cfg.stride && |left| == |right|
    requires pcm == Join(QuantumFrames(left, right, l)) && u == Published(s, pcm, charge, seen)
    requires charge ==> CreditAdmits(s, |left|, seen) ==> u.stream.ring == s.stream.ring + pcm
    requires !charge ==> u.stream.ring == s.stream.ring + pcm
    modifies d`credit, d.ring`head, d.ring.data
    ensures d.Shape()
    ensures submitted <==>
              && open && stillOpen && 0 < |left| <= MAX_FRAMES_PER_WRITE
              && RoomFor(s, |left|, headroom, d.ring.data.Length)
              && (charge ==> CreditAdmits(s, |left|, seen))
    ensures d.Refines(if submitted then u else s, 0)
    ensures d.ring.Contents() == s.stream.ring + (if submitted then pcm else [])
  {
    submitted := SubmitQuantum(d, left, right, l, headroom, open, stillOpen, charge, seen, s);
  }

  lemma PaidInRun(s: State, frames: nat, seen: nat)
    requires TransportInvariants.Inv(s) && frames > 0
    requires s.flags.started ==> !s.flags.stopRequested && s.ledger.uncharged == 0
    ensures CreditAdmits(s, frames, seen)
            <==> (s.flags.started ==>
                    |s.stream.ring| / s.cfg.stride + s.ledger.held + frames
                    <= s.ledger.stock + s.cfg.target + s.cfg.reserve + (seen - s.bus.queued))
  {
    RenderEffects.AdmitsExactlyWhen(s, frames, seen);
    WholeProduct(0, s.cfg.stride);
  }

  lemma QuantumApplies(s: State, left: seq<int>, right: seq<int>, l: Layout, charge: bool, seen: nat)
    requires TransportRuns.WellFormed(s) && l.Legal() && l.stride == s.cfg.stride && |left| == |right|
    ensures var pcm := Join(QuantumFrames(left, right, l));
            && Published(s, pcm, charge, seen)
               == TransportRuns.Apply(s, if charge then TransportRuns.SubmitCharged(pcm, seen) else TransportRuns.SubmitFree(pcm))
            && ((charge ==> CreditAdmits(s, |left|, seen)) ==> Published(s, pcm, charge, seen).stream.ring == s.stream.ring + pcm)
  {
    QuantumBytes(left, right, l);
    WholeProduct(|left|, s.cfg.stride);
  }

  lemma SameView(d: UacDriver, s: State, u: State, v: State, pcm: seq<Byte>)
    requires d.Shape() && d.Refines(u, 0) && Visible(s, u, pcm) && Visible(s, v, pcm)
    ensures d.Refines(v, 0)
  {
  }

  /** The driver cannot tell a held block republished from an uncharged one; the slot itself is the transport's ledger's. */
  lemma HeldPublishRefines(d: UacDriver, s: State, pcm: seq<Byte>, frames: nat)
    requires s.cfg.stride > 0 && |pcm| == frames * s.cfg.stride && frames <= s.ledger.held
    requires d.Shape() && d.Refines(PublishFree(s, pcm), 0)
    ensures |pcm| / s.cfg.stride <= s.ledger.held && d.Refines(PublishHeld(s, pcm), 0)
  {
    PublishedVisible(s, pcm, frames, false, 0);
    HeldVisible(s, pcm, frames);
    SameView(d, s, Published(s, pcm, false, 0), PublishHeld(s, pcm), pcm);
  }
}
