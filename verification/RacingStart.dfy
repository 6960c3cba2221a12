/**
 * A start that races with the producer against a start as one step. `Transport.StartPlayback` fills every
 * transfer from the ring it finds; the driver's loop may see bytes committed behind its back. With the
 * initial plan covered by the prime the two agree, and what raced is as if committed afterwards.
 */
module RacingStart {
  import opened Core
  import opened Transport
  import opened TransportSafety
  import opened InitialPrime
  import opened InitialSubmission

  /** A transfer filled packet by packet, and the same transfer filled by the transport step. */
  ghost predicate Agree(p: Pumped, f: Filled) {
    p.lengths == f.lengths && p.payload == f.payload
  }

  lemma QuietPacketFills(p: Pumped, at: nat, planned: nat, f: Filled, g: Filled)
    requires at + planned <= |p.buffer| && Agree(p, f) && p.ring == f.rest
    requires var n := Min(planned, |f.rest|); g == Filled(f.lengths + [n], f.payload + f.rest[..n], f.rest[n..])
    ensures var q := Packet(p, at, planned, []); Agree(q, g) && q.ring == g.rest
  {
    assert p.ring + [] == p.ring;
  }

  lemma DescriptorPrefix(plan: seq<nat>, n: nat, stride: nat)
    requires stride > 0 && n <= |plan|
    ensures DescriptorFrames(plan, stride)[..n] == DescriptorFrames(plan[..n], stride)
  {
  }

  /** With nothing arriving, one transfer's loop is the transport's drain. */
  lemma {:induction false} QuietPumpFills(ring: seq<Byte>, plan: seq<nat>, stale: seq<Byte>, stride: nat)
    requires stride > 0 && AllWhole(plan, stride) && Sum(plan) <= |stale|
    ensures var p := Pump(ring, plan, Quiet(|plan|), stale); var f := Fill(ring, DescriptorFrames(plan, stride), stride);
            Agree(p, f) && p.ring == f.rest
    decreases |plan|
  {
    if plan != [] {
      var n := |plan| - 1;
      assert Quiet(|plan|)[..n] == Quiet(n);
      QuietPumpFills(ring, plan[..n], stale, stride);
      DescriptorPrefix(plan, n, stride);
      WholeFrames(plan[n], stride);
      QuietPacketFills(Pump(ring, plan[..n], Quiet(n), stale), Sum(plan[..n]), plan[n],
                       Fill(ring, DescriptorFrames(plan[..n], stride), stride),
                       Fill(ring, DescriptorFrames(plan, stride), stride));
    }
  }

  ghost predicate AllAgree(r: Pumps, fills: seq<Filled>) {
    |r.filled| == |fills| && forall t :: 0 <= t < |fills| ==> Agree(r.filled[t], fills[t])
  }

  lemma OneMoreAgrees(r: Pumps, fills: seq<Filled>, p: Pumped, f: Filled)
    requires AllAgree(r, fills) && Agree(p, f)
    ensures AllAgree(Pumps(p.ring, r.filled + [p]), fills + [f])
  {
  }

  /** With nothing arriving, the loop over all transfers is the transport's initial fill, prime or no prime. */
  lemma {:induction false} QuietStart(ring: seq<Byte>, ts: seq<Transfer>, count: nat, stales: seq<seq<Byte>>, stride: nat)
    requires stride > 0 && count <= |ts| && forall t :: 0 <= t < |ts| ==> AllWhole(ts[t].lengths, stride)
    requires Buffered(Plans(ts)[..count], stales)
    ensures var plans := Plans(ts)[..count]; var r := PumpAll(ring, plans, QuietAll(plans), stales);
            var fills := InitialFills(ring, ts, count, stride);
            AllAgree(r, fills) && r.ring == Before(ring, fills, count)
  {
    if count > 0 {
      var n, plans := count - 1, Plans(ts)[..count];
      assert plans[..n] == Plans(ts)[..n];
      assert QuietAll(plans)[..n] == QuietAll(plans[..n]);
      var r, fills := PumpAll(ring, plans[..n], QuietAll(plans[..n]), stales[..n]), InitialFills(ring, ts, n, stride);
      QuietStart(ring, ts, n, stales[..n], stride);
      var p, f := Pump(r.ring, plans[n], Quiet(|plans[n]|), stales[n]), Fill(r.ring, DescriptorFrames(plans[n], stride), stride);
      QuietPumpFills(r.ring, plans[n], stales[n], stride);
      assert PumpAll(ring, plans, QuietAll(plans), stales) == Pumps(p.ring, r.filled + [p]);
      assert InitialFills(ring, ts, count, stride) == fills + [f];
      OneMoreAgrees(r, fills, p, f);
    }
  }

  /** A transfer the prime covers is filled alike whatever arrives. */
  lemma ArrivalsDoNotMatter(ring: seq<Byte>, plans: seq<seq<nat>>, arrivals: seq<seq<seq<Byte>>>, stales: seq<seq<Byte>>, t: nat)
    requires Matched(plans, arrivals, stales) && |ring| >= Total(plans) && t < |plans|
    ensures var p, q := PumpAll(ring, plans, arrivals, stales).filled[t], PumpAll(ring, plans, QuietAll(plans), stales).filled[t];
            p.lengths == q.lengths && p.payload == q.payload && ReadBack(p)
  {
    ExactPrime(ring, plans, arrivals, stales, t);
    ExactPrime(ring, plans, QuietAll(plans), stales, t);
  }

  /** Two fills of the same transfers that ship and send alike. */
  ghost predicate Alike(r: Pumps, q: Pumps) {
    && |r.filled| == |q.filled|
    && forall t :: 0 <= t < |r.filled| ==>
         r.filled[t].lengths == q.filled[t].lengths && r.filled[t].payload == q.filled[t].payload
  }

  lemma RacingIsQuiet(ring: seq<Byte>, plans: seq<seq<nat>>, arrivals: seq<seq<seq<Byte>>>, stales: seq<seq<Byte>>)
    requires Matched(plans, arrivals, stales) && |ring| >= Total(plans)
    ensures var r := PumpAll(ring, plans, arrivals, stales);
            Alike(r, PumpAll(ring, plans, QuietAll(plans), stales)) && AllReadBack(r)
  {
    forall t | 0 <= t < |plans|
      ensures var p, q := PumpAll(ring, plans, arrivals, stales).filled[t], PumpAll(ring, plans, QuietAll(plans), stales).filled[t];
              p.lengths == q.lengths && p.payload == q.payload && ReadBack(p)
    {
      ArrivalsDoNotMatter(ring, plans, arrivals, stales, t);
    }
  }

  /** With the plan covered, any race fills what one step fills, and leaves the arrivals behind what it leaves. */
  lemma RacingFills(ring: seq<Byte>, ts: seq<Transfer>, arrivals: seq<seq<seq<Byte>>>, stales: seq<seq<Byte>>, stride: nat)
    requires stride > 0 && forall t :: 0 <= t < |ts| ==> AllWhole(ts[t].lengths, stride)
    requires Matched(Plans(ts), arrivals, stales) && |ring| >= Total(Plans(ts))
    ensures var r := PumpAll(ring, Plans(ts), arrivals, stales); var fills := InitialFills(ring, ts, |ts|, stride);
            AllAgree(r, fills) && AllReadBack(r) && r.ring == Before(ring, fills, |ts|) + FlatAll(arrivals)
  {
    var plans := Plans(ts);
    assert plans[..|ts|] == plans;
    QuietStart(ring, ts, |ts|, stales, stride);
    QuietLeaves(ring, plans, stales);
    ArrivalsQueueBehind(ring, plans, arrivals, stales);
    RacingIsQuiet(ring, plans, arrivals, stales);
  }

  /** What the device is given, transfer by transfer. */
  function Payloads(filled: seq<Pumped>): seq<Byte> {
    if filled == [] then [] else Payloads(filled[..|filled| - 1]) + filled[|filled| - 1].payload
  }

  /** With every submission accepted, what goes out is what was filled, in order. */
  lemma {:induction false} AcceptedSends(b: Bus, st: Stream, fills: seq<Filled>, count: nat, accepted: nat, stride: nat,
                                         filled: seq<Pumped>)
    requires stride > 0 && count <= accepted && count <= |b.transfers| && count <= |fills| == |filled|
    requires forall t :: 0 <= t < count ==> filled[t].payload == fills[t].payload
    ensures SubmitInitial(b, st, fills, count, accepted, stride).1.sent == st.sent + Payloads(filled[..count])
  {
    if count == 0 {
      assert st.sent + [] == st.sent;
    } else {
      AcceptedSends(b, st, fills, count - 1, accepted, stride, filled);
      assert filled[..count][..count - 1] == filled[..count - 1];
      assert st.sent + Payloads(filled[..count - 1]) + filled[count - 1].payload
          == st.sent + (Payloads(filled[..count - 1]) + filled[count - 1].payload);
    }
  }

  lemma PrimeInBytes(frames: nat, ringBytes: nat, stride: nat)
    requires stride > 0 && frames <= ringBytes / stride
    ensures frames * stride <= ringBytes
  {
    ScaleBound(frames, ringBytes / stride, stride);
  }

  /**
   * A start whose prime covers the plan, raced by any commits at any packets: the device reads exactly the
   * bytes the one-step start sends, and the ring is that step's, followed by the commits.
   */
  lemma RacingStartIsAtomic(s: State, arrivals: seq<seq<seq<Byte>>>, stales: seq<seq<Byte>>)
    requires s.cfg.stride > 0 && forall t :: 0 <= t < |s.bus.transfers| ==> AllWhole(s.bus.transfers[t].lengths, s.cfg.stride)
    requires Matched(Plans(s.bus.transfers), arrivals, stales)
    requires !s.flags.started && !s.flags.stopRequested
    requires s.cfg.primeFrames <= RingFrames(s) && Total(Plans(s.bus.transfers)) <= s.cfg.primeFrames * s.cfg.stride
    ensures var r := PumpAll(s.stream.ring, Plans(s.bus.transfers), arrivals, stales);
            var u := StartPlayback(s, s.bus.feedbackPool, |s.bus.transfers|);
            && AllReadBack(r) && u.flags.started && u.stream.sent == s.stream.sent + Payloads(r.filled)
            && r.ring == PublishFree(u, FlatAll(arrivals)).stream.ring
  {
    var ts, n := s.bus.transfers, |s.bus.transfers|;
    var r := PumpAll(s.stream.ring, Plans(ts), arrivals, stales);
    var fills := InitialFills(s.stream.ring, ts, n, s.cfg.stride);
    PrimeInBytes(s.cfg.primeFrames, |s.stream.ring|, s.cfg.stride);
    RacingFills(s.stream.ring, ts, arrivals, stales, s.cfg.stride);
    StartedStream(s, fills, r.filled);
  }

  lemma StartedStream(s: State, fills: seq<Filled>, filled: seq<Pumped>)
    requires s.cfg.stride > 0 && !s.flags.started && !s.flags.stopRequested && s.cfg.primeFrames <= RingFrames(s)
    requires fills == InitialFills(s.stream.ring, s.bus.transfers, |s.bus.transfers|, s.cfg.stride)
    requires |filled| == |fills| && forall t :: 0 <= t < |fills| ==> filled[t].payload == fills[t].payload
    ensures var u := StartPlayback(s, s.bus.feedbackPool, |s.bus.transfers|);
            && u.flags.started && u.stream.sent == s.stream.sent + Payloads(filled)
            && u.stream.ring == Before(s.stream.ring, fills, |fills|)
  {
    var n := |s.bus.transfers|;
    var b := s.bus.(feedback := s.bus.feedback + s.bus.feedbackPool, inflight := s.bus.inflight + s.bus.feedbackPool);
    AcceptedSends(b, s.stream, fills, n, n, s.cfg.stride, filled);
    AttemptsRewrite(b, s.stream, fills, n, n, s.cfg.stride);
    assert filled[..n] == filled;
  }
}
