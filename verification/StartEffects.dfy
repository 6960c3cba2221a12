/**
 * What starting playback puts on the bus, over every run: which stretch of the prime each transfer carries and in which
 * packets, what a refusal part way leaves, and when nothing happens at all. Nothing here calls the step it is about.
 */
module StartEffects {
  import opened Core
  import opened Transport
  import opened TransportInvariants
  import opened TransportSafety
  import opened TransportRuns
  import opened InitialSubmission
  import opened CompletionEffects

  /** Bytes the first `count` transfers are primed to carry. */
  function PrimedBytes(ts: seq<Transfer>, count: nat): nat
    requires count <= |ts|
  {
    if count == 0 then 0 else PrimedBytes(ts, count - 1) + Sum(ts[count - 1].lengths)
  }

  /** How far into the ring the first `count` transfers reach. */
  function Reach(ts: seq<Transfer>, count: nat, buffered: nat): (r: nat)
    requires count <= |ts|
    ensures r <= buffered
  {
    Min(PrimedBytes(ts, count), buffered)
  }

  function InFrames(bytes: nat, stride: nat): nat
    requires stride > 0
  {
    bytes / stride
  }

  // ---- The fill ---------------------------------------------------------------------------------

  lemma {:induction false} FramesInBytes(lengths: seq<nat>, stride: nat)
    requires stride > 0 && AllWhole(lengths, stride)
    ensures Sum(DescriptorFrames(lengths, stride)) * stride == Sum(lengths)
  {
    if lengths != [] {
      var front, plan := lengths[..|lengths| - 1], DescriptorFrames(lengths, stride);
      FramesInBytes(front, stride);
      assert plan[..|plan| - 1] == DescriptorFrames(front, stride);
      WholeFrames(lengths[|lengths| - 1], stride);
      SumScaled(plan, stride);
    }
  }

  /** Cutting by frames of whole-frame packets is cutting by their bytes. */
  lemma CutInBytes(lengths: seq<nat>, primed: seq<nat>, stride: nat, buffered: nat)
    requires stride > 0 && AllWhole(primed, stride) && Packed(lengths, DescriptorFrames(primed, stride), stride, buffered)
    ensures Packed(lengths, primed, 1, buffered)
  {
    var plan := DescriptorFrames(primed, stride);
    forall k | 0 <= k < |primed|
      ensures lengths[k] == PacketBytes(primed, k, 1, buffered)
    {
      FramesInBytes(primed[..k], stride);
      assert plan[..k] == DescriptorFrames(primed[..k], stride);
      WholeFrames(primed[k], stride);
    }
  }

  /** Transfer `t` takes its stretch of the ring, and leaves what is behind it. */
  ghost predicate TakesStretch(ring: seq<Byte>, ts: seq<Transfer>, f: Filled, t: nat)
    requires t < |ts|
  {
    var from, to := Reach(ts, t, |ring|), Reach(ts, t + 1, |ring|);
    from <= to && f.payload == ring[from..to] && f.rest == ring[to..] && Packed(f.lengths, ts[t].lengths, 1, |ring| - from)
  }

  lemma StretchFrom(ring: seq<Byte>, from: nat, n: nat)
    requires from + n <= |ring|
    ensures ring[from..][..n] == ring[from..from + n] && ring[from..][n..] == ring[from + n..]
  {
  }

  lemma FillTakes(ring: seq<Byte>, ts: seq<Transfer>, t: nat, stride: nat, f: Filled)
    requires stride > 0 && t < |ts| && AllWhole(ts[t].lengths, stride)
    requires f == Fill(ring[Reach(ts, t, |ring|)..], DescriptorFrames(ts[t].lengths, stride), stride)
    ensures TakesStretch(ring, ts, f, t)
  {
    var from, lengths := Reach(ts, t, |ring|), ts[t].lengths;
    var n := Min(Sum(lengths), |ring| - from);
    FillCuts(ring[from..], lengths, stride, f, n);
    StretchFrom(ring, from, n);
  }

  /** A fill from primed packets drains their bytes as far as there are any. */
  lemma FillCuts(before: seq<Byte>, lengths: seq<nat>, stride: nat, f: Filled, n: nat)
    requires stride > 0 && AllWhole(lengths, stride) && f == Fill(before, DescriptorFrames(lengths, stride), stride)
    requires n == Min(Sum(lengths), |before|)
    ensures f.payload == before[..n] && f.rest == before[n..] && Packed(f.lengths, lengths, 1, |before|)
  {
    FramesInBytes(lengths, stride);
    FillExactly(before, DescriptorFrames(lengths, stride), stride);
    CutInBytes(f.lengths, lengths, stride, |before|);
  }

  /** So does every transfer of the initial fill. */
  lemma {:induction false} FillsTake(cfg: Config, ring: seq<Byte>, ts: seq<Transfer>, t: nat)
    requires cfg.stride > 0 && t < |ts| && forall i :: 0 <= i < |ts| ==> DescriptorsOk(ts[i], cfg)
    ensures TakesStretch(ring, ts, InitialFills(ring, ts, |ts|, cfg.stride)[t], t)
  {
    var fills := InitialFills(ring, ts, |ts|, cfg.stride);
    FillAt(ring, ts, |ts|, cfg.stride, t);
    if t == 0 {
      assert ring[0..] == ring;
    } else {
      FillsTake(cfg, ring, ts, t - 1);
    }
    FillTakes(ring, ts, t, cfg.stride, fills[t]);
  }

  // ---- The submissions --------------------------------------------------------------------------

  /** What `count` attempts leave, of which those below `accepted` go through. */
  ghost predicate Submitted(b: Bus, st: Stream, fills: seq<Filled>, count: nat, accepted: nat, stride: nat, r: (Bus, Stream))
    requires stride > 0 && count <= |b.transfers| == |fills|
  {
    var ts, n := b.transfers, |st.ring|;
    var through := Min(count, accepted);
    && |r.0.transfers| == |ts|
    && (forall t :: 0 <= t < count ==> r.0.transfers[t] == Transfer(if t < accepted then InFlight else ts[t].place, fills[t].lengths))
    && (forall t :: count <= t < |ts| ==> r.0.transfers[t] == ts[t])
    && r.0 == b.(transfers := r.0.transfers, inflight := b.inflight + through,
                 queued := b.queued + InFrames(Reach(ts, through, n), stride))
    && Reach(ts, through, n) <= Reach(ts, count, n)
    && r.1 == Stream(st.ring[Reach(ts, count, n)..], st.committed, st.sent + st.ring[..Reach(ts, through, n)],
                     st.lost + st.ring[Reach(ts, through, n)..Reach(ts, count, n)])
  }

  ghost predicate WholeFill(f: Filled, from: nat, to: nat, stride: nat)
    requires stride > 0
  {
    from <= to && Frames(f.lengths, stride) + from / stride == to / stride
  }

  lemma AttemptSent(b: Bus, st: Stream, fills: seq<Filled>, k: nat, accepted: nat, stride: nat, r: (Bus, Stream))
    requires stride > 0 && k < |b.transfers| == |fills| && k < accepted && Submitted(b, st, fills, k, accepted, stride, r)
    requires TakesStretch(st.ring, b.transfers, fills[k], k)
    requires WholeFill(fills[k], Reach(b.transfers, k, |st.ring|), Reach(b.transfers, k + 1, |st.ring|), stride)
    ensures Submitted(b, st, fills, k + 1, accepted, stride,
                      (Submit(r.0, k, fills[k].lengths, stride, true), Ship(r.1, fills[k], true)))
  {
    var from, to := Reach(b.transfers, k, |st.ring|), Reach(b.transfers, k + 1, |st.ring|);
    SentOn(st, from, to);
    assert r.0.queued + Frames(fills[k].lengths, stride) == b.queued + InFrames(to, stride);
  }

  lemma SentOn(st: Stream, from: nat, to: nat)
    requires from <= to <= |st.ring|
    ensures st.sent + st.ring[..from] + st.ring[from..to] == st.sent + st.ring[..to]
    ensures st.ring[to..to] == [] && st.ring[from..from] == []
  {
    assert st.ring[..from] + st.ring[from..to] == st.ring[..to];
  }

  lemma AttemptLost(b: Bus, st: Stream, fills: seq<Filled>, k: nat, accepted: nat, stride: nat, r: (Bus, Stream))
    requires stride > 0 && k < |b.transfers| == |fills| && accepted <= k && Submitted(b, st, fills, k, accepted, stride, r)
    requires TakesStretch(st.ring, b.transfers, fills[k], k)
    ensures Submitted(b, st, fills, k + 1, accepted, stride,
                      (Submit(r.0, k, fills[k].lengths, stride, false), Ship(r.1, fills[k], false)))
  {
    var gone, from, to := Reach(b.transfers, accepted, |st.ring|), Reach(b.transfers, k, |st.ring|), Reach(b.transfers, k + 1, |st.ring|);
    assert st.lost + st.ring[gone..from] + st.ring[from..to] == st.lost + st.ring[gone..to];
  }

  lemma {:induction false} ReachWhole(cfg: Config, ts: seq<Transfer>, count: nat, buffered: nat)
    requires cfg.stride > 0 && count <= |ts| && buffered % cfg.stride == 0
    requires forall i :: 0 <= i < |ts| ==> DescriptorsOk(ts[i], cfg)
    ensures PrimedBytes(ts, count) % cfg.stride == 0 && Reach(ts, count, buffered) % cfg.stride == 0
  {
    if count == 0 {
      WholeProduct(0, cfg.stride);
    } else {
      ReachWhole(cfg, ts, count - 1, buffered);
      WholeLengths(ts[count - 1].lengths, cfg.stride);
      WholeSum(PrimedBytes(ts, count - 1), Sum(ts[count - 1].lengths), cfg.stride);
    }
  }

  lemma FillIsWhole(cfg: Config, ring: seq<Byte>, ts: seq<Transfer>, k: nat, f: Filled, before: seq<Byte>)
    requires cfg.Valid() && k < |ts| && |ring| % cfg.stride == 0 && forall i :: 0 <= i < |ts| ==> DescriptorsOk(ts[i], cfg)
    requires TakesStretch(ring, ts, f, k) && |before| % cfg.stride == 0
    requires f == Fill(before, DescriptorFrames(ts[k].lengths, cfg.stride), cfg.stride)
    ensures WholeFill(f, Reach(ts, k, |ring|), Reach(ts, k + 1, |ring|), cfg.stride)
  {
    FillFrames(cfg, before, ts[k], f);
    ReachesWhole(cfg, ts, k, |ring|);
    StretchIsWhole(ring, ts, k, f, cfg.stride);
  }

  lemma FillFrames(cfg: Config, before: seq<Byte>, x: Transfer, f: Filled)
    requires cfg.Valid() && |before| % cfg.stride == 0 && DescriptorsOk(x, cfg)
    requires f == Fill(before, DescriptorFrames(x.lengths, cfg.stride), cfg.stride)
    ensures Frames(f.lengths, cfg.stride) == |f.payload| / cfg.stride
  {
    InitialFill(cfg, before, x);
  }

  lemma ReachesWhole(cfg: Config, ts: seq<Transfer>, k: nat, buffered: nat)
    requires cfg.stride > 0 && k < |ts| && buffered % cfg.stride == 0
    requires forall i :: 0 <= i < |ts| ==> DescriptorsOk(ts[i], cfg)
    ensures Reach(ts, k, buffered) % cfg.stride == 0 && Reach(ts, k + 1, buffered) % cfg.stride == 0
  {
    ReachWhole(cfg, ts, k, buffered);
    ReachWhole(cfg, ts, k + 1, buffered);
  }

  lemma StretchIsWhole(ring: seq<Byte>, ts: seq<Transfer>, k: nat, f: Filled, stride: nat)
    requires stride > 0 && k < |ts| && TakesStretch(ring, ts, f, k)
    requires Reach(ts, k, |ring|) % stride == 0 && Reach(ts, k + 1, |ring|) % stride == 0
    requires Frames(f.lengths, stride) == |f.payload| / stride
    ensures WholeFill(f, Reach(ts, k, |ring|), Reach(ts, k + 1, |ring|), stride)
  {
    WholeDifference(Reach(ts, k + 1, |ring|), Reach(ts, k, |ring|), stride);
  }

  /** Everything about the fill of transfer `k` that its submission needs. */
  ghost predicate FillDue(cfg: Config, ring: seq<Byte>, ts: seq<Transfer>, f: Filled, k: nat)
    requires cfg.stride > 0 && k < |ts|
  {
    TakesStretch(ring, ts, f, k) && WholeFill(f, Reach(ts, k, |ring|), Reach(ts, k + 1, |ring|), cfg.stride)
  }

  /** Transfer `k` of the initial fill: what it was filled from, and its stretch and that of the one before. */
  ghost predicate FillPlace(cfg: Config, ring: seq<Byte>, ts: seq<Transfer>, fills: seq<Filled>, k: nat)
    requires cfg.stride > 0 && k < |ts|
  {
    && |fills| == |ts|
    && fills[k] == Fill(Before(ring, fills, k), DescriptorFrames(ts[k].lengths, cfg.stride), cfg.stride)
    && TakesStretch(ring, ts, fills[k], k)
    && (k > 0 ==> TakesStretch(ring, ts, fills[k - 1], k - 1))
  }

  lemma FillsPlaced(cfg: Config, ring: seq<Byte>, ts: seq<Transfer>, fills: seq<Filled>, k: nat)
    requires cfg.stride > 0 && k < |ts| && forall i :: 0 <= i < |ts| ==> DescriptorsOk(ts[i], cfg)
    requires fills == InitialFills(ring, ts, |ts|, cfg.stride)
    ensures FillPlace(cfg, ring, ts, fills, k)
  {
    FillAt(ring, ts, |ts|, cfg.stride, k);
    FillsTake(cfg, ring, ts, k);
    if k > 0 {
      FillsTake(cfg, ring, ts, k - 1);
    }
  }

  lemma PlacedIsDue(cfg: Config, ring: seq<Byte>, ts: seq<Transfer>, fills: seq<Filled>, k: nat)
    requires cfg.Valid() && k < |ts| && |ring| % cfg.stride == 0 && forall i :: 0 <= i < |ts| ==> DescriptorsOk(ts[i], cfg)
    requires FillPlace(cfg, ring, ts, fills, k)
    ensures FillDue(cfg, ring, ts, fills[k], k)
  {
    if k == 0 {
      FillIsWhole(cfg, ring, ts, k, fills[k], ring);
    } else {
      LaterFill(cfg, ring, ts, k, fills[k], fills[k - 1]);
    }
  }

  lemma LaterFill(cfg: Config, ring: seq<Byte>, ts: seq<Transfer>, k: nat, f: Filled, prev: Filled)
    requires cfg.Valid() && 0 < k < |ts| && |ring| % cfg.stride == 0 && forall i :: 0 <= i < |ts| ==> DescriptorsOk(ts[i], cfg)
    requires TakesStretch(ring, ts, f, k) && TakesStretch(ring, ts, prev, k - 1)
    requires f == Fill(prev.rest, DescriptorFrames(ts[k].lengths, cfg.stride), cfg.stride)
    ensures FillDue(cfg, ring, ts, f, k)
  {
    RestWhole(cfg, ring, ts, k - 1, prev.rest, prev);
    FillIsWhole(cfg, ring, ts, k, f, prev.rest);
  }

  lemma RestWhole(cfg: Config, ring: seq<Byte>, ts: seq<Transfer>, k: nat, rest: seq<Byte>, f: Filled)
    requires cfg.Valid() && k < |ts| && |ring| % cfg.stride == 0 && forall i :: 0 <= i < |ts| ==> DescriptorsOk(ts[i], cfg)
    requires TakesStretch(ring, ts, f, k) && rest == f.rest
    ensures |rest| % cfg.stride == 0
  {
    var to := Reach(ts, k + 1, |ring|);
    ReachWhole(cfg, ts, k + 1, |ring|);
    WholeDifference(|ring|, to, cfg.stride);
    assert |rest| == |ring| - to;
  }

  lemma NoAttempt(b: Bus, st: Stream, fills: seq<Filled>, accepted: nat, stride: nat)
    requires stride > 0 && |fills| == |b.transfers|
    ensures Submitted(b, st, fills, 0, accepted, stride, (b, st))
  {
    WholeProduct(0, stride);
    assert st.ring[0..] == st.ring && st.sent + st.ring[..0] == st.sent && st.lost + st.ring[0..0] == st.lost;
  }

  lemma NextAttempt(cfg: Config, b: Bus, st: Stream, fills: seq<Filled>, k: nat, accepted: nat, r: (Bus, Stream), next: (Bus, Stream))
    requires cfg.stride > 0 && k < |b.transfers| == |fills| && FillDue(cfg, st.ring, b.transfers, fills[k], k)
    requires Submitted(b, st, fills, k, accepted, cfg.stride, r)
    requires next.0 == Submit(r.0, k, fills[k].lengths, cfg.stride, k < accepted) && next.1 == Ship(r.1, fills[k], k < accepted)
    ensures Submitted(b, st, fills, k + 1, accepted, cfg.stride, next)
  {
    assert next == (next.0, next.1);
    if k < accepted {
      AttemptSent(b, st, fills, k, accepted, cfg.stride, r);
    } else {
      AttemptLost(b, st, fills, k, accepted, cfg.stride, r);
    }
  }

  lemma {:induction false} AttemptsSubmit(cfg: Config, b: Bus, st: Stream, fills: seq<Filled>, count: nat, accepted: nat, r: (Bus, Stream))
    requires cfg.stride > 0 && count <= |b.transfers| == |fills|
    requires forall k :: 0 <= k < |fills| ==> FillDue(cfg, st.ring, b.transfers, fills[k], k)
    requires r == SubmitInitial(b, st, fills, count, accepted, cfg.stride)
    ensures Submitted(b, st, fills, count, accepted, cfg.stride, r)
  {
    if count == 0 {
      NoAttempt(b, st, fills, accepted, cfg.stride);
    } else {
      var k := count - 1;
      var q := SubmitInitial(b, st, fills, k, accepted, cfg.stride);
      AttemptsSubmit(cfg, b, st, fills, k, accepted, q);
      OneAttempt(b, st, fills, k, accepted, cfg.stride, q, r);
      assert FillDue(cfg, st.ring, b.transfers, fills[k], k);
      NextAttempt(cfg, b, st, fills, k, accepted, q, r);
    }
  }

  lemma OneAttempt(b: Bus, st: Stream, fills: seq<Filled>, k: nat, accepted: nat, stride: nat, q: (Bus, Stream), r: (Bus, Stream))
    requires stride > 0 && k < |b.transfers| && k < |fills|
    requires q == SubmitInitial(b, st, fills, k, accepted, stride) && r == SubmitInitial(b, st, fills, k + 1, accepted, stride)
    ensures |q.0.transfers| == |b.transfers|
    ensures r.0 == Submit(q.0, k, fills[k].lengths, stride, k < accepted) && r.1 == Ship(q.1, fills[k], k < accepted)
  {
  }

  // ---- The start --------------------------------------------------------------------------------

  /** A start on a primed ring: how many feedback and OUT submissions went through. */
  ghost predicate Pumped(s: State, u: State, feedback: nat, through: nat)
    requires s.cfg.stride > 0 && through <= |s.bus.transfers|
  {
    var ts, n, ring := s.bus.transfers, |s.bus.transfers|, s.stream.ring;
    var sent, drained := Reach(ts, through, |ring|), Reach(ts, n, |ring|);
    && |u.bus.transfers| == n && sent <= drained
    && (forall t :: 0 <= t < n ==>
          && u.bus.transfers[t].place == (if t < through then InFlight else Idle)
          && Packed(u.bus.transfers[t].lengths, ts[t].lengths, 1, |ring| - Reach(ts, t, |ring|)))
    && u.bus == s.bus.(transfers := u.bus.transfers, feedback := feedback, inflight := feedback + through,
                       queued := InFrames(sent, s.cfg.stride))
    && u.stream == Stream(ring[drained..], s.stream.committed, s.stream.sent + ring[..sent], s.stream.lost + ring[sent..drained])
  }

  /** Everything a start may do. */
  ghost predicate StartOutcome(s: State, u: State, feedbackAccepted: nat, accepted: nat)
    requires s.cfg.stride > 0
  {
    if s.flags.started || s.flags.stopRequested || |s.stream.ring| < s.cfg.primeFrames * s.cfg.stride then u == s
    else if feedbackAccepted < s.bus.feedbackPool || accepted < |s.bus.transfers| then
      && Pumped(s, u, Min(feedbackAccepted, s.bus.feedbackPool), if feedbackAccepted < s.bus.feedbackPool then 0 else accepted)
      && u == s.(bus := u.bus, stream := u.stream, flags := s.flags.(stopRequested := true), control := AbortingStart)
    else
      && Pumped(s, u, s.bus.feedbackPool, |s.bus.transfers|)
      && u == s.(bus := u.bus, stream := u.stream, flags := s.flags.(started := true, streaming := true),
                 ledger := s.ledger.(stock := s.ledger.credit + |s.stream.ring| / s.cfg.stride + s.ledger.held))
  }

  lemma PumpedBy(s: State, fb: nat, accepted: nat, through: nat)
    requires Inv(s) && !s.flags.started && !s.flags.stopRequested && fb <= s.bus.feedbackPool
    requires through == Min(accepted, |s.bus.transfers|)
    ensures var u := SubmitPump(s, fb, accepted); Pumped(s, u, fb, through) && u == s.(bus := u.bus, stream := u.stream)
  {
    var n, fills := |s.bus.transfers|, InitialFills(s.stream.ring, s.bus.transfers, |s.bus.transfers|, s.cfg.stride);
    var b := s.bus.(feedback := s.bus.feedback + fb, inflight := s.bus.inflight + fb);
    var r := SubmitInitial(b, s.stream, fills, n, accepted, s.cfg.stride);
    AllFillsDue(s, fills);
    NothingOnBus(s);
    PumpIs(s, fb, accepted, fills, b, r);
    PumpedAs(s, fills, fb, accepted, through, b, r);
  }

  lemma PumpIs(s: State, fb: nat, accepted: nat, fills: seq<Filled>, b: Bus, r: (Bus, Stream))
    requires s.cfg.stride > 0 && fills == InitialFills(s.stream.ring, s.bus.transfers, |s.bus.transfers|, s.cfg.stride)
    requires b == s.bus.(feedback := s.bus.feedback + fb, inflight := s.bus.inflight + fb)
    requires r == SubmitInitial(b, s.stream, fills, |s.bus.transfers|, accepted, s.cfg.stride)
    ensures SubmitPump(s, fb, accepted) == s.(bus := r.0, stream := r.1)
  {
  }

  lemma PumpedAs(s: State, fills: seq<Filled>, fb: nat, accepted: nat, through: nat, b: Bus, r: (Bus, Stream))
    requires s.cfg.stride > 0 && |fills| == |s.bus.transfers| && through == Min(|s.bus.transfers|, accepted)
    requires s.bus.feedback == 0 && s.bus.inflight == 0 && s.bus.queued == 0
    requires forall t :: 0 <= t < |fills| ==> s.bus.transfers[t].place.Idle?
    requires forall t :: 0 <= t < |fills| ==> FillDue(s.cfg, s.stream.ring, s.bus.transfers, fills[t], t)
    requires b == s.bus.(feedback := fb, inflight := fb)
    requires r == SubmitInitial(b, s.stream, fills, |fills|, accepted, s.cfg.stride)
    ensures Pumped(s, s.(bus := r.0, stream := r.1), fb, through)
  {
    AttemptsSubmit(s.cfg, b, s.stream, fills, |fills|, accepted, r);
    PumpedFrom(s, fills, fb, accepted, through, b, r, s.(bus := r.0, stream := r.1));
  }

  lemma AllFillsDue(s: State, fills: seq<Filled>)
    requires Inv(s) && fills == InitialFills(s.stream.ring, s.bus.transfers, |s.bus.transfers|, s.cfg.stride)
    ensures forall k :: 0 <= k < |fills| ==> FillDue(s.cfg, s.stream.ring, s.bus.transfers, fills[k], k)
  {
    forall k | 0 <= k < |fills|
      ensures FillDue(s.cfg, s.stream.ring, s.bus.transfers, fills[k], k)
    {
      FillsPlaced(s.cfg, s.stream.ring, s.bus.transfers, fills, k);
      PlacedIsDue(s.cfg, s.stream.ring, s.bus.transfers, fills, k);
    }
  }

  lemma NothingOnBus(s: State)
    requires Inv(s) && !s.flags.started && !s.flags.stopRequested
    ensures s.bus.feedback == 0 && s.bus.inflight == 0 && s.bus.queued == 0
    ensures forall t :: 0 <= t < |s.bus.transfers| ==> s.bus.transfers[t].place.Idle?
  {
    CountIdle(s.bus.transfers, s.cfg.stride);
  }

  /** The bus after the attempts: `through` of the transfers on it, each with its share of the prime as its packets. */
  lemma PumpedBus(b: Bus, st: Stream, cfg: Config, fills: seq<Filled>, accepted: nat, through: nat, r: (Bus, Stream), t: nat)
    requires cfg.stride > 0 && t < |fills| == |b.transfers| && through == Min(|fills|, accepted)
    requires b.transfers[t].place.Idle? && FillDue(cfg, st.ring, b.transfers, fills[t], t)
    requires Submitted(b, st, fills, |fills|, accepted, cfg.stride, r)
    ensures |r.0.transfers| == |fills| && r.0.transfers[t].place == (if t < through then InFlight else Idle)
    ensures Packed(r.0.transfers[t].lengths, b.transfers[t].lengths, 1, |st.ring| - Reach(b.transfers, t, |st.ring|))
  {
  }

  lemma PumpedFrom(s: State, fills: seq<Filled>, fb: nat, accepted: nat, through: nat, b: Bus,
                   r: (Bus, Stream), u: State)
    requires s.cfg.stride > 0 && |fills| == |s.bus.transfers| && through == Min(|s.bus.transfers|, accepted)
    requires s.bus.feedback == 0 && s.bus.inflight == 0 && s.bus.queued == 0
    requires forall t :: 0 <= t < |fills| ==> s.bus.transfers[t].place.Idle?
    requires forall t :: 0 <= t < |fills| ==> FillDue(s.cfg, s.stream.ring, s.bus.transfers, fills[t], t)
    requires b == s.bus.(feedback := fb, inflight := fb)
    requires Submitted(b, s.stream, fills, |fills|, accepted, s.cfg.stride, r) && u.bus == r.0 && u.stream == r.1
    ensures Pumped(s, u, fb, through)
  {
    forall t | 0 <= t < |fills|
      ensures u.bus.transfers[t].place == (if t < through then InFlight else Idle)
      ensures Packed(u.bus.transfers[t].lengths, s.bus.transfers[t].lengths, 1,
                     |s.stream.ring| - Reach(s.bus.transfers, t, |s.stream.ring|))
    {
      PumpedBus(b, s.stream, s.cfg, fills, accepted, through, r, t);
    }
    PumpedTotals(b, s.stream, fills, accepted, through, s.cfg.stride, r);
  }

  lemma PumpedTotals(b: Bus, st: Stream, fills: seq<Filled>, accepted: nat, through: nat, stride: nat, r: (Bus, Stream))
    requires stride > 0 && |fills| == |b.transfers| && through == Min(|fills|, accepted)
    requires Submitted(b, st, fills, |fills|, accepted, stride, r)
    ensures var sent, drained := Reach(b.transfers, through, |st.ring|), Reach(b.transfers, |fills|, |st.ring|);
            && |r.0.transfers| == |fills| && sent <= drained
            && r.0 == b.(transfers := r.0.transfers, inflight := b.inflight + through, queued := b.queued + InFrames(sent, stride))
            && r.1 == Stream(st.ring[drained..], st.committed, st.sent + st.ring[..sent], st.lost + st.ring[sent..drained])
  {
  }

  lemma StartStep(s: State, feedbackAccepted: nat, accepted: nat, u: State)
    requires Inv(s) && u == StartPlayback(s, feedbackAccepted, accepted)
    ensures StartOutcome(s, u, feedbackAccepted, accepted)
  {
    WholeBelow(s.cfg.primeFrames, |s.stream.ring|, s.cfg.stride);
    if !s.flags.started && !s.flags.stopRequested && s.cfg.primeFrames <= RingFrames(s) {
      var fb := Min(feedbackAccepted, s.bus.feedbackPool);
      var reached := if fb < s.bus.feedbackPool then 0 else accepted;
      PumpedBy(s, fb, reached, Min(reached, |s.bus.transfers|));
      StartedFrom(s, feedbackAccepted, accepted, SubmitPump(s, fb, reached), u);
    }
  }

  lemma StartedFrom(s: State, feedbackAccepted: nat, accepted: nat, p: State, u: State)
    requires s.cfg.stride > 0 && !s.flags.started && !s.flags.stopRequested && s.cfg.primeFrames <= RingFrames(s)
    requires u == StartPlayback(s, feedbackAccepted, accepted)
    requires var fb := Min(feedbackAccepted, s.bus.feedbackPool); var reached := if fb < s.bus.feedbackPool then 0 else accepted;
             p == SubmitPump(s, fb, reached) && p == s.(bus := p.bus, stream := p.stream)
             && Pumped(s, p, fb, Min(reached, |s.bus.transfers|))
    ensures StartOutcome(s, u, feedbackAccepted, accepted)
  {
    WholeBelow(s.cfg.primeFrames, |s.stream.ring|, s.cfg.stride);
    assert u.bus == p.bus && u.stream == p.stream;
  }

  /**
   * Every start of every run: refused outright and nothing changes; or the transfers share out the prime in order, each
   * packet its planned bytes as far as the ring lasts, those accepted on the bus, and the rest of what was drained lost
   * to a start that fails.
   */
  lemma StartEffect(run: seq<State>, events: seq<Event>, i: nat)
    requires IsRun(run, events) && i < |events| && events[i].Start? && Enabled(run[i], events[i]) && run[i].cfg.stride > 0
    ensures StartOutcome(run[i], run[i + 1], events[i].feedbackAccepted, events[i].accepted)
  {
    RunHolds(run, events, i);
    StartStep(run[i], events[i].feedbackAccepted, events[i].accepted, run[i + 1]);
  }
}
