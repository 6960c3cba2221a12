/** The initial fill and submission of the OUT pool, piece by piece, as the driver's loops reach them. */
module InitialSubmission {
  import opened Core
  import opened Transport
  import opened TransportSafety

  lemma WholeFrames(bytes: nat, stride: nat)
    requires stride > 0 && bytes % stride == 0
    ensures bytes / stride * stride == bytes
  {
  }

  /** The fills depend only on the ring and the primed descriptors, each drawing on what the one before left. */
  lemma {:induction false} FillAt(ring: seq<Byte>, ts: seq<Transfer>, count: nat, stride: nat, t: nat)
    requires stride > 0 && t < count <= |ts|
    ensures var fills := InitialFills(ring, ts, count, stride);
            fills[t] == Fill(Before(ring, fills, t), DescriptorFrames(ts[t].lengths, stride), stride)
  {
    if t < count - 1 {
      FillAt(ring, ts, count - 1, stride, t);
      var front, fills := InitialFills(ring, ts, count - 1, stride), InitialFills(ring, ts, count, stride);
      assert fills[..count - 1] == front;
      assert fills[..count - 1][t] == fills[t] && (t > 0 ==> fills[..count - 1][t - 1] == fills[t - 1]);
    }
  }

  /** What attempting `count` submissions does besides counting and sending. */
  lemma {:induction false} AttemptsRewrite(b: Bus, st: Stream, fills: seq<Filled>, count: nat, accepted: nat, stride: nat)
    requires stride > 0 && count <= |b.transfers| && count <= |fills|
    ensures var r := SubmitInitial(b, st, fills, count, accepted, stride);
            && (forall t :: 0 <= t < count ==> r.0.transfers[t].lengths == fills[t].lengths)
            && (forall t :: count <= t < |b.transfers| ==> r.0.transfers[t] == b.transfers[t])
            && r.0.captureInflight == b.captureInflight && r.0.pending == b.pending
            && r.1.ring == Before(st.ring, fills, count)
  {
    if count > 0 {
      AttemptsRewrite(b, st, fills, count - 1, accepted, stride);
    }
  }

  /** One more accepted submission. */
  lemma AcceptedAttempt(b: Bus, st: Stream, fills: seq<Filled>, k: nat, accepted: nat, stride: nat)
    requires stride > 0 && k < accepted && k < |b.transfers| && k < |fills|
    ensures var r, u := SubmitInitial(b, st, fills, k, accepted, stride), SubmitInitial(b, st, fills, k + 1, accepted, stride);
            && u.0.inflight == r.0.inflight + 1 && u.0.queued == r.0.queued + Frames(fills[k].lengths, stride)
            && u.1.sent == r.1.sent + fills[k].payload
  {
  }

  /** From the first refusal on nothing is counted or sent. */
  lemma {:induction false} RefusedAttempts(b: Bus, st: Stream, fills: seq<Filled>, count: nat, accepted: nat, stride: nat)
    requires stride > 0 && accepted <= count <= |b.transfers| && count <= |fills|
    ensures var r, u := SubmitInitial(b, st, fills, accepted, accepted, stride), SubmitInitial(b, st, fills, count, accepted, stride);
            u.0.inflight == r.0.inflight && u.0.queued == r.0.queued && u.1.sent == r.1.sent
  {
    if accepted < count {
      RefusedAttempts(b, st, fills, count - 1, accepted, stride);
    }
  }
}
