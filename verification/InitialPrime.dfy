/**
 * `submitIsoPump` fills the transfers, one after the other, while the producer may still be committing.
 * It places a packet at the sum of the planned lengths and starts over with every transfer; the device
 * reads it at the sum of the lengths shipped.
 */
module InitialPrime {
  import opened Core
  import opened DeviceWire

  /** A transfer as filled: what the ring still holds, the descriptors, the buffer, and the bytes drained. */
  datatype Pumped = Pumped(ring: seq<Byte>, lengths: seq<nat>, buffer: seq<Byte>, payload: seq<Byte>)

  /** One packet: whatever was just committed joins the ring, and what fits the plan goes to its planned place. */
  function Packet(p: Pumped, at: nat, planned: nat, arrival: seq<Byte>): (q: Pumped)
    requires at + planned <= |p.buffer|
    ensures |q.lengths| == |p.lengths| + 1 && |q.buffer| == |p.buffer|
  {
    var have := p.ring + arrival;
    var k := Min(planned, |have|);
    Pumped(have[k..], p.lengths + [k], p.buffer[..at] + have[..k] + p.buffer[at + k..], p.payload + have[..k])
  }

  /** One transfer; `arrivals[k]` are committed just before packet `k`, `stale` is what the buffer held. */
  function Pump(ring: seq<Byte>, plan: seq<nat>, arrivals: seq<seq<Byte>>, stale: seq<Byte>): (p: Pumped)
    requires |plan| == |arrivals| && Sum(plan) <= |stale|
    ensures |p.lengths| == |plan| && |p.buffer| == |stale|
    decreases |plan|
  {
    if plan == [] then Pumped(ring, [], stale, [])
    else
      var n := |plan| - 1;
      Packet(Pump(ring, plan[..n], arrivals[..n], stale), Sum(plan[..n]), plan[n], arrivals[n])
  }

  /** The device reads exactly the bytes that were drained for the transfer. */
  ghost predicate ReadBack(p: Pumped) {
    Sum(p.lengths) <= |p.buffer| && Wire(p.buffer, p.lengths) == p.payload
  }

  function Flat(arrivals: seq<seq<Byte>>): seq<Byte> {
    if arrivals == [] then [] else Flat(arrivals[..|arrivals| - 1]) + arrivals[|arrivals| - 1]
  }

  /** Bytes planned before the last packet that is meant to carry any. */
  function Lead(plan: seq<nat>): (lead: nat)
    ensures lead <= Sum(plan)
  {
    if plan == [] then 0
    else
      var n := |plan| - 1;
      if plan[n] == 0 then Lead(plan[..n]) else Sum(plan[..n])
  }

  lemma {:induction false} ShipsWithinPlan(ring: seq<Byte>, plan: seq<nat>, arrivals: seq<seq<Byte>>, stale: seq<Byte>)
    requires |plan| == |arrivals| && Sum(plan) <= |stale|
    ensures var p := Pump(ring, plan, arrivals, stale);
            && Sum(p.lengths) == |p.payload| <= Sum(plan)
            && p.payload + p.ring == ring + Flat(arrivals)
    decreases |plan|
  {
    if plan != [] {
      var n := |plan| - 1;
      ShipsWithinPlan(ring, plan[..n], arrivals[..n], stale);
      var p := Pump(ring, plan[..n], arrivals[..n], stale);
      var k := Min(plan[n], |p.ring + arrivals[n]|);
      assert (p.lengths + [k])[..n] == p.lengths;
      Rejoin(p.payload, p.ring, arrivals[n], k, ring, Flat(arrivals[..n]));
    }
  }

  lemma Rejoin(payload: seq<Byte>, left: seq<Byte>, arrival: seq<Byte>, k: nat, ring: seq<Byte>, before: seq<Byte>)
    requires payload + left == ring + before && k <= |left + arrival|
    ensures payload + (left + arrival)[..k] + (left + arrival)[k..] == ring + (before + arrival)
  {
    var have := left + arrival;
    assert payload + have[..k] + have[k..] == payload + have;
    assert payload + have == payload + left + arrival;
  }

  /** While the ring covers the plan, every packet ships whole, in place, whatever arrives behind it. */
  lemma {:induction false} CoveredShipsPlan(ring: seq<Byte>, plan: seq<nat>, arrivals: seq<seq<Byte>>, stale: seq<Byte>)
    requires |plan| == |arrivals| && Sum(plan) <= |stale| && Sum(plan) <= |ring|
    ensures var p := Pump(ring, plan, arrivals, stale); var s := Sum(plan);
            && p.lengths == plan && p.payload == ring[..s] && p.buffer == ring[..s] + stale[s..]
            && p.ring == ring[s..] + Flat(arrivals)
    decreases |plan|
  {
    if plan != [] {
      var n := |plan| - 1;
      CoveredShipsPlan(ring, plan[..n], arrivals[..n], stale);
      CoveredPacket(ring, stale, Sum(plan[..n]), plan[n], Flat(arrivals[..n]), arrivals[n]);
      assert plan[..n] + [plan[n]] == plan;
    }
  }

  lemma CoveredPacket(ring: seq<Byte>, stale: seq<Byte>, at: nat, k: nat, before: seq<Byte>, arrival: seq<Byte>)
    requires at + k <= |ring| && at + k <= |stale|
    ensures var have := ring[at..] + before + arrival; var buffer := ring[..at] + stale[at..];
            && k <= |have| && ring[..at] + have[..k] == ring[..at + k]
            && have[k..] == ring[at + k..] + (before + arrival)
            && buffer[..at] + have[..k] + buffer[at + k..] == ring[..at + k] + stale[at + k..]
  {
    var have := ring[at..] + before + arrival;
    assert have[..k] == ring[at..at + k];
  }

  /** A packet planned empty changes nothing the device reads. */
  lemma EmptyPacket(p: Pumped, at: nat, arrival: seq<Byte>)
    requires at <= |p.buffer|
    ensures var q := Packet(p, at, 0, arrival);
            && Sum(q.lengths) == Sum(p.lengths) && q.buffer == p.buffer && q.payload == p.payload
            && (ReadBack(q) <==> ReadBack(p))
  {
    var q := Packet(p, at, 0, arrival);
    EmptyBytes(p, at, p.ring + arrival);
    SameReading(p, q);
  }

  lemma EmptyBytes(p: Pumped, at: nat, have: seq<Byte>)
    requires at <= |p.buffer|
    ensures p.buffer[..at] + have[..0] + p.buffer[at + 0..] == p.buffer
    ensures p.payload + have[..0] == p.payload
    ensures Sum(p.lengths + [0]) == Sum(p.lengths)
  {
    assert (p.lengths + [0])[..|p.lengths|] == p.lengths;
  }

  lemma SameReading(p: Pumped, q: Pumped)
    requires q.buffer == p.buffer && q.payload == p.payload && Sum(q.lengths) == Sum(p.lengths)
    ensures ReadBack(q) <==> ReadBack(p)
  {
    if Sum(p.lengths) <= |p.buffer| {
      WireIsPrefix(p.buffer, p.lengths);
      WireIsPrefix(q.buffer, q.lengths);
    }
  }

  /** A packet placed right behind what the device reads before it is read where it was placed. */
  lemma AlignedPacket(p: Pumped, at: nat, planned: nat, arrival: seq<Byte>)
    requires at + planned <= |p.buffer| && Sum(p.lengths) == at && p.buffer[..at] == p.payload
    ensures ReadBack(Packet(p, at, planned, arrival))
  {
    var q := Packet(p, at, planned, arrival);
    assert q.lengths[..|p.lengths|] == p.lengths;
    WireIsPrefix(q.buffer, q.lengths);
    assert q.buffer[..Sum(q.lengths)] == q.payload;
  }

  /** With enough in the ring for all but the last carrying packet, the device reads what was drained. */
  lemma {:induction false} EnoughReadsBack(ring: seq<Byte>, plan: seq<nat>, arrivals: seq<seq<Byte>>, stale: seq<Byte>)
    requires |plan| == |arrivals| && Sum(plan) <= |stale| && |ring| >= Lead(plan)
    ensures ReadBack(Pump(ring, plan, arrivals, stale))
    decreases |plan|
  {
    if plan != [] {
      var n := |plan| - 1;
      var p := Pump(ring, plan[..n], arrivals[..n], stale);
      if plan[n] == 0 {
        EnoughReadsBack(ring, plan[..n], arrivals[..n], stale);
        EmptyPacket(p, Sum(plan[..n]), arrivals[n]);
      } else {
        CoveredShipsPlan(ring, plan[..n], arrivals[..n], stale);
        AlignedPacket(p, Sum(plan[..n]), plan[n], arrivals[n]);
      }
    }
  }

  // ---- A short prime ------------------------------------------------------------------------

  function Quiet(n: nat): (arrivals: seq<seq<Byte>>)
    ensures |arrivals| == n && forall k :: 0 <= k < n ==> arrivals[k] == []
  {
    seq(n, _ => [])
  }

  /** What a quiet fill of `total` planned bytes leaves: the ring at the start of the buffer, however short it is. */
  ghost predicate QuietlyFilled(p: Pumped, ring: seq<Byte>, stale: seq<Byte>, total: nat)
    requires total <= |stale|
  {
    var s := Min(|ring|, total);
    && p.payload == ring[..s] && p.ring == ring[s..] && p.buffer == ring[..s] + stale[s..] && Sum(p.lengths) == s
  }

  lemma QuietPacket(p: Pumped, ring: seq<Byte>, stale: seq<Byte>, at: nat, planned: nat)
    requires at + planned <= |stale| && QuietlyFilled(p, ring, stale, at)
    ensures QuietlyFilled(Packet(p, at, planned, []), ring, stale, at + planned)
  {
    var q, s := Packet(p, at, planned, []), Min(|ring|, at);
    assert p.ring + [] == p.ring;
    assert Sum(q.lengths) == Sum(p.lengths) + Min(planned, |p.ring|) by {
      assert q.lengths[..|p.lengths|] == p.lengths;
    }
    if s == at {
      QuietBytes(ring, stale, at, Min(planned, |ring| - at));
    } else {
      DryPacket(p, at, planned);
    }
  }

  /** A packet that finds the ring dry changes nothing. */
  lemma DryPacket(p: Pumped, at: nat, planned: nat)
    requires at + planned <= |p.buffer| && p.ring == []
    ensures var q := Packet(p, at, planned, []);
            q.ring == p.ring && q.buffer == p.buffer && q.payload == p.payload
  {
    assert p.ring + [] == [];
    assert p.buffer[..at] + [] + p.buffer[at..] == p.buffer;
  }

  lemma QuietBytes(ring: seq<Byte>, stale: seq<Byte>, at: nat, k: nat)
    requires at + k <= |ring| && at + k <= |stale|
    ensures var buffer := ring[..at] + stale[at..];
            && ring[..at] + ring[at..][..k] == ring[..at + k] && ring[at..][k..] == ring[at + k..]
            && buffer[..at] + ring[at..][..k] + buffer[at + k..] == ring[..at + k] + stale[at + k..]
  {
    assert ring[at..][..k] == ring[at..at + k];
  }

  lemma {:induction false} QuietPump(ring: seq<Byte>, plan: seq<nat>, stale: seq<Byte>)
    requires Sum(plan) <= |stale|
    ensures QuietlyFilled(Pump(ring, plan, Quiet(|plan|), stale), ring, stale, Sum(plan))
    decreases |plan|
  {
    if plan != [] {
      var n := |plan| - 1;
      assert Quiet(|plan|)[..n] == Quiet(n);
      QuietPump(ring, plan[..n], stale);
      QuietPacket(Pump(ring, plan[..n], Quiet(n), stale), ring, stale, Sum(plan[..n]), plan[n]);
    }
  }

  /** Left alone, a fill is read back however short the ring was. */
  lemma QuietReadsBack(p: Pumped, ring: seq<Byte>, stale: seq<Byte>, total: nat)
    requires total <= |stale| && QuietlyFilled(p, ring, stale, total)
    ensures ReadBack(p)
  {
    WireIsPrefix(p.buffer, p.lengths);
    assert p.buffer[..Min(|ring|, total)] == ring[..Min(|ring|, total)];
  }

  /** Whole commits of `unit` bytes, each admitted with no more than `limit` bytes queued behind it. */
  predicate Admitted(ring: seq<Byte>, plan: seq<nat>, arrivals: seq<seq<Byte>>, stale: seq<Byte>, unit: nat, limit: nat)
    requires |plan| == |arrivals| && Sum(plan) <= |stale| && unit > 0
    decreases |plan|
  {
    plan == [] ||
      (var n := |plan| - 1;
       && Admitted(ring, plan[..n], arrivals[..n], stale, unit, limit)
       && Room(|Pump(ring, plan[..n], arrivals[..n], stale).ring|, |arrivals[n]|, unit, limit))
  }

  predicate Room(queued: nat, bytes: nat, unit: nat, limit: nat)
    requires unit > 0
  {
    bytes == 0 || (bytes % unit == 0 && queued + bytes <= limit)
  }

  lemma {:induction false} QuietAdmitted(ring: seq<Byte>, plan: seq<nat>, stale: seq<Byte>, unit: nat, limit: nat)
    requires Sum(plan) <= |stale| && unit > 0
    ensures Admitted(ring, plan, Quiet(|plan|), stale, unit, limit)
    decreases |plan|
  {
    if plan != [] {
      assert Quiet(|plan|)[..|plan| - 1] == Quiet(|plan| - 1);
      QuietAdmitted(ring, plan[..|plan| - 1], stale, unit, limit);
    }
  }

  /** Where not even one commit fits the limit, nothing arrives. */
  lemma {:induction false} NothingFits(ring: seq<Byte>, plan: seq<nat>, arrivals: seq<seq<Byte>>, stale: seq<Byte>,
                                       unit: nat, limit: nat)
    requires |plan| == |arrivals| && Sum(plan) <= |stale| && unit > limit
    requires Admitted(ring, plan, arrivals, stale, unit, limit)
    ensures arrivals == Quiet(|plan|)
    decreases |plan|
  {
    if plan != [] {
      var n := |plan| - 1;
      NothingFits(ring, plan[..n], arrivals[..n], stale, unit, limit);
      NoRoom(|Pump(ring, plan[..n], arrivals[..n], stale).ring|, |arrivals[n]|, unit, limit);
      assert arrivals[..n] + [arrivals[n]] == arrivals;
      assert Quiet(n) + [[]] == Quiet(|plan|);
    }
  }

  lemma NoRoom(queued: nat, bytes: nat, unit: nat, limit: nat)
    requires unit > limit && Room(queued, bytes, unit, limit)
    ensures bytes == 0
  {
    if 0 < bytes < unit {
      DivModUnique(0, bytes, unit);
    }
  }

  /** Nothing until the last carrying packet, then one commit unlike the stale bytes the device will find. */
  function Late(ring: seq<Byte>, plan: seq<nat>, stale: seq<Byte>, unit: nat): (arrivals: seq<seq<Byte>>)
    requires |ring| < Lead(plan) && Sum(plan) <= |stale|
    ensures |arrivals| == |plan|
    decreases |plan|
  {
    var n := |plan| - 1;
    if plan[n] == 0 then Late(ring, plan[..n], stale, unit) + [[]]
    else Quiet(n) + [seq(unit, _ => if stale[|ring|] == 0 then 1 else 0)]
  }

  lemma {:induction false} LateMisreadOne(ring: seq<Byte>, plan: seq<nat>, stale: seq<Byte>, unit: nat)
    requires |ring| < Lead(plan) && Sum(plan) <= |stale| && unit > 0
    ensures !ReadBack(Pump(ring, plan, Late(ring, plan, stale, unit), stale))
    decreases |plan|
  {
    var n, arrivals := |plan| - 1, Late(ring, plan, stale, unit);
    var p := Pump(ring, plan[..n], arrivals[..n], stale);
    if plan[n] == 0 {
      assert arrivals[..n] == Late(ring, plan[..n], stale, unit);
      LateMisreadOne(ring, plan[..n], stale, unit);
      ShipsWithinPlan(ring, plan[..n], arrivals[..n], stale);
      EmptyPacket(p, Sum(plan[..n]), arrivals[n]);
    } else {
      assert arrivals[..n] == Quiet(n);
      QuietPump(ring, plan[..n], stale);
      LatePacket(p, ring, stale, Sum(plan[..n]), plan[n], arrivals[n]);
    }
  }

  lemma {:induction false} LateAdmitted(ring: seq<Byte>, plan: seq<nat>, stale: seq<Byte>, unit: nat, limit: nat)
    requires |ring| < Lead(plan) && Sum(plan) <= |stale| && 0 < unit <= limit
    ensures Admitted(ring, plan, Late(ring, plan, stale, unit), stale, unit, limit)
    decreases |plan|
  {
    var n, arrivals := |plan| - 1, Late(ring, plan, stale, unit);
    if plan[n] == 0 {
      assert arrivals[..n] == Late(ring, plan[..n], stale, unit);
      LateAdmitted(ring, plan[..n], stale, unit, limit);
    } else {
      assert arrivals[..n] == Quiet(n);
      QuietAdmitted(ring, plan[..n], stale, unit, limit);
      QuietPump(ring, plan[..n], stale);
      WholeProduct(1, unit);
    }
  }

  lemma LatePacket(p: Pumped, ring: seq<Byte>, stale: seq<Byte>, at: nat, planned: nat, late: seq<Byte>)
    requires |ring| < at && 0 < planned && at + planned <= |stale| && QuietlyFilled(p, ring, stale, at)
    requires |late| > 0 && late[0] != stale[|ring|]
    ensures !ReadBack(Packet(p, at, planned, late))
  {
    var q, k := Packet(p, at, planned, late), Min(planned, |late|);
    assert q.lengths[..|p.lengths|] == p.lengths;
    assert ring[..|ring|] == ring && ring[|ring|..] == [];
    assert p.ring + late == late;
    WireIsPrefix(q.buffer, q.lengths);
    LateLands(ring, at, stale, late[..k]);
  }

  lemma LateLands(ring: seq<Byte>, at: nat, stale: seq<Byte>, late: seq<Byte>)
    requires |ring| < at && |late| > 0 && at + |late| <= |stale| && late[0] != stale[|ring|]
    ensures var buffer := ring + stale[|ring|..];
            (buffer[..at] + late + buffer[at + |late|..])[..|ring| + |late|] != ring + late
  {
    var buffer := ring + stale[|ring|..];
    assert (buffer[..at] + late + buffer[at + |late|..])[|ring|] == stale[|ring|];
    assert (ring + late)[|ring|] == late[0];
  }

  // ---- All transfers ------------------------------------------------------------------------

  datatype Pumps = Pumps(ring: seq<Byte>, filled: seq<Pumped>)

  /** Every transfer has its arrivals and a buffer that holds its plan. */
  predicate Matched(plans: seq<seq<nat>>, arrivals: seq<seq<seq<Byte>>>, stales: seq<seq<Byte>>) {
    && |plans| == |arrivals| == |stales|
    && forall t :: 0 <= t < |plans| ==> |plans[t]| == |arrivals[t]| && Sum(plans[t]) <= |stales[t]|
  }

  /** The loop over transfers: one ring, a fresh offset for each. */
  function PumpAll(ring: seq<Byte>, plans: seq<seq<nat>>, arrivals: seq<seq<seq<Byte>>>, stales: seq<seq<Byte>>): (r: Pumps)
    requires Matched(plans, arrivals, stales)
    ensures |r.filled| == |plans|
    decreases |plans|
  {
    if plans == [] then Pumps(ring, [])
    else
      var n := |plans| - 1;
      var r := PumpAll(ring, plans[..n], arrivals[..n], stales[..n]);
      var p := Pump(r.ring, plans[n], arrivals[n], stales[n]);
      Pumps(p.ring, r.filled + [p])
  }

  ghost predicate AllReadBack(r: Pumps) {
    forall t :: 0 <= t < |r.filled| ==> ReadBack(r.filled[t])
  }

  /** Every commit during the whole fill was admitted. */
  predicate AllAdmitted(ring: seq<Byte>, plans: seq<seq<nat>>, arrivals: seq<seq<seq<Byte>>>, stales: seq<seq<Byte>>,
                        unit: nat, limit: nat)
    requires Matched(plans, arrivals, stales) && unit > 0
    decreases |plans|
  {
    plans == [] ||
      (var n := |plans| - 1;
       && AllAdmitted(ring, plans[..n], arrivals[..n], stales[..n], unit, limit)
       && Admitted(PumpAll(ring, plans[..n], arrivals[..n], stales[..n]).ring, plans[n], arrivals[n], stales[n], unit, limit))
  }

  /** Bytes planned over several transfers. */
  function Total(plans: seq<seq<nat>>): nat {
    if plans == [] then 0 else Total(plans[..|plans| - 1]) + Sum(plans[|plans| - 1])
  }

  /** Enough for all earlier transfers and for this one up to its last carrying packet, wherever that matters. */
  predicate Covers(bytes: nat, plans: seq<seq<nat>>) {
    forall t :: 0 <= t < |plans| && Lead(plans[t]) > 0 ==> bytes >= Total(plans[..t]) + Lead(plans[t])
  }

  lemma CoversFront(bytes: nat, plans: seq<seq<nat>>)
    requires plans != [] && Covers(bytes, plans)
    ensures Covers(bytes, plans[..|plans| - 1])
  {
    var n := |plans| - 1;
    forall t | 0 <= t < n && Lead(plans[..n][t]) > 0
      ensures bytes >= Total(plans[..n][..t]) + Lead(plans[..n][t])
    {
      assert plans[..n][..t] == plans[..t];
    }
  }

  /** No transfer takes more than its plan, so at least the rest of the prime reaches the next one. */
  lemma {:induction false} LeavesTheRest(ring: seq<Byte>, plans: seq<seq<nat>>, arrivals: seq<seq<seq<Byte>>>, stales: seq<seq<Byte>>)
    requires Matched(plans, arrivals, stales)
    ensures |PumpAll(ring, plans, arrivals, stales).ring| >= |ring| - Total(plans)
    decreases |plans|
  {
    if plans != [] {
      var n := |plans| - 1;
      LeavesTheRest(ring, plans[..n], arrivals[..n], stales[..n]);
      var r := PumpAll(ring, plans[..n], arrivals[..n], stales[..n]);
      ShipsWithinPlan(r.ring, plans[n], arrivals[n], stales[n]);
    }
  }

  lemma {:induction false} CoveredReadsBack(ring: seq<Byte>, plans: seq<seq<nat>>, arrivals: seq<seq<seq<Byte>>>,
                                            stales: seq<seq<Byte>>)
    requires Matched(plans, arrivals, stales) && Covers(|ring|, plans)
    ensures AllReadBack(PumpAll(ring, plans, arrivals, stales))
    decreases |plans|
  {
    if plans != [] {
      var n := |plans| - 1;
      CoversFront(|ring|, plans);
      CoveredReadsBack(ring, plans[..n], arrivals[..n], stales[..n]);
      LeavesTheRest(ring, plans[..n], arrivals[..n], stales[..n]);
      var r := PumpAll(ring, plans[..n], arrivals[..n], stales[..n]);
      assert |r.ring| >= Lead(plans[n]);
      EnoughReadsBack(r.ring, plans[n], arrivals[n], stales[n]);
    }
  }

  // ---- A short prime, over all transfers ------------------------------------------------------

  function QuietAll(plans: seq<seq<nat>>): (arrivals: seq<seq<seq<Byte>>>)
    ensures |arrivals| == |plans| && forall t :: 0 <= t < |plans| ==> arrivals[t] == Quiet(|plans[t]|)
  {
    seq(|plans|, t requires 0 <= t < |plans| => Quiet(|plans[t]|))
  }

  predicate Buffered(plans: seq<seq<nat>>, stales: seq<seq<Byte>>) {
    |plans| == |stales| && forall t :: 0 <= t < |plans| ==> Sum(plans[t]) <= |stales[t]|
  }

  lemma {:induction false} QuietLeaves(ring: seq<Byte>, plans: seq<seq<nat>>, stales: seq<seq<Byte>>)
    requires Buffered(plans, stales)
    ensures PumpAll(ring, plans, QuietAll(plans), stales).ring == ring[Min(|ring|, Total(plans))..]
    decreases |plans|
  {
    if plans != [] {
      var n := |plans| - 1;
      assert QuietAll(plans)[..n] == QuietAll(plans[..n]);
      QuietLeaves(ring, plans[..n], stales[..n]);
      var before := Total(plans[..n]);
      QuietPump(ring[Min(|ring|, before)..], plans[n], stales[n]);
      DropTwice(ring, before, Sum(plans[n]));
    }
  }

  lemma DropTwice(ring: seq<Byte>, a: nat, b: nat)
    ensures var left := ring[Min(|ring|, a)..]; left[Min(|left|, b)..] == ring[Min(|ring|, a + b)..]
  {
  }

  /** A transfer already filled is not touched by the ones after it. */
  lemma {:induction false} FilledStays(ring: seq<Byte>, plans: seq<seq<nat>>, arrivals: seq<seq<seq<Byte>>>,
                                       stales: seq<seq<Byte>>, t: nat)
    requires Matched(plans, arrivals, stales) && t < |plans|
    ensures var r := PumpAll(ring, plans[..t], arrivals[..t], stales[..t]);
            PumpAll(ring, plans, arrivals, stales).filled[t] == Pump(r.ring, plans[t], arrivals[t], stales[t])
    decreases |plans|
  {
    var n := |plans| - 1;
    if t < n {
      FilledStays(ring, plans[..n], arrivals[..n], stales[..n], t);
      assert plans[..n][..t] == plans[..t] && arrivals[..n][..t] == arrivals[..t] && stales[..n][..t] == stales[..t];
    }
  }

  /** Nothing arrives until transfer `t`, and there only the late commit. */
  function LateAt(ring: seq<Byte>, plans: seq<seq<nat>>, stales: seq<seq<Byte>>, t: nat, unit: nat)
      : (arrivals: seq<seq<seq<Byte>>>)
    requires Buffered(plans, stales) && t < |plans|
    requires Lead(plans[t]) > 0 && |ring| < Total(plans[..t]) + Lead(plans[t])
    ensures Matched(plans, arrivals, stales)
  {
    var left := ring[Min(|ring|, Total(plans[..t]))..];
    QuietAll(plans)[t := Late(left, plans[t], stales[t], unit)]
  }

  lemma LateMisread(ring: seq<Byte>, plans: seq<seq<nat>>, stales: seq<seq<Byte>>, t: nat, unit: nat)
    requires Buffered(plans, stales) && t < |plans| && unit > 0
    requires Lead(plans[t]) > 0 && |ring| < Total(plans[..t]) + Lead(plans[t])
    ensures !AllReadBack(PumpAll(ring, plans, LateAt(ring, plans, stales, t, unit), stales))
  {
    var arrivals := LateAt(ring, plans, stales, t, unit);
    var left := ring[Min(|ring|, Total(plans[..t]))..];
    assert arrivals[..t] == QuietAll(plans[..t]);
    QuietLeaves(ring, plans[..t], stales[..t]);
    FilledStays(ring, plans, arrivals, stales, t);
    LateMisreadOne(left, plans[t], stales[t], unit);
    assert !ReadBack(PumpAll(ring, plans, arrivals, stales).filled[t]);
  }

  lemma {:induction false} QuietAllAdmitted(ring: seq<Byte>, plans: seq<seq<nat>>, stales: seq<seq<Byte>>, unit: nat, limit: nat)
    requires Buffered(plans, stales) && unit > 0
    ensures AllAdmitted(ring, plans, QuietAll(plans), stales, unit, limit)
    decreases |plans|
  {
    if plans != [] {
      var n := |plans| - 1;
      assert QuietAll(plans)[..n] == QuietAll(plans[..n]);
      QuietAllAdmitted(ring, plans[..n], stales[..n], unit, limit);
      QuietAdmitted(PumpAll(ring, plans[..n], QuietAll(plans[..n]), stales[..n]).ring, plans[n], stales[n], unit, limit);
    }
  }

  lemma {:induction false} LateAtAdmitted(ring: seq<Byte>, plans: seq<seq<nat>>, stales: seq<seq<Byte>>, t: nat,
                                          unit: nat, limit: nat)
    requires Buffered(plans, stales) && t < |plans| && 0 < unit <= limit
    requires Lead(plans[t]) > 0 && |ring| < Total(plans[..t]) + Lead(plans[t])
    ensures AllAdmitted(ring, plans, LateAt(ring, plans, stales, t, unit), stales, unit, limit)
    decreases |plans|
  {
    var n, arrivals := |plans| - 1, LateAt(ring, plans, stales, t, unit);
    if t == n {
      LateLast(ring, plans, stales, unit, limit);
    } else {
      LateEarlier(ring, plans, stales, t, unit);
      LateAtAdmitted(ring, plans[..n], stales[..n], t, unit, limit);
      QuietAdmitted(PumpAll(ring, plans[..n], arrivals[..n], stales[..n]).ring, plans[n], stales[n], unit, limit);
    }
  }

  lemma LateLast(ring: seq<Byte>, plans: seq<seq<nat>>, stales: seq<seq<Byte>>, unit: nat, limit: nat)
    requires Buffered(plans, stales) && plans != [] && 0 < unit <= limit
    requires var n := |plans| - 1; Lead(plans[n]) > 0 && |ring| < Total(plans[..n]) + Lead(plans[n])
    ensures AllAdmitted(ring, plans, LateAt(ring, plans, stales, |plans| - 1, unit), stales, unit, limit)
  {
    var n := |plans| - 1;
    var arrivals, left := LateAt(ring, plans, stales, n, unit), ring[Min(|ring|, Total(plans[..n]))..];
    assert arrivals[..n] == QuietAll(plans[..n]);
    QuietAllAdmitted(ring, plans[..n], stales[..n], unit, limit);
    assert PumpAll(ring, plans[..n], QuietAll(plans[..n]), stales[..n]).ring == left by {
      QuietLeaves(ring, plans[..n], stales[..n]);
    }
    LateAdmitted(left, plans[n], stales[n], unit, limit);
  }

  lemma LateEarlier(ring: seq<Byte>, plans: seq<seq<nat>>, stales: seq<seq<Byte>>, t: nat, unit: nat)
    requires Buffered(plans, stales) && t < |plans| - 1
    requires Lead(plans[t]) > 0 && |ring| < Total(plans[..t]) + Lead(plans[t])
    ensures var n := |plans| - 1;
            && Buffered(plans[..n], stales[..n]) && plans[..n][..t] == plans[..t]
            && LateAt(ring, plans, stales, t, unit)[..n] == LateAt(ring, plans[..n], stales[..n], t, unit)
            && LateAt(ring, plans, stales, t, unit)[n] == Quiet(|plans[n]|)
  {
    assert plans[..|plans| - 1][..t] == plans[..t];
  }

  /** With no room for a single commit, the fill is the quiet one, and read back. */
  lemma {:induction false} NoRoomReadsBack(ring: seq<Byte>, plans: seq<seq<nat>>, arrivals: seq<seq<seq<Byte>>>,
                                           stales: seq<seq<Byte>>, unit: nat, limit: nat)
    requires Matched(plans, arrivals, stales) && unit > limit && AllAdmitted(ring, plans, arrivals, stales, unit, limit)
    ensures AllReadBack(PumpAll(ring, plans, arrivals, stales))
    decreases |plans|
  {
    if plans != [] {
      var n := |plans| - 1;
      NoRoomReadsBack(ring, plans[..n], arrivals[..n], stales[..n], unit, limit);
      var left := PumpAll(ring, plans[..n], arrivals[..n], stales[..n]).ring;
      NothingFits(left, plans[n], arrivals[n], stales[n], unit, limit);
      QuietPump(left, plans[n], stales[n]);
      QuietReadsBack(Pump(left, plans[n], arrivals[n], stales[n]), left, stales[n], Sum(plans[n]));
    }
  }

  /** Every interleaving of admitted commits of `unit` bytes is read back. */
  ghost predicate FillReadsBack(ring: seq<Byte>, plans: seq<seq<nat>>, stales: seq<seq<Byte>>, unit: nat, limit: nat)
    requires unit > 0
  {
    forall arrivals ::
      Matched(plans, arrivals, stales) && AllAdmitted(ring, plans, arrivals, stales, unit, limit) ==>
        AllReadBack(PumpAll(ring, plans, arrivals, stales))
  }

  /**
   * Exactly when the initial fill is safe: under every interleaving of admitted commits, the device reads from
   * every transfer the bytes drained for it, if and only if no commit fits the limit at all, or the ring, before
   * the first packet, covered all earlier transfers and all packets before the last carrying one, for every
   * transfer with two carrying packets or more.
   */
  lemma ReadBackExactlyWhenCovered(ring: seq<Byte>, plans: seq<seq<nat>>, stales: seq<seq<Byte>>, unit: nat, limit: nat)
    requires Buffered(plans, stales) && unit > 0
    ensures FillReadsBack(ring, plans, stales, unit, limit) <==> Covers(|ring|, plans) || unit > limit
  {
    if Covers(|ring|, plans) || unit > limit {
      forall arrivals | Matched(plans, arrivals, stales) && AllAdmitted(ring, plans, arrivals, stales, unit, limit)
        ensures AllReadBack(PumpAll(ring, plans, arrivals, stales))
      {
        if unit > limit {
          NoRoomReadsBack(ring, plans, arrivals, stales, unit, limit);
        } else {
          CoveredReadsBack(ring, plans, arrivals, stales);
        }
      }
    } else {
      var t :| 0 <= t < |plans| && Lead(plans[t]) > 0 && |ring| < Total(plans[..t]) + Lead(plans[t]);
      LateAtAdmitted(ring, plans, stales, t, unit, limit);
      LateMisread(ring, plans, stales, t, unit);
    }
  }

  // ---- The start check ------------------------------------------------------------------------

  lemma {:induction false} TotalPrefix(plans: seq<seq<nat>>, t: nat)
    requires t < |plans|
    ensures Total(plans[..t]) + Sum(plans[t]) <= Total(plans)
    decreases |plans|
  {
    var n := |plans| - 1;
    if t < n {
      TotalPrefix(plans[..n], t);
      assert plans[..n][..t] == plans[..t];
    }
  }

  function FlatAll(arrivals: seq<seq<seq<Byte>>>): seq<Byte> {
    if arrivals == [] then [] else FlatAll(arrivals[..|arrivals| - 1]) + Flat(arrivals[|arrivals| - 1])
  }

  /** The whole plan covered: what arrives meanwhile only queues up behind what is left of the prime. */
  lemma {:induction false} ArrivalsQueueBehind(ring: seq<Byte>, plans: seq<seq<nat>>, arrivals: seq<seq<seq<Byte>>>,
                                               stales: seq<seq<Byte>>)
    requires Matched(plans, arrivals, stales) && |ring| >= Total(plans)
    ensures PumpAll(ring, plans, arrivals, stales).ring == ring[Total(plans)..] + FlatAll(arrivals)
    decreases |plans|
  {
    if plans == [] {
      assert ring[0..] + [] == ring;
    } else {
      var n := |plans| - 1;
      var left := PumpAll(ring, plans[..n], arrivals[..n], stales[..n]).ring;
      var before, behind := Total(plans[..n]), FlatAll(arrivals[..n]);
      assert left == ring[before..] + behind by {
        ArrivalsQueueBehind(ring, plans[..n], arrivals[..n], stales[..n]);
      }
      QueuedPump(ring, before, behind, left, plans[n], arrivals[n], stales[n], Pump(left, plans[n], arrivals[n], stales[n]));
    }
  }

  lemma QueuedPump(ring: seq<Byte>, at: nat, behind: seq<Byte>, left: seq<Byte>, plan: seq<nat>, arrivals: seq<seq<Byte>>,
                   stale: seq<Byte>, p: Pumped)
    requires |plan| == |arrivals| && Sum(plan) <= |stale| && at + Sum(plan) <= |ring| && left == ring[at..] + behind
    requires p == Pump(left, plan, arrivals, stale)
    ensures p.lengths == plan && p.payload == ring[at..at + Sum(plan)]
    ensures p.ring == ring[at + Sum(plan)..] + (behind + Flat(arrivals))
  {
    CoveredShipsPlan(left, plan, arrivals, stale);
    TakeFirst(ring, at, Sum(plan), behind, Flat(arrivals));
  }

  /**
   * Then the fill is the one that would have happened with nothing arriving: each transfer ships its plan,
   * its own stretch of the prime, and the device reads exactly that.
   */
  lemma ExactPrime(ring: seq<Byte>, plans: seq<seq<nat>>, arrivals: seq<seq<seq<Byte>>>, stales: seq<seq<Byte>>, t: nat)
    requires Matched(plans, arrivals, stales) && |ring| >= Total(plans) && t < |plans|
    ensures Total(plans[..t]) + Sum(plans[t]) <= |ring|
    ensures var p := PumpAll(ring, plans, arrivals, stales).filled[t]; var at := Total(plans[..t]);
            p.lengths == plans[t] && p.payload == ring[at..at + Sum(plans[t])] && ReadBack(p)
  {
    TotalPrefix(plans, t);
    MatchedPrefix(plans, arrivals, stales, t);
    var left := PumpAll(ring, plans[..t], arrivals[..t], stales[..t]).ring;
    var at, behind := Total(plans[..t]), FlatAll(arrivals[..t]);
    assert left == ring[at..] + behind by {
      ArrivalsQueueBehind(ring, plans[..t], arrivals[..t], stales[..t]);
    }
    assert PumpAll(ring, plans, arrivals, stales).filled[t] == Pump(left, plans[t], arrivals[t], stales[t]) by {
      FilledStays(ring, plans, arrivals, stales, t);
    }
    ExactTransfer(ring, at, behind, left, plans[t], arrivals[t], stales[t]);
  }

  lemma MatchedPrefix(plans: seq<seq<nat>>, arrivals: seq<seq<seq<Byte>>>, stales: seq<seq<Byte>>, t: nat)
    requires Matched(plans, arrivals, stales) && t <= |plans|
    ensures Matched(plans[..t], arrivals[..t], stales[..t])
  {
  }

  lemma ExactTransfer(ring: seq<Byte>, at: nat, behind: seq<Byte>, left: seq<Byte>, plan: seq<nat>,
                      arrivals: seq<seq<Byte>>, stale: seq<Byte>)
    requires |plan| == |arrivals| && Sum(plan) <= |stale| && at + Sum(plan) <= |ring| && left == ring[at..] + behind
    ensures var p := Pump(left, plan, arrivals, stale);
            p.lengths == plan && p.payload == ring[at..at + Sum(plan)] && ReadBack(p)
  {
    QueuedPump(ring, at, behind, left, plan, arrivals, stale, Pump(left, plan, arrivals, stale));
    EnoughReadsBack(left, plan, arrivals, stale);
  }

  lemma TakeFirst(ring: seq<Byte>, at: nat, k: nat, behind: seq<Byte>, more: seq<Byte>)
    requires at + k <= |ring|
    ensures var left := ring[at..] + behind;
            left[..k] == ring[at..at + k] && left[k..] + more == ring[at + k..] + (behind + more)
  {
    var left := ring[at..] + behind;
    assert left[k..] == ring[at + k..] + behind;
    assert ring[at + k..] + behind + more == ring[at + k..] + (behind + more);
  }

  lemma WholePlanCovers(bytes: nat, plans: seq<seq<nat>>)
    requires bytes >= Total(plans)
    ensures Covers(bytes, plans)
  {
    forall t | 0 <= t < |plans| && Lead(plans[t]) > 0
      ensures bytes >= Total(plans[..t]) + Lead(plans[t])
    {
      TotalPrefix(plans, t);
    }
  }
}
