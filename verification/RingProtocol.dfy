/**
 * The zero-copy ring and its admission gate at the grain of single atomic operations: a render
 * thread that measures, reserves, packs byte by byte and publishes; a completion callback that
 * drains byte by byte; and a control thread that closes the gate and waits for the writer count.
 * The same ring discipline serves capture with the two ends exchanged.
 */
module RingProtocol {
  import opened Core

  datatype Producer =
    | Outside
    | Entered                                          // accepting_ seen once, not yet counted
    | Counted                                          // activeWriters_ incremented
    | Measured(writable: nat, seenTail: nat, limit: nat)
    | Admitted(seenTail: nat, limit: nat)              // accepting_ seen again, and room enough
    | Reserved                                         // prepared; packing into the region
    | Leaving(submitted: bool)

  datatype Consumer = Resting | Draining(bytes: nat, copied: seq<Byte>)

  datatype Control = Running | Stopping | Quiet

  datatype State = State(
    capacity: nat, stride: nat,
    storage: seq<Byte>, head: nat, tail: nat,
    stream: seq<Byte>,          // every byte ever published
    drained: seq<Byte>,         // every byte the consumer took
    accepting: bool, activeWriters: nat,
    producer: Producer, frames: nat,
    consumer: Consumer, control: Control)

  datatype Step =
    | Enter(frames: nat)
    | Count
    | Measure(limit: nat)               // writableFrames(); the watermark may differ at each call
    | Recheck
    | Prepare(limit: nat)               // preparePlaybackWrite()
    | Pack(k: nat, value: Byte)
    | Refuse                            // credit or format turns the block away
    | Commit
    | Leave
    | BeginDrain(frames: nat)
    | Copy
    | EndDrain
    | CloseGate                         // stop(): accepting_ cleared
    | ObserveWriters                    // one turn of the spin on activeWriters_
    | Rearm                             // start() after its own stop()
    | RequestStop                       // accepting_ cleared without waiting

  function Slot(s: State, cursor: nat): nat
    requires s.capacity > 0
  {
    cursor % s.capacity
  }

  /** Frames that fit below both the storage and the watermark, as `writableFrames` computes them. */
  function Room(capacity: nat, stride: nat, used: nat, limit: nat): nat
    requires stride > 0 && used <= capacity
  {
    var queued := used / stride;
    Min((capacity - used) / stride, if queued < limit then limit - queued else 0)
  }

  function Writable(s: State, limit: nat): nat
    requires s.stride > 0 && s.tail <= s.head <= s.tail + s.capacity
  {
    Room(s.capacity, s.stride, s.head - s.tail, limit)
  }

  ghost predicate Sane(s: State) {
    s.capacity > 0 && s.stride > 0 && |s.storage| == s.capacity && s.tail <= s.head <= s.tail + s.capacity
  }

  ghost predicate Enabled(s: State, step: Step) {
    match step
    case Enter(frames) => s.producer.Outside? && frames > 0 && s.accepting
    case Count => s.producer.Entered?
    case Measure(_) => s.producer.Counted?
    case Recheck => s.producer.Measured?
    case Prepare(_) => s.producer.Admitted?
    case Pack(k, _) => s.producer.Reserved? && k < s.frames * s.stride
    case Refuse => s.producer.Reserved?
    case Commit => s.producer.Reserved?
    case Leave => s.producer.Leaving? && s.activeWriters > 0
    case BeginDrain(_) => s.consumer.Resting?
    case Copy => s.consumer.Draining? && |s.consumer.copied| < s.consumer.bytes
    case EndDrain => s.consumer.Draining? && |s.consumer.copied| == s.consumer.bytes
    case CloseGate => s.control.Running?
    case ObserveWriters => s.control.Stopping?
    case Rearm => s.control.Quiet?
    case RequestStop => true
  }

  ghost function Next(s: State, step: Step): State {
    if !Sane(s) || !Enabled(s, step) then s
    else
      match step
      case Enter(frames) => s.(producer := Entered, frames := frames)
      case Count => s.(producer := Counted, activeWriters := s.activeWriters + 1)
      case Measure(limit) => s.(producer := Measured(Writable(s, limit), s.tail, limit))
      case Recheck =>
        if s.accepting && s.producer.writable >= s.frames
        then s.(producer := Admitted(s.producer.seenTail, s.producer.limit))
        else s.(producer := Leaving(false))
      case Prepare(limit) =>
        if Min(s.frames, Writable(s, limit)) == s.frames then s.(producer := Reserved)
        else s.(producer := Leaving(false))
      case Pack(k, value) => s.(storage := s.storage[Slot(s, s.head + k) := value])
      case Refuse => s.(producer := Leaving(false))
      case Commit =>
        var bytes := s.frames * s.stride;
        s.(producer := Leaving(true), head := s.head + bytes, stream := s.stream + Window(s.storage, s.head, bytes))
      case Leave => s.(producer := Outside, activeWriters := s.activeWriters - 1)
      case BeginDrain(frames) =>
        s.(consumer := Draining(Min(frames * s.stride, s.head - s.tail), []))
      case Copy =>
        s.(consumer := s.consumer.(copied := s.consumer.copied + [s.storage[Slot(s, s.tail + |s.consumer.copied|)]]))
      case EndDrain =>
        s.(consumer := Resting, tail := s.tail + s.consumer.bytes, drained := s.drained + s.consumer.copied)
      case CloseGate => s.(accepting := false, control := Stopping)
      case ObserveWriters => if s.activeWriters == 0 then s.(control := Quiet) else s
      case Rearm => s.(accepting := true, control := Running)
      case RequestStop => s.(accepting := false)
  }

  ghost predicate Init(s: State) {
    && s.capacity > 0 && s.stride > 0 && |s.storage| == s.capacity
    && s.head == 0 && s.tail == 0 && s.stream == [] && s.drained == []
    && s.activeWriters == 0 && s.producer.Outside? && s.consumer.Resting? && s.control.Running?
  }

  // ---- Invariant ------------------------------------------------------------------------

  ghost predicate DataOk(s: State) {
    && Sane(s) && |s.stream| == s.head
    && (forall c :: s.tail <= c < s.head ==> s.storage[Slot(s, c)] == s.stream[c])
    && s.drained == s.stream[..s.tail]
  }

  ghost predicate WholeOk(s: State)
    requires s.stride > 0
  {
    s.head % s.stride == 0 && s.tail % s.stride == 0 && (s.consumer.Draining? ==> s.consumer.bytes % s.stride == 0)
  }

  /** What `writableFrames` answered when the tail stood at `seenTail`. */
  ghost predicate Seen(s: State, writable: nat, seenTail: nat, limit: nat) {
    && s.stride > 0 && seenTail <= s.tail <= s.head <= seenTail + s.capacity
    && writable <= Room(s.capacity, s.stride, s.head - seenTail, limit)
  }

  ghost predicate ProducerOk(s: State) {
    match s.producer
    case Outside => true
    case Measured(writable, seenTail, limit) => s.frames > 0 && Seen(s, writable, seenTail, limit)
    case Admitted(seenTail, limit) => s.frames > 0 && Seen(s, s.frames, seenTail, limit)
    case Reserved => s.frames > 0 && s.head + s.frames * s.stride <= s.tail + s.capacity
    case _ => s.frames > 0
  }

  ghost predicate ConsumerOk(s: State) {
    s.consumer.Draining? ==>
      && s.tail + s.consumer.bytes <= s.head <= |s.stream| && |s.consumer.copied| <= s.consumer.bytes
      && s.consumer.copied == s.stream[s.tail..s.tail + |s.consumer.copied|]
  }

  ghost predicate GateOk(s: State) {
    && s.activeWriters == (if s.producer.Outside? || s.producer.Entered? then 0 else 1)
    && (!s.control.Running? ==> !s.accepting)
    && (s.control.Quiet? ==> !s.producer.Admitted? && !s.producer.Reserved?)
  }

  ghost predicate Inv(s: State) {
    DataOk(s) && WholeOk(s) && ProducerOk(s) && ConsumerOk(s) && GateOk(s)
  }

  /** The region the producer may write and the bytes not yet drained never share storage. */
  lemma RegionsDisjoint(s: State, k: nat, c: nat)
    requires DataOk(s) && ProducerOk(s) && s.producer.Reserved?
    requires k < s.frames * s.stride && s.tail <= c < s.head
    ensures Slot(s, s.head + k) != Slot(s, c)
  {
    DistinctModulo(c, s.head + k, s.capacity);
  }

  lemma PackKeeps(s: State, k: nat, value: Byte)
    requires Inv(s) && Enabled(s, Pack(k, value))
    ensures Inv(Next(s, Pack(k, value)))
  {
    var u := Next(s, Pack(k, value));
    forall c | s.tail <= c < s.head
      ensures u.storage[Slot(u, c)] == u.stream[c]
    {
      RegionsDisjoint(s, k, c);
    }
  }

  lemma Published(s: State, u: State, bytes: nat)
    requires DataOk(s) && s.head + bytes <= s.tail + s.capacity
    requires u == s.(producer := u.producer, head := s.head + bytes, stream := s.stream + Window(s.storage, s.head, bytes))
    ensures DataOk(u)
  {
    var added := Window(s.storage, s.head, bytes);
    forall c | u.tail <= c < u.head
      ensures u.storage[Slot(u, c)] == u.stream[c]
    {
      if c < s.head {
        assert s.storage[Slot(s, c)] == s.stream[c];
      } else {
        var k := c - s.head;
        assert added[k] == s.storage[Slot(s, s.head + k)];
      }
    }
    assert u.stream[..u.tail] == s.stream[..s.tail];
  }

  lemma CommitData(s: State)
    requires Inv(s) && Enabled(s, Commit)
    ensures DataOk(Next(s, Commit))
  {
    Published(s, Next(s, Commit), s.frames * s.stride);
  }

  lemma CommitConsumer(s: State)
    requires Inv(s) && Enabled(s, Commit)
    ensures ConsumerOk(Next(s, Commit))
  {
    var u := Next(s, Commit);
    if s.consumer.Draining? {
      var n := |s.consumer.copied|;
      assert u.stream[s.tail..s.tail + n] == s.stream[s.tail..s.tail + n];
    }
  }

  lemma CommitKeeps(s: State)
    requires Inv(s) && Enabled(s, Commit)
    ensures Inv(Next(s, Commit))
  {
    CommitData(s);
    CommitConsumer(s);
    WholeProduct(s.frames, s.stride);
    WholeSum(s.head, s.frames * s.stride, s.stride);
  }

  lemma ReserveFits(frames: nat, stride: nat, capacity: nat, used: nat)
    requires stride > 0 && used <= capacity && frames <= (capacity - used) / stride
    ensures used + frames * stride <= capacity
  {
    assert ((capacity - used) / stride - frames) * stride >= 0;
  }

  lemma PrepareKeeps(s: State, limit: nat)
    requires Inv(s) && Enabled(s, Prepare(limit))
    ensures Inv(Next(s, Prepare(limit)))
  {
    if Min(s.frames, Writable(s, limit)) == s.frames {
      ReserveFits(s.frames, s.stride, s.capacity, s.head - s.tail);
    }
  }

  lemma BeginDrainKeeps(s: State, frames: nat)
    requires Inv(s) && Enabled(s, BeginDrain(frames))
    ensures Inv(Next(s, BeginDrain(frames)))
  {
    WholeProduct(frames, s.stride);
    WholeDifference(s.head, s.tail, s.stride);
  }

  lemma CopyKeeps(s: State)
    requires Inv(s) && Enabled(s, Copy)
    ensures Inv(Next(s, Copy))
  {
    var n := |s.consumer.copied|;
    assert s.storage[Slot(s, s.tail + n)] == s.stream[s.tail + n];
    CopiedOne(s, Next(s, Copy), n);
  }

  lemma CopiedOne(s: State, u: State, n: nat)
    requires Inv(s) && s.consumer.Draining? && n == |s.consumer.copied| < s.consumer.bytes && s.tail + n < |s.stream|
    requires u == s.(consumer := Draining(s.consumer.bytes, s.consumer.copied + [s.stream[s.tail + n]]))
    ensures Inv(u)
  {
    assert s.stream[s.tail..s.tail + n] + [s.stream[s.tail + n]] == s.stream[s.tail..s.tail + n + 1];
  }

  lemma EndDrainKeeps(s: State)
    requires Inv(s) && Enabled(s, EndDrain)
    ensures Inv(Next(s, EndDrain))
  {
    WholeSum(s.tail, s.consumer.bytes, s.stride);
    DrainedAll(s, Next(s, EndDrain), s.consumer.bytes);
  }

  lemma DrainedAll(s: State, u: State, n: nat)
    requires Inv(s) && s.consumer.Draining? && n == s.consumer.bytes == |s.consumer.copied| && (s.tail + n) % s.stride == 0
    requires u == s.(consumer := Resting, tail := s.tail + n, drained := s.drained + s.consumer.copied)
    ensures Inv(u)
  {
    assert s.stream[..s.tail] + s.stream[s.tail..s.tail + n] == s.stream[..s.tail + n];
  }

  /** Steps that move no data: the writer's checks, and the control thread's gate. */
  predicate Gating(step: Step) {
    step.Enter? || step.Count? || step.Measure? || step.Recheck? || step.Refuse? || step.Leave?
    || step.CloseGate? || step.ObserveWriters? || step.Rearm? || step.RequestStop?
  }

  lemma GatingKeeps(s: State, step: Step)
    requires Inv(s) && Gating(step) && Enabled(s, step)
    ensures Inv(Next(s, step))
  {
    GatingMovesNothing(s, step);
  }

  lemma GatingMovesNothing(s: State, step: Step)
    requires Sane(s) && Gating(step) && Enabled(s, step)
    ensures var u := Next(s, step);
            u == s.(producer := u.producer, frames := u.frames, activeWriters := u.activeWriters,
                    accepting := u.accepting, control := u.control)
  {
  }

  lemma StepKeeps(s: State, step: Step)
    requires Inv(s)
    ensures Inv(Next(s, step))
  {
    if Enabled(s, step) {
      match step {
        case Prepare(limit) => PrepareKeeps(s, limit);
        case Pack(k, value) => PackKeeps(s, k, value);
        case Commit => CommitKeeps(s);
        case BeginDrain(frames) => BeginDrainKeeps(s, frames);
        case Copy => CopyKeeps(s);
        case EndDrain => EndDrainKeeps(s);
        case _ => GatingKeeps(s, step);
      }
    }
  }

  // ---- Runs -----------------------------------------------------------------------------

  ghost predicate IsRun(run: seq<State>, steps: seq<Step>) {
    && |run| == |steps| + 1 && Init(run[0])
    && forall i :: 0 <= i < |steps| ==> run[i + 1] == Next(run[i], steps[i])
  }

  lemma {:induction false} RunHolds(run: seq<State>, steps: seq<Step>, i: nat)
    requires IsRun(run, steps) && i < |run|
    ensures Inv(run[i])
  {
    if i == 0 {
      WholeProduct(0, run[0].stride);
    } else {
      RunHolds(run, steps, i - 1);
      StepKeeps(run[i - 1], steps[i - 1]);
    }
  }

  /** The consumer takes exactly the published bytes, in order, whole frames at a time. */
  lemma DrainsTheStream(run: seq<State>, steps: seq<Step>, i: nat)
    requires IsRun(run, steps) && i < |run|
    ensures var s := run[i];
            && s.tail <= s.head == |s.stream| && s.head - s.tail <= s.capacity
            && s.drained == s.stream[..s.tail]
            && s.stride > 0 && (s.head - s.tail) % s.stride == 0
  {
    RunHolds(run, steps, i);
    WholeDifference(run[i].head, run[i].tail, run[i].stride);
  }

  /** Between prepare and commit neither side ever touches a byte the other owns. */
  lemma ZeroCopyOwnership(run: seq<State>, steps: seq<Step>, i: nat, k: nat, j: nat)
    requires IsRun(run, steps) && i < |run| && run[i].producer.Reserved? && run[i].consumer.Draining?
    requires k < run[i].frames * run[i].stride && j < run[i].consumer.bytes && run[i].capacity > 0
    ensures Slot(run[i], run[i].head + k) != Slot(run[i], run[i].tail + j)
  {
    RunHolds(run, steps, i);
    RegionsDisjoint(run[i], k, run[i].tail + j);
  }

  /** The producer cursor moves only by a whole requested quantum, and only when the block is reported accepted. */
  lemma WholeQuantum(run: seq<State>, steps: seq<Step>, i: nat)
    requires IsRun(run, steps) && i < |steps|
    ensures var s, u := run[i], run[i + 1];
            (steps[i] == Commit && s.producer.Reserved? ==>
               u.head == s.head + s.frames * s.stride && u.producer == Leaving(true)) &&
            (u.head != s.head ==> steps[i] == Commit && s.producer.Reserved?) &&
            (u.producer == Leaving(true) && s.producer != u.producer ==> steps[i] == Commit)
  {
    RunHolds(run, steps, i);
  }

  /** Room seen when measuring is still there when reserving: drains in between only make more. */
  lemma AdmissionKept(run: seq<State>, steps: seq<Step>, i: nat)
    requires IsRun(run, steps) && i < |steps| && run[i].producer.Admitted?
    requires steps[i].Prepare? && steps[i].limit >= run[i].producer.limit
    ensures run[i + 1].producer.Reserved?
  {
    RunHolds(run, steps, i);
    var s := run[i];
    var seen := s.producer.seenTail;
    DivMonotone(s.head - s.tail, s.head - seen, s.stride);
    DivMonotone(s.capacity - (s.head - seen), s.capacity - (s.head - s.tail), s.stride);
  }

  /** Once `stop()` has seen no writer, nothing is published until the gate is armed again. */
  lemma {:induction false} QuietMeansNoCommit(run: seq<State>, steps: seq<Step>, i: nat, j: nat)
    requires IsRun(run, steps) && i <= j < |run|
    requires run[i].control.Quiet? && forall k :: i <= k < j ==> steps[k] != Rearm
    ensures run[j].control.Quiet? && run[j].head == run[i].head && run[j].stream == run[i].stream
    decreases j
  {
    if i < j {
      QuietMeansNoCommit(run, steps, i, j - 1);
      RunHolds(run, steps, j - 1);
    }
  }

  // ---- What is packed is what is published ----------------------------------------------

  /** While a region is reserved nothing but its own pack writes one of its bytes. */
  lemma PackedByteKept(s: State, step: Step, k: nat)
    requires Inv(s) && s.producer.Reserved? && k < s.frames * s.stride && Next(s, step).producer.Reserved?
    requires !(step.Pack? && step.k == k)
    ensures var u := Next(s, step);
            && u.head == s.head && u.frames == s.frames && u.stride == s.stride && u.capacity == s.capacity
            && |u.storage| == |s.storage| && u.storage[Slot(s, s.head + k)] == s.storage[Slot(s, s.head + k)]
  {
    if step.Pack? && Enabled(s, step) {
      if step.k < k {
        DistinctModulo(s.head + step.k, s.head + k, s.capacity);
      } else {
        DistinctModulo(s.head + k, s.head + step.k, s.capacity);
      }
    }
  }

  /** From the pack of byte `k` up to step `j` the region stays reserved and the byte is not packed again. */
  ghost predicate Untouched(run: seq<State>, steps: seq<Step>, i: nat, j: nat, k: nat)
    requires |run| == |steps| + 1 && i < j <= |steps|
  {
    && (forall x :: i <= x <= j ==> run[x].producer.Reserved?)
    && forall x :: i < x < j ==> !(steps[x].Pack? && steps[x].k == k)
  }

  /** The region is where it was and its byte `k` is `value`. */
  ghost predicate StillPacked(s: State, u: State, k: nat, value: Byte) {
    && k < u.frames * u.stride && u.head == s.head && u.frames == s.frames && u.stride == s.stride && u.capacity == s.capacity
    && u.capacity > 0 && |u.storage| == u.capacity && u.storage[Slot(u, u.head + k)] == value
  }

  lemma {:induction false} PackedByteStays(run: seq<State>, steps: seq<Step>, i: nat, j: nat, k: nat)
    requires IsRun(run, steps) && i < j <= |steps| && Untouched(run, steps, i, j, k)
    requires steps[i].Pack? && steps[i].k == k && Enabled(run[i], steps[i])
    ensures StillPacked(run[i], run[j], k, steps[i].value)
    decreases j
  {
    if j == i + 1 {
      PackedFirst(run, steps, i);
    } else {
      LastStep(run, steps, j);
      StillUntouched(run, steps, i, j, k);
      PackedByteStays(run, steps, i, j - 1, k);
      PackedOn(run[i], run[j - 1], steps[j - 1], k, steps[i].value, run[j]);
    }
  }

  lemma StillUntouched(run: seq<State>, steps: seq<Step>, i: nat, j: nat, k: nat)
    requires |run| == |steps| + 1 && i + 1 < j <= |steps| && Untouched(run, steps, i, j, k)
    ensures Untouched(run, steps, i, j - 1, k) && run[j - 1].producer.Reserved? && run[j].producer.Reserved?
    ensures !(steps[j - 1].Pack? && steps[j - 1].k == k)
  {
  }

  lemma LastStep(run: seq<State>, steps: seq<Step>, j: nat)
    requires IsRun(run, steps) && 0 < j <= |steps|
    ensures Inv(run[j - 1]) && run[j] == Next(run[j - 1], steps[j - 1])
  {
    RunHolds(run, steps, j - 1);
    assert run[j - 1 + 1] == Next(run[j - 1], steps[j - 1]);
  }

  lemma PackedFirst(run: seq<State>, steps: seq<Step>, i: nat)
    requires IsRun(run, steps) && i < |steps| && steps[i].Pack? && Enabled(run[i], steps[i])
    ensures StillPacked(run[i], run[i + 1], steps[i].k, steps[i].value)
  {
    RunHolds(run, steps, i);
    PackWrites(run[i], steps[i].k, steps[i].value, run[i + 1]);
  }

  lemma PackedOn(s: State, v: State, step: Step, k: nat, value: Byte, u: State)
    requires Inv(v) && v.producer.Reserved? && StillPacked(s, v, k, value)
    requires u == Next(v, step) && u.producer.Reserved? && !(step.Pack? && step.k == k)
    ensures StillPacked(s, u, k, value)
  {
    PackedByteKept(v, step, k);
  }

  lemma PackWrites(s: State, k: nat, value: Byte, u: State)
    requires Inv(s) && Enabled(s, Pack(k, value)) && u == Next(s, Pack(k, value))
    ensures u == s.(storage := u.storage) && |u.storage| == s.capacity && u.storage[Slot(s, s.head + k)] == value
  {
  }

  /** A commit publishes, byte for byte, what was last packed into its region. */
  lemma PackedIsPublished(run: seq<State>, steps: seq<Step>, i: nat, j: nat, k: nat)
    requires IsRun(run, steps) && i < j < |steps| && Untouched(run, steps, i, j, k)
    requires steps[i].Pack? && steps[i].k == k && Enabled(run[i], steps[i]) && steps[j] == Commit
    ensures run[i].head + k < |run[j + 1].stream| && run[j + 1].stream[run[i].head + k] == steps[i].value
  {
    PackedByteStays(run, steps, i, j, k);
    RunHolds(run, steps, j);
    CommittedByte(run[j], k);
  }

  lemma CommittedByte(s: State, k: nat)
    requires Inv(s) && s.producer.Reserved? && k < s.frames * s.stride
    ensures var u := Next(s, Commit);
            s.head + k < |u.stream| && u.stream[s.head + k] == s.storage[Slot(s, s.head + k)]
  {
    assert Window(s.storage, s.head, s.frames * s.stride)[k] == s.storage[(s.head + k) % |s.storage|];
  }

  // ---- What each end achieves -----------------------------------------------------------

  ghost function After(s: State, steps: seq<Step>): State
    decreases |steps|
  {
    if steps == [] then s else After(Next(s, steps[0]), steps[1..])
  }

  lemma {:induction false} AfterConcat(s: State, a: seq<Step>, b: seq<Step>)
    ensures After(s, a + b) == After(After(s, a), b)
    decreases |a|
  {
    if a == [] {
      assert a + b == b;
    } else {
      AfterConcat(Next(s, a[0]), a[1..], b);
      assert (a + b)[1..] == a[1..] + b;
    }
  }

  lemma AfterOne(s: State, x: Step)
    ensures After(s, [x]) == Next(s, x)
  {
    assert [x][1..] == [];
  }

  function Copies(n: nat): (steps: seq<Step>)
    ensures |steps| == n
  {
    seq(n, _ => Copy)
  }

  lemma {:induction false} CopiesAll(s: State, n: nat)
    requires Inv(s) && s.consumer.Draining? && |s.consumer.copied| + n == s.consumer.bytes
    ensures var u := After(s, Copies(n));
            && s.tail + s.consumer.bytes <= |s.stream|
            && u == s.(consumer := Draining(s.consumer.bytes, s.stream[s.tail..s.tail + s.consumer.bytes]))
    decreases n
  {
    if n > 0 {
      CopyKeeps(s);
      CopiesAll(Next(s, Copy), n - 1);
      assert Copies(n)[1..] == Copies(n - 1);
    }
  }

  function DrainSteps(frames: nat, bytes: nat): seq<Step> {
    [BeginDrain(frames)] + (Copies(bytes) + [EndDrain])
  }

  /** Left alone, a drain of `frames` takes the oldest published bytes, as many as it asks for and there are. */
  lemma ConsumerTakes(s: State, frames: nat, bytes: nat)
    requires Inv(s) && s.consumer.Resting? && bytes == Min(frames * s.stride, s.head - s.tail)
    ensures s.tail + bytes <= |s.stream|
    ensures After(s, DrainSteps(frames, bytes))
            == s.(tail := s.tail + bytes, drained := s.drained + s.stream[s.tail..s.tail + bytes])
  {
    var v := s.(consumer := Draining(bytes, []));
    assert Next(s, BeginDrain(frames)) == v && Inv(v) by {
      BeginDrainKeeps(s, frames);
    }
    assert After(s, DrainSteps(frames, bytes)) == After(v, Copies(bytes) + [EndDrain]) by {
      AfterConcat(s, [BeginDrain(frames)], Copies(bytes) + [EndDrain]);
      AfterOne(s, BeginDrain(frames));
    }
    CopiesEnd(v, bytes);
  }

  lemma CopiesEnd(v: State, bytes: nat)
    requires Inv(v) && v.consumer == Draining(bytes, [])
    ensures v.tail + bytes <= |v.stream|
    ensures After(v, Copies(bytes) + [EndDrain])
            == v.(consumer := Resting, tail := v.tail + bytes, drained := v.drained + v.stream[v.tail..v.tail + bytes])
  {
    var w := After(v, Copies(bytes));
    CopiesAll(v, bytes);
    AfterConcat(v, Copies(bytes), [EndDrain]);
    DrainEnds(w, bytes);
  }

  lemma DrainEnds(w: State, bytes: nat)
    requires Sane(w) && w.consumer.Draining? && bytes == w.consumer.bytes == |w.consumer.copied|
    ensures After(w, [EndDrain])
            == w.(consumer := Resting, tail := w.tail + bytes, drained := w.drained + w.consumer.copied)
  {
    AfterOne(w, EndDrain);
  }

  function Entering(frames: nat, limit: nat): seq<Step> {
    [Enter(frames)] + ([Count] + ([Measure(limit)] + [Recheck]))
  }

  function Publishing(limit: nat): seq<Step> {
    [Prepare(limit)] + ([Commit] + [Leave])
  }

  lemma EntersThrough(s: State, frames: nat, limit: nat)
    requires Inv(s) && s.producer.Outside? && s.accepting && frames > 0
    ensures After(s, Entering(frames, limit))
            == s.(frames := frames, activeWriters := 1,
                  producer := if frames <= Writable(s, limit) then Admitted(s.tail, limit) else Leaving(false))
  {
    var a := s.(producer := Counted, frames := frames, activeWriters := 1);
    Enters(s, frames, a);
    AfterConcat(s, [Enter(frames)] + [Count], [Measure(limit)] + [Recheck]);
    assert Entering(frames, limit) == [Enter(frames)] + [Count] + ([Measure(limit)] + [Recheck]);
    Measures(a, limit);
  }

  lemma Enters(s: State, frames: nat, a: State)
    requires Inv(s) && s.producer.Outside? && s.accepting && frames > 0
    requires a == s.(producer := Counted, frames := frames, activeWriters := 1)
    ensures After(s, [Enter(frames)] + [Count]) == a
  {
    AfterConcat(s, [Enter(frames)], [Count]);
    AfterOne(s, Enter(frames));
    AfterOne(s.(producer := Entered, frames := frames), Count);
  }

  lemma Measures(a: State, limit: nat)
    requires Sane(a) && a.producer.Counted? && a.accepting
    ensures After(a, [Measure(limit)] + [Recheck])
            == a.(producer := if a.frames <= Writable(a, limit) then Admitted(a.tail, limit) else Leaving(false))
  {
    AfterConcat(a, [Measure(limit)], [Recheck]);
    AfterOne(a, Measure(limit));
    AfterOne(a.(producer := Measured(Writable(a, limit), a.tail, limit)), Recheck);
  }

  lemma PublishesThrough(s: State, limit: nat)
    requires Inv(s) && s.producer.Admitted? && s.frames <= Writable(s, limit)
    ensures After(s, Publishing(limit))
            == s.(producer := Outside, activeWriters := 0, head := s.head + s.frames * s.stride,
                  stream := s.stream + Window(s.storage, s.head, s.frames * s.stride))
  {
    var a := s.(producer := Reserved);
    assert Next(s, Prepare(limit)) == a && Inv(a) by {
      PrepareKeeps(s, limit);
    }
    assert After(s, Publishing(limit)) == After(a, [Commit] + [Leave]) by {
      AfterConcat(s, [Prepare(limit)], [Commit] + [Leave]);
      AfterOne(s, Prepare(limit));
    }
    CommitsAndLeaves(a, a.frames * a.stride);
  }

  lemma CommitsAndLeaves(a: State, bytes: nat)
    requires Inv(a) && a.producer.Reserved? && bytes == a.frames * a.stride
    ensures After(a, [Commit] + [Leave])
            == a.(producer := Outside, activeWriters := 0, head := a.head + bytes, stream := a.stream + Window(a.storage, a.head, bytes))
  {
    var b := a.(producer := Leaving(true), head := a.head + bytes, stream := a.stream + Window(a.storage, a.head, bytes));
    assert Next(a, Commit) == b;
    AfterConcat(a, [Commit], [Leave]);
    AfterOne(a, Commit);
    AfterOne(b, Leave);
  }

  lemma LeavesRefused(s: State, limit: nat)
    requires Sane(s) && s.producer == Leaving(false) && s.activeWriters == 1
    ensures After(s, Publishing(limit)) == s.(producer := Outside, activeWriters := 0)
  {
    AfterConcat(s, [Prepare(limit)], [Commit] + [Leave]);
    AfterOne(s, Prepare(limit));
    AfterConcat(s, [Commit], [Leave]);
    AfterOne(s, Commit);
    AfterOne(s, Leave);
  }

  /**
   * Left alone with the gate open, a producer publishes its whole quantum exactly when it fits below both the storage and
   * the watermark, and is otherwise turned away with nothing changed; either way no writer stays counted.
   */
  lemma ProducerPublishes(s: State, frames: nat, limit: nat)
    requires Inv(s) && s.producer.Outside? && s.accepting && frames > 0
    ensures var u := After(s, Entering(frames, limit) + Publishing(limit)); var bytes := frames * s.stride;
            var fits := (s.head - s.tail) / s.stride + frames <= limit && frames <= (s.capacity - (s.head - s.tail)) / s.stride;
            && u.producer.Outside? && u.activeWriters == 0
            && u.head == (if fits then s.head + bytes else s.head)
            && u.stream == (if fits then s.stream + Window(s.storage, s.head, bytes) else s.stream)
            && u == s.(producer := Outside, frames := frames, activeWriters := 0, head := u.head, stream := u.stream)
  {
    assert frames <= Writable(s, limit)
           <==> (s.head - s.tail) / s.stride + frames <= limit && frames <= (s.capacity - (s.head - s.tail)) / s.stride;
    if frames <= Writable(s, limit) {
      FittingGoesThrough(s, frames, limit);
    } else {
      OthersTurnedAway(s, frames, limit);
    }
  }

  lemma FittingGoesThrough(s: State, frames: nat, limit: nat)
    requires Inv(s) && s.producer.Outside? && s.accepting && 0 < frames <= Writable(s, limit)
    ensures After(s, Entering(frames, limit) + Publishing(limit))
            == s.(producer := Outside, frames := frames, activeWriters := 0, head := s.head + frames * s.stride,
                  stream := s.stream + Window(s.storage, s.head, frames * s.stride))
  {
    var v := After(s, Entering(frames, limit));
    AfterConcat(s, Entering(frames, limit), Publishing(limit));
    EntersThrough(s, frames, limit);
    AdmittedHolds(s, v, frames, limit);
    PublishesThrough(v, limit);
  }

  lemma OthersTurnedAway(s: State, frames: nat, limit: nat)
    requires Inv(s) && s.producer.Outside? && s.accepting && frames > 0 && frames > Writable(s, limit)
    ensures After(s, Entering(frames, limit) + Publishing(limit)) == s.(producer := Outside, frames := frames, activeWriters := 0)
  {
    var v := After(s, Entering(frames, limit));
    AfterConcat(s, Entering(frames, limit), Publishing(limit));
    EntersThrough(s, frames, limit);
    RefusedHolds(s, v, frames);
    LeavesRefused(v, limit);
  }

  lemma RefusedHolds(s: State, v: State, frames: nat)
    requires Inv(s) && frames > 0 && v == s.(frames := frames, activeWriters := 1, producer := Leaving(false))
    ensures Sane(v)
  {
  }

  lemma AdmittedHolds(s: State, v: State, frames: nat, limit: nat)
    requires Inv(s) && s.producer.Outside? && s.accepting && frames > 0 && frames <= Writable(s, limit)
    requires v == s.(frames := frames, activeWriters := 1, producer := Admitted(s.tail, limit))
    ensures Inv(v)
  {
  }

  // ---- Fixed-width cursors --------------------------------------------------------------

  /** `size_t` cursors that wrapped still subtract to the occupancy. */
  lemma WrappedOccupancy(head: nat, tail: nat, width: nat)
    requires width > 0 && tail <= head < tail + width
    ensures (head % width - tail % width) % width == head - tail
  {
    var q := head / width - tail / width;
    assert head % width - tail % width == (head - tail) - q * width;
    ModShift(head - tail, q, width);
  }

  lemma ModShift(r: nat, q: int, width: nat)
    requires r < width
    ensures (r - q * width) % width == r
  {
    var x := r - q * width;
    var d := x / width + q;
    assert d * width == r - x % width;
    if d != 0 {
      LargeMultiple(d, width);
    }
  }

  lemma DropMultiple(a: nat, n: nat, capacity: nat)
    requires capacity > 0
    ensures (n * capacity + a) % capacity == a % capacity
  {
    assert (n + a / capacity) * capacity + a % capacity == n * capacity + a;
    DivModUnique(n + a / capacity, a % capacity, capacity);
  }

  lemma Regroup(q: nat, turns: nat, capacity: nat)
    ensures q * (turns * capacity) == (q * turns) * capacity
  {
  }

  /** And, the capacity dividing the width, still mask to the same storage offset. */
  lemma WrappedOffset(cursor: nat, capacity: nat, turns: nat)
    requires capacity > 0 && turns > 0
    ensures cursor % (turns * capacity) % capacity == cursor % capacity
  {
    var width := turns * capacity;
    var q, r := cursor / width, cursor % width;
    assert cursor == q * width + r;
    Regroup(q, turns, capacity);
    DropMultiple(r, q * turns, capacity);
  }
}
