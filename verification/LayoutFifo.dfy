/**
 * The packet-layout FIFO at the grain of single atomic operations. The event thread logs entries
 * and, on overflow, moves the reader's cursor with a compare-exchange; a reader on another thread
 * (priming) or on the same one (a completion) takes `count` entries with a compare-exchange of its
 * own. Every interleaving of the two is a run.
 */
module LayoutFifo {
  import opened Core

  const CAPACITY: nat := 256

  /** Where the writer is between two of its atomic operations, for one capture packet. */
  datatype Writer =
    | Waiting
    | LoadedRead(read: nat)     // has loaded implicitRead_, not yet decided about overflow
    | Storing                   // room is certain; the slot store comes next
    | Publishing                // slot stored; the cursor store comes next

  /** Where the reader is. `taken` are the entries copied so far at cursor `read`. */
  datatype Reader =
    | Ready
    | HasRead(read: nat)
    | Copying(read: nat, write: nat, taken: seq<nat>)

  datatype State = State(
    slots: seq<nat>, read: nat, write: nat,
    writer: Writer, frames: nat,            // the entry being logged
    reader: Reader, count: nat,             // entries the current take needs
    log: seq<nat>,                          // every entry published, by index
    result: Option<(nat, seq<nat>)>,        // the last successful take: index and entries
    overruns: nat)

  datatype Step =
    | WriterBegin(frames: nat)
    | WriterDecide(spurious: bool)          // test for overflow; if full, one compare-exchange
    | WriterStore
    | WriterPublish
    | ReaderBegin(count: nat)               // load implicitRead_
    | ReaderLoadWrite                       // load implicitWrite_; too few entries ends the take
    | ReaderCopy                            // load one slot
    | ReaderCommit(spurious: bool)          // the compare-exchange on implicitRead_
    | ReaderGiveUp                          // the PCM check fails, or priming runs out

  function Slot(index: nat): nat {
    index % CAPACITY
  }

  ghost predicate Enabled(s: State, step: Step) {
    match step
    case WriterBegin(_) => s.writer.Waiting?
    case WriterDecide(_) => s.writer.LoadedRead?
    case WriterStore => s.writer.Storing? && |s.slots| == CAPACITY
    case WriterPublish => s.writer.Publishing?
    case ReaderBegin(count) => s.reader.Ready? && 1 <= count <= CAPACITY
    case ReaderLoadWrite => s.reader.HasRead?
    case ReaderCopy => s.reader.Copying? && |s.reader.taken| < s.count && |s.slots| == CAPACITY
    case ReaderCommit(_) => s.reader.Copying? && |s.reader.taken| == s.count
    case ReaderGiveUp => s.reader.Copying?
  }

  /** The writer's overflow test and, when full, its attempt to resynchronise the reader. */
  ghost function Decide(s: State, seen: nat, spurious: bool): State {
    if s.write - seen < CAPACITY then s.(writer := Storing)
    else if s.read == seen && !spurious then
      s.(writer := Storing, read := s.write, overruns := s.overruns + 1)
    else s.(writer := LoadedRead(s.read))
  }

  ghost function Next(s: State, step: Step): State {
    if !Enabled(s, step) then s
    else
      match step
      case WriterBegin(frames) => s.(writer := LoadedRead(s.read), frames := frames)
      case WriterDecide(spurious) => Decide(s, s.writer.read, spurious)
      case WriterStore => s.(writer := Publishing, slots := s.slots[Slot(s.write) := s.frames])
      case WriterPublish => s.(writer := Waiting, write := s.write + 1, log := s.log + [s.frames])
      case ReaderBegin(count) => s.(reader := HasRead(s.read), count := count)
      case ReaderLoadWrite =>
        if s.write < s.reader.read || s.write - s.reader.read < s.count then s.(reader := Ready)
        else s.(reader := Copying(s.reader.read, s.write, []))
      case ReaderCopy =>
        var at := Slot(s.reader.read + |s.reader.taken|);
        s.(reader := s.reader.(taken := s.reader.taken + [s.slots[at]]))
      case ReaderCommit(spurious) =>
        if s.read == s.reader.read && !spurious then
          s.(reader := Ready, read := s.read + s.count, result := Some((s.reader.read, s.reader.taken)))
        else s.(reader := HasRead(s.read))
      case ReaderGiveUp => s.(reader := Ready)
  }

  ghost predicate Init(s: State) {
    && |s.slots| == CAPACITY && s.read == 0 && s.write == 0 && s.log == [] && s.overruns == 0
    && s.writer.Waiting? && s.reader.Ready? && s.result.None?
  }

  // ---- Invariant ------------------------------------------------------------------------

  /** Cursors in order, and every unread entry still in its slot. */
  ghost predicate QueueOk(s: State) {
    && |s.slots| == CAPACITY && s.write == |s.log| && s.read <= s.write <= s.read + CAPACITY
    && forall i :: s.read <= i < s.write ==> s.slots[Slot(i)] == s.log[i]
  }

  ghost predicate WriterOk(s: State) {
    match s.writer
    case Waiting => true
    case LoadedRead(seen) => seen <= s.read
    case Storing => s.write < s.read + CAPACITY
    case Publishing => s.write < s.read + CAPACITY && |s.slots| == CAPACITY && s.slots[Slot(s.write)] == s.frames
  }

  /** While nobody has moved the cursor under the reader, what it copied is what was logged. */
  ghost predicate ReaderOk(s: State) {
    match s.reader
    case Ready => true
    case HasRead(r) => r <= s.read
    case Copying(r, w, taken) =>
      && r <= s.read && w <= s.write && r + s.count <= w && |taken| <= s.count
      && (r == s.read ==> s.write <= |s.log| && forall k :: 0 <= k < |taken| ==> taken[k] == s.log[r + k])
  }

  /** The last take returned exactly the entries logged at its consecutive indices. */
  ghost predicate ResultOk(s: State) {
    s.result.Some? ==>
      var (r, taken) := s.result.value;
      r + |taken| <= s.read && r + |taken| <= |s.log| && taken == s.log[r..r + |taken|]
  }

  ghost predicate Inv(s: State) {
    QueueOk(s) && WriterOk(s) && ReaderOk(s) && ResultOk(s)
  }

  lemma SlotsDistinct(a: nat, b: nat)
    requires a < b < a + CAPACITY
    ensures Slot(a) != Slot(b)
  {
  }

  lemma StoreKeeps(s: State)
    requires Inv(s) && s.writer.Storing?
    ensures Inv(Next(s, WriterStore))
  {
    var u := Next(s, WriterStore);
    forall i | s.read <= i < s.write
      ensures u.slots[Slot(i)] == u.log[i]
    {
      SlotsDistinct(i, s.write);
    }
  }

  lemma CopyKeeps(s: State)
    requires Inv(s) && Enabled(s, ReaderCopy)
    ensures Inv(Next(s, ReaderCopy))
  {
    if s.reader.read == s.read {
      var i := s.read + |s.reader.taken|;
      assert s.slots[Slot(i)] == s.log[i];
    }
  }

  lemma PublishKeeps(s: State)
    requires Inv(s) && s.writer.Publishing?
    ensures Inv(Next(s, WriterPublish))
  {
    if s.result.Some? {
      var (r, taken) := s.result.value;
      assert (s.log + [s.frames])[r..r + |taken|] == s.log[r..r + |taken|];
    }
  }

  lemma CommitKeeps(s: State, spurious: bool)
    requires Inv(s) && Enabled(s, ReaderCommit(spurious))
    ensures Inv(Next(s, ReaderCommit(spurious)))
  {
    if s.read == s.reader.read {
      assert s.reader.taken == s.log[s.read..s.read + s.count];
    }
  }

  /** The writer's test, with the resynchronisation it may attempt. */
  lemma DecideKeeps(s: State, spurious: bool)
    requires Inv(s) && Enabled(s, WriterDecide(spurious))
    ensures Inv(Next(s, WriterDecide(spurious)))
  {
  }

  lemma LoadKeeps(s: State, step: Step)
    requires Inv(s) && Enabled(s, step)
    requires step.WriterBegin? || step.ReaderBegin? || step.ReaderLoadWrite? || step.ReaderGiveUp?
    ensures Inv(Next(s, step))
  {
  }

  lemma StepKeeps(s: State, step: Step)
    requires Inv(s)
    ensures Inv(Next(s, step))
  {
    if Enabled(s, step) {
      match step {
        case WriterStore => StoreKeeps(s);
        case ReaderCopy => CopyKeeps(s);
        case WriterPublish => PublishKeeps(s);
        case ReaderCommit(spurious) => CommitKeeps(s, spurious);
        case WriterDecide(spurious) => DecideKeeps(s, spurious);
        case _ => LoadKeeps(s, step);
      }
    }
  }

  // ---- Runs -----------------------------------------------------------------------------

  ghost predicate IsRun(run: seq<State>, steps: seq<Step>) {
    && |run| == |steps| + 1 && Init(run[0])
    && forall i :: 0 <= i < |steps| ==> run[i + 1] == Next(run[i], steps[i])
  }

  lemma {:induction false} RunHolds(run: seq<State>, steps: seq<Step>, i: nat)
    requires IsRun(run, steps) && i < |run|
    ensures Inv(run[i])
  {
    if i > 0 {
      RunHolds(run, steps, i - 1);
      StepKeeps(run[i - 1], steps[i - 1]);
    }
  }

  /** Depth stays within the storage, and an overflow never rewinds the reader. */
  lemma CursorsMonotone(run: seq<State>, steps: seq<Step>, i: nat, j: nat)
    requires IsRun(run, steps) && i <= j < |run|
    ensures 0 <= run[j].write - run[j].read <= CAPACITY
    ensures run[i].read <= run[j].read && run[i].log <= run[j].log
  {
    RunHolds(run, steps, j);
    RunMonotone(run, steps, i, j);
  }

  lemma {:induction false} RunMonotone(run: seq<State>, steps: seq<Step>, i: nat, j: nat)
    requires IsRun(run, steps) && i <= j < |run|
    ensures run[i].read <= run[j].read && run[i].log <= run[j].log
    decreases j
  {
    if i < j {
      RunMonotone(run, steps, i, j - 1);
      RunHolds(run, steps, j - 1);
      StepMonotone(run[j - 1], steps[j - 1]);
    }
  }

  lemma StepMonotone(s: State, step: Step)
    requires Inv(s)
    ensures s.read <= Next(s, step).read && s.log <= Next(s, step).log
  {
  }

  /**
   * Linearizability of a take: the step that succeeds returns the `count` entries logged at the
   * cursor it moves, in order, whatever the writer did in between.
   */
  lemma TakeLinearizable(run: seq<State>, steps: seq<Step>, i: nat)
    requires IsRun(run, steps) && i < |steps|
    requires steps[i].ReaderCommit? && Enabled(run[i], steps[i]) && run[i + 1].read != run[i].read
    ensures var s, u := run[i], run[i + 1];
            && u.read == s.read + s.count && s.read + s.count <= |s.log|
            && u.result == Some((s.read, s.log[s.read..s.read + s.count]))
  {
    RunHolds(run, steps, i);
    var s := run[i];
    assert s.reader.taken == s.log[s.read..s.read + s.count];
  }

  /** Only a take or an overflow moves the cursor; an overflow discards exactly a full FIFO. */
  lemma ReaderMoves(run: seq<State>, steps: seq<Step>, i: nat)
    requires IsRun(run, steps) && i < |steps| && run[i + 1].read != run[i].read
    ensures (steps[i].ReaderCommit? && run[i + 1].result != None && run[i + 1].overruns == run[i].overruns)
         || (steps[i].WriterDecide? && run[i + 1].read == run[i].read + CAPACITY
             && run[i + 1].overruns == run[i].overruns + 1)
  {
    RunHolds(run, steps, i);
  }

  /** Every logged entry is taken once, discarded by an overflow, or still queued. */
  ghost function TakenBy(run: seq<State>, steps: seq<Step>, i: nat): nat
    requires |run| == |steps| + 1 && i <= |steps|
  {
    if i == 0 then 0
    else
      TakenBy(run, steps, i - 1) + Taken(run[i - 1], steps[i - 1], run[i])
  }

  /** Entries a step hands to the reader. */
  function Taken(s: State, step: Step, u: State): nat {
    if step.ReaderCommit? && u.read != s.read then s.count else 0
  }

  /** One step logs, takes or discards, and the queue's length accounts for it. */
  lemma StepConserves(s: State, step: Step)
    requires Inv(s)
    ensures var u := Next(s, step);
            |u.log| - |s.log| == Taken(s, step, u) + CAPACITY * (u.overruns - s.overruns)
                                 + (u.write - u.read) - (s.write - s.read)
  {
  }

  lemma {:induction false} EntriesConserved(run: seq<State>, steps: seq<Step>, i: nat)
    requires IsRun(run, steps) && i < |run|
    ensures |run[i].log| == TakenBy(run, steps, i) + CAPACITY * run[i].overruns + (run[i].write - run[i].read)
  {
    if i > 0 {
      EntriesConserved(run, steps, i - 1);
      RunHolds(run, steps, i - 1);
      StepConserves(run[i - 1], steps[i - 1]);
    }
  }

  // ---- What the writer was given --------------------------------------------------------

  /** Frames of the packets whose logging has begun, in order. */
  ghost function Begun(run: seq<State>, steps: seq<Step>, i: nat): seq<nat>
    requires |run| == |steps| + 1 && i <= |steps|
  {
    if i == 0 then [] else Begun(run, steps, i - 1) + Given(run[i - 1], steps[i - 1])
  }

  ghost function Given(s: State, step: Step): seq<nat> {
    if step.WriterBegin? && s.writer.Waiting? then [step.frames] else []
  }

  /** The entry on its way. */
  ghost function Underway(s: State): seq<nat> {
    if s.writer.Waiting? then [] else [s.frames]
  }

  lemma StepLogs(s: State, step: Step)
    ensures var u := Next(s, step); u.log + Underway(u) == s.log + Underway(s) + Given(s, step)
  {
  }

  lemma {:induction false} LogChain(run: seq<State>, steps: seq<Step>, i: nat)
    requires |run| == |steps| + 1 && i < |run| && run[0].log == [] && run[0].writer.Waiting?
    requires forall k :: 0 <= k < |steps| ==>
               run[k + 1].log + Underway(run[k + 1]) == run[k].log + Underway(run[k]) + Given(run[k], steps[k])
    ensures run[i].log + Underway(run[i]) == Begun(run, steps, i)
  {
    if i > 0 {
      LogChain(run, steps, i - 1);
      var k := i - 1;
      assert run[k + 1].log + Underway(run[k + 1]) == run[k].log + Underway(run[k]) + Given(run[k], steps[k]);
    }
  }

  /** In every interleaving the log is the packets the writer was given, in order, but for the one it is working on. */
  lemma LogIsGiven(run: seq<State>, steps: seq<Step>, i: nat)
    requires IsRun(run, steps) && i < |run|
    ensures run[i].log + Underway(run[i]) == Begun(run, steps, i)
  {
    forall k | 0 <= k < |steps|
      ensures run[k + 1].log + Underway(run[k + 1]) == run[k].log + Underway(run[k]) + Given(run[k], steps[k])
    {
      StepLogs(run[k], steps[k]);
    }
    LogChain(run, steps, i);
  }

  // ---- What each end achieves -----------------------------------------------------------

  ghost function After(s: State, steps: seq<Step>): State
    decreases |steps|
  {
    if steps == [] then s else After(Next(s, steps[0]), steps[1..])
  }

  lemma {:induction false} AfterConcat(s: State, a: seq<Step>, b: seq<Step>)
    ensures After(s, a + b) == After(After(s, a), b)
    decreases |a|
  {
    if a == [] {
      assert a + b == b;
    } else {
      AfterConcat(Next(s, a[0]), a[1..], b);
      assert (a + b)[1..] == a[1..] + b;
    }
  }

  lemma AfterTwo(s: State, x: Step, y: Step)
    ensures After(s, [x, y]) == Next(Next(s, x), y)
  {
    var a := Next(s, x);
    assert [x, y][1..] == [y] && [y][1..] == [];
    assert After(s, [x, y]) == After(a, [y]);
    assert After(a, [y]) == Next(a, y);
  }

  function LogSteps(frames: nat): seq<Step> {
    [WriterBegin(frames), WriterDecide(false)] + [WriterStore, WriterPublish]
  }

  /** Left alone, a writer logs the entry it is given; a full FIFO loses its backlog first, and nothing else does. */
  lemma WriterLogs(s: State, frames: nat)
    requires Inv(s) && s.writer.Waiting?
    ensures var u := After(s, LogSteps(frames)); var full := s.write - s.read == CAPACITY;
            && u.writer.Waiting? && u.log == s.log + [frames] && u.write == s.write + 1
            && u.read == (if full then s.write else s.read)
            && u.overruns == s.overruns + (if full then 1 else 0)
            && u.reader == s.reader && u.result == s.result
  {
    var v := After(s, [WriterBegin(frames), WriterDecide(false)]);
    AfterConcat(s, [WriterBegin(frames), WriterDecide(false)], [WriterStore, WriterPublish]);
    WriterDecides(s, frames, v);
    AfterTwo(v, WriterStore, WriterPublish);
  }

  lemma WriterDecides(s: State, frames: nat, v: State)
    requires Inv(s) && s.writer.Waiting? && v == After(s, [WriterBegin(frames), WriterDecide(false)])
    ensures var full := s.write - s.read == CAPACITY;
            v == s.(writer := Storing, frames := frames, read := if full then s.write else s.read,
                    overruns := if full then s.overruns + 1 else s.overruns)
  {
    AfterTwo(s, WriterBegin(frames), WriterDecide(false));
    assert Next(s, WriterBegin(frames)) == s.(writer := LoadedRead(s.read), frames := frames);
  }

  function Copies(n: nat): (steps: seq<Step>)
    ensures |steps| == n
  {
    seq(n, _ => ReaderCopy)
  }

  lemma {:induction false} CopiesTaken(s: State, n: nat)
    requires Inv(s) && s.reader.Copying? && s.reader.read == s.read && |s.reader.taken| + n == s.count
    ensures var u := After(s, Copies(n));
            u == s.(reader := u.reader) && u.reader.Copying? && u.reader.read == s.read
            && u.reader.taken == s.log[s.read..s.read + s.count]
    decreases n
  {
    if n == 0 {
      assert s.reader.taken == s.log[s.read..s.read + s.count];
    } else {
      CopyKeeps(s);
      CopiesTaken(Next(s, ReaderCopy), n - 1);
      assert Copies(n)[1..] == Copies(n - 1);
    }
  }

  function TakeSteps(count: nat): seq<Step> {
    [ReaderBegin(count), ReaderLoadWrite] + Copies(count) + [ReaderCommit(false)]
  }

  lemma TakeBegins(s: State, count: nat)
    requires Inv(s) && s.reader.Ready? && 1 <= count <= CAPACITY
    ensures var u := After(s, [ReaderBegin(count), ReaderLoadWrite]);
            Inv(u) && u == if s.write - s.read >= count then s.(reader := Copying(s.read, s.write, []), count := count)
                           else s.(count := count)
  {
    AfterTwo(s, ReaderBegin(count), ReaderLoadWrite);
    StepKeeps(s, ReaderBegin(count));
    StepKeeps(Next(s, ReaderBegin(count)), ReaderLoadWrite);
  }

  lemma TakeEnds(s: State)
    requires s.reader.Copying? && s.reader.read == s.read && |s.reader.taken| == s.count
    ensures After(s, [ReaderCommit(false)])
            == s.(reader := Ready, read := s.read + s.count, result := Some((s.read, s.reader.taken)))
  {
    assert [ReaderCommit(false)][1..] == [];
  }

  lemma {:induction false} IdleCopies(s: State, n: nat)
    requires s.reader.Ready?
    ensures After(s, Copies(n) + [ReaderCommit(false)]) == s
    decreases n
  {
    if n == 0 {
      assert Copies(0) + [ReaderCommit(false)] == [ReaderCommit(false)];
      assert [ReaderCommit(false)][1..] == [];
    } else {
      assert (Copies(n) + [ReaderCommit(false)])[1..] == Copies(n - 1) + [ReaderCommit(false)];
      IdleCopies(s, n - 1);
    }
  }

  /** Left alone, a take of `count` gets the oldest `count` entries and moves past them if as many are queued, and nothing if not. */
  lemma ReaderTakes(s: State, count: nat)
    requires Inv(s) && s.reader.Ready? && 1 <= count <= CAPACITY
    ensures var u := After(s, TakeSteps(count));
            if s.write - s.read >= count
            then u.read == s.read + count && u.read <= |s.log| && u.result == Some((s.read, s.log[s.read..s.read + count]))
                 && u == s.(reader := Ready, count := count, read := u.read, result := u.result)
            else u == s.(count := count)
  {
    var v := After(s, [ReaderBegin(count), ReaderLoadWrite]);
    TakeBegins(s, count);
    assert After(s, TakeSteps(count)) == After(v, Copies(count) + [ReaderCommit(false)]) by {
      assert TakeSteps(count) == [ReaderBegin(count), ReaderLoadWrite] + (Copies(count) + [ReaderCommit(false)]);
      AfterConcat(s, [ReaderBegin(count), ReaderLoadWrite], Copies(count) + [ReaderCommit(false)]);
    }
    if s.write - s.read >= count {
      TakeGoesOn(v, count);
      TakenFrom(s, v, After(s, TakeSteps(count)), count);
    } else {
      IdleCopies(v, count);
    }
  }

  lemma TakenFrom(s: State, v: State, u: State, count: nat)
    requires v == s.(reader := v.reader, count := count) && v.read + count <= |v.log|
    requires u == v.(reader := Ready, read := v.read + count, result := Some((v.read, v.log[v.read..v.read + count])))
    ensures u.read == s.read + count <= |s.log| && u.result == Some((s.read, s.log[s.read..s.read + count]))
    ensures u == s.(reader := Ready, count := count, read := u.read, result := u.result)
  {
  }

  lemma TakeGoesOn(v: State, count: nat)
    requires Inv(v) && v.reader.Copying? && v.reader.read == v.read && v.reader.taken == [] && v.count == count
    ensures v.read + count <= |v.log|
    ensures After(v, Copies(count) + [ReaderCommit(false)])
            == v.(reader := Ready, read := v.read + count, result := Some((v.read, v.log[v.read..v.read + count])))
  {
    AfterConcat(v, Copies(count), [ReaderCommit(false)]);
    CopiesTaken(v, count);
    TakeEnds(After(v, Copies(count)));
  }

  /** A take interfered with starts over from where the cursor now is; one that finds too few entries gives up. */
  lemma TakeRetries(run: seq<State>, steps: seq<Step>, i: nat)
    requires IsRun(run, steps) && i < |steps| && Enabled(run[i], steps[i])
    ensures var s, u := run[i], run[i + 1];
            && (steps[i].ReaderCommit? && (s.read != s.reader.read || steps[i].spurious) ==>
                  u == s.(reader := HasRead(s.read)))
            && (steps[i].ReaderLoadWrite? ==>
                  u == s.(reader := if s.reader.read + s.count <= s.write then Copying(s.reader.read, s.write, []) else Ready))
  {
    RunHolds(run, steps, i);
  }
}
