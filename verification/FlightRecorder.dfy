/**
 * The packet flight recorder: a preallocated ring of records that keeps the newest ones and stops at
 * the first trigger event, against the history it is meant to be a window of.
 */
module FlightRecorder {
  import opened Core

  /** Event codes; zero is `Unknown`. The event mask is the set of codes whose bit it holds. */
  type Event = nat

  const UNKNOWN: Event := 0

  datatype Entry = Entry(event: Event, timestampNs: nat, a: nat, b: nat, ringFrames: nat, queuedFrames: nat)

  /** A slot of the ring; sequence zero means it was never written. */
  datatype Record = Record(sequence: nat, entry: Entry)

  datatype Op =
    | SetEnabled(enabled: bool)
    | Reset
    | SetMask(mask: set<Event>)
    | SetTrigger(trigger: Event)
    | Note(entry: Entry)

  /** What the recorder is a window of. */
  datatype Log = Log(enabled: bool, frozen: bool, mask: set<Event>, trigger: Event, history: seq<Entry>)

  const FRESH: Log := Log(false, false, {}, UNKNOWN, [])

  predicate Admits(mask: set<Event>, event: Event) {
    mask == {} || event in mask
  }

  function Step(log: Log, op: Op): Log {
    match op
    case SetEnabled(enabled) =>
      log.(enabled := enabled, frozen := false, history := if enabled then [] else log.history)
    case Reset => log.(frozen := false, history := [])
    case SetMask(mask) => log.(mask := mask)
    case SetTrigger(trigger) => log.(trigger := trigger)
    case Note(entry) =>
      if !log.enabled || log.frozen || !Admits(log.mask, entry.event) then log
      else log.(history := log.history + [entry], frozen := entry.event == log.trigger)
  }

  function Replay(ops: seq<Op>): Log {
    if ops == [] then FRESH else Step(Replay(ops[..|ops| - 1]), ops[|ops| - 1])
  }

  // ---- What a session's history is --------------------------------------------------------

  function Notes(entries: seq<Entry>): (ops: seq<Op>)
    ensures |ops| == |entries|
  {
    seq(|entries|, i requires 0 <= i < |entries| => Note(entries[i]))
  }

  function Filtered(entries: seq<Entry>, mask: set<Event>): seq<Entry> {
    if entries == [] then []
    else
      var front, last := Filtered(entries[..|entries| - 1], mask), entries[|entries| - 1];
      if Admits(mask, last.event) then front + [last] else front
  }

  /** Everything up to and including the first trigger. */
  function UpTo(entries: seq<Entry>, trigger: Event): seq<Entry> {
    if entries == [] then []
    else if entries[0].event == trigger then [entries[0]]
    else [entries[0]] + UpTo(entries[1..], trigger)
  }

  predicate Triggered(entries: seq<Entry>, trigger: Event) {
    exists i :: 0 <= i < |entries| && entries[i].event == trigger
  }

  lemma {:induction false} UpToGrows(entries: seq<Entry>, last: Entry, trigger: Event)
    ensures UpTo(entries + [last], trigger)
            == if Triggered(entries, trigger) then UpTo(entries, trigger) else UpTo(entries, trigger) + [last]
  {
    var whole := entries + [last];
    if entries == [] {
      assert whole[1..] == [];
    } else {
      assert whole[1..] == entries[1..] + [last] && whole[0] == entries[0];
      if entries[0].event != trigger {
        UpToGrows(entries[1..], last, trigger);
        assert Triggered(entries, trigger) <==> Triggered(entries[1..], trigger) by {
          TriggeredTail(entries, trigger);
        }
        assert [entries[0]] + (UpTo(entries[1..], trigger) + [last]) == [entries[0]] + UpTo(entries[1..], trigger) + [last];
      } else {
        assert Triggered(entries, trigger);
      }
    }
  }

  lemma TriggeredTail(entries: seq<Entry>, trigger: Event)
    requires entries != [] && entries[0].event != trigger
    ensures Triggered(entries, trigger) <==> Triggered(entries[1..], trigger)
  {
    if Triggered(entries, trigger) {
      var i :| 0 <= i < |entries| && entries[i].event == trigger;
      assert entries[1..][i - 1].event == trigger;
    }
    if Triggered(entries[1..], trigger) {
      var i :| 0 <= i < |entries[1..]| && entries[1..][i].event == trigger;
      assert entries[i + 1].event == trigger;
    }
  }

  /** A log that has recorded exactly these session events under its own mask and trigger. */
  predicate Records(log: Log, mask: set<Event>, trigger: Event, entries: seq<Entry>) {
    var kept := Filtered(entries, mask);
    && log.enabled && log.mask == mask && log.trigger == trigger
    && log.history == UpTo(kept, trigger)
    && (log.frozen <==> Triggered(kept, trigger))
  }

  lemma RecordsNext(log: Log, mask: set<Event>, trigger: Event, entries: seq<Entry>, last: Entry)
    requires Records(log, mask, trigger, entries)
    ensures Records(Step(log, Note(last)), mask, trigger, entries + [last])
  {
    var kept, whole := Filtered(entries, mask), entries + [last];
    assert whole[..|whole| - 1] == entries && whole[|whole| - 1] == last;
    if Admits(mask, last.event) {
      UpToGrows(kept, last, trigger);
      TriggeredGrows(kept, last, trigger);
    }
  }

  /**
   * Whatever came before, a session's history is the mask-filtered stream of its events since it was
   * enabled, up to and including the first trigger.
   */
  lemma {:induction false} SessionHistory(before: seq<Op>, entries: seq<Entry>)
    ensures Records(Replay(before + [SetEnabled(true)] + Notes(entries)), Replay(before).mask, Replay(before).trigger, entries)
    decreases |entries|
  {
    var start := before + [SetEnabled(true)];
    if entries == [] {
      ReplayAppend(before, SetEnabled(true));
      assert start + Notes(entries) == start;
    } else {
      var n := |entries| - 1;
      var front, last := entries[..n], entries[n];
      SessionHistory(before, front);
      assert start + Notes(entries) == start + Notes(front) + [Note(last)];
      ReplayAppend(start + Notes(front), Note(last));
      RecordsNext(Replay(start + Notes(front)), Replay(before).mask, Replay(before).trigger, front, last);
      assert front + [last] == entries;
    }
  }

  lemma {:induction false} FilterKeepsTrigger(entries: seq<Entry>, mask: set<Event>, trigger: Event)
    ensures Triggered(Filtered(entries, mask), trigger) <==> Admits(mask, trigger) && Triggered(entries, trigger)
    decreases |entries|
  {
    if entries != [] {
      var front, last := entries[..|entries| - 1], entries[|entries| - 1];
      FilterKeepsTrigger(front, mask, trigger);
      TriggeredGrows(front, last, trigger);
      TriggeredGrows(Filtered(front, mask), last, trigger);
      assert front + [last] == entries;
    }
  }

  /**
   * Setting the trigger to `Unknown` leaves a session unfrozen exactly as long as it notes no `Unknown` event its
   * mask admits; it does not switch the trigger off.
   */
  lemma UnknownIsATrigger(before: seq<Op>, entries: seq<Entry>)
    requires Replay(before).trigger == UNKNOWN
    ensures Replay(before + [SetEnabled(true)] + Notes(entries)).frozen
            <==> Admits(Replay(before).mask, UNKNOWN) && Triggered(entries, UNKNOWN)
  {
    SessionHistory(before, entries);
    FilterKeepsTrigger(entries, Replay(before).mask, UNKNOWN);
  }

  /** A fresh recorder, told nothing of triggers, stops at the first `Unknown` event and drops the next. */
  lemma UnknownFreezes(next: Entry)
    ensures var unknown := Entry(UNKNOWN, 0, 0, 0, 0, 0);
            var log := Replay([SetTrigger(UNKNOWN), SetEnabled(true)] + Notes([unknown, next]));
            log.frozen && log.history == [unknown]
  {
    var unknown := Entry(UNKNOWN, 0, 0, 0, 0, 0);
    var before := [SetTrigger(UNKNOWN)];
    assert before[..0] == [];
    assert Replay(before) == Step(FRESH, SetTrigger(UNKNOWN));
    assert before + [SetEnabled(true)] == [SetTrigger(UNKNOWN), SetEnabled(true)];
    SessionHistory(before, [unknown, next]);
    assert [unknown, next][..1][..0] == [];
    assert Filtered([unknown, next][..1], {}) == [unknown];
    assert Filtered([unknown, next], {}) == [unknown, next];
    assert UpTo([unknown, next], UNKNOWN) == [unknown];
    assert [unknown, next][0].event == UNKNOWN && Triggered([unknown, next], UNKNOWN);
  }

  lemma TriggeredGrows(entries: seq<Entry>, last: Entry, trigger: Event)
    ensures Triggered(entries + [last], trigger) <==> Triggered(entries, trigger) || last.event == trigger
  {
    var whole := entries + [last];
    if Triggered(entries, trigger) {
      var i :| 0 <= i < |entries| && entries[i].event == trigger;
      assert whole[i].event == trigger;
    }
    if last.event == trigger {
      assert whole[|entries|].event == trigger;
    }
  }

  /** Outside a session nothing is recorded, and what the last one left stays readable until a reset or the next. */
  lemma {:induction false} DisabledKeepsHistory(before: seq<Op>, entries: seq<Entry>)
    ensures var log := Replay(before + [SetEnabled(false)] + Notes(entries));
            && !log.enabled && !log.frozen && log.history == Replay(before).history
            && log.mask == Replay(before).mask && log.trigger == Replay(before).trigger
    decreases |entries|
  {
    var start := before + [SetEnabled(false)];
    if entries == [] {
      ReplayAppend(before, SetEnabled(false));
      assert start + Notes(entries) == start;
    } else {
      var n := |entries| - 1;
      DisabledKeepsHistory(before, entries[..n]);
      assert start + Notes(entries) == start + Notes(entries[..n]) + [Note(entries[n])];
      ReplayAppend(start + Notes(entries[..n]), Note(entries[n]));
    }
  }

  /** A reset forgets what was recorded and rearms the trigger; mask and trigger are changed by their setters alone. */
  lemma SettersChange(before: seq<Op>, mask: set<Event>, trigger: Event)
    ensures var log := Replay(before);
            && Replay(before + [Reset]) == Log(log.enabled, false, log.mask, log.trigger, [])
            && Replay(before + [SetMask(mask)]) == Log(log.enabled, log.frozen, mask, log.trigger, log.history)
            && Replay(before + [SetTrigger(trigger)]) == Log(log.enabled, log.frozen, log.mask, trigger, log.history)
  {
    ReplayAppend(before, Reset);
    ReplayAppend(before, SetMask(mask));
    ReplayAppend(before, SetTrigger(trigger));
  }

  // ---- The recorder -----------------------------------------------------------------------

  const LARGEST: nat := 0x10_0000

  function PowerOfTwo(k: nat): (p: nat)
    ensures p > 0
  {
    if k == 0 then 1 else 2 * PowerOfTwo(k - 1)
  }

  lemma {:induction false} PowerGrows(j: nat, k: nat)
    requires j <= k
    ensures PowerOfTwo(j) <= PowerOfTwo(k)
    decreases k
  {
    if j < k {
      PowerGrows(j, k - 1);
    }
  }

  lemma Twentieth()
    ensures PowerOfTwo(20) == LARGEST
  {
    assert PowerOfTwo(4) == 0x10;
    assert PowerOfTwo(8) == 0x100;
    assert PowerOfTwo(12) == 0x1000;
    assert PowerOfTwo(16) == 0x1_0000;
  }

  lemma ReplayAppend(ops: seq<Op>, op: Op)
    ensures Replay(ops + [op]) == Step(Replay(ops), op)
  {
    assert (ops + [op])[..|ops|] == ops;
  }

  class Recorder {
    const records: array<Record>
    var nextSequence: nat
    var enabled: bool
    var frozen: bool
    var eventMask: set<Event>
    var freezeTrigger: Event
    ghost var ops: seq<Op>          // every operation so far
    ghost var log: Log

    ghost predicate Settings()
      reads this
    {
      && log == Replay(ops)
      && log.enabled == enabled && log.frozen == frozen && log.mask == eventMask && log.trigger == freezeTrigger
      && nextSequence == |log.history|
    }

    /** Each of the newest events sits, numbered from one, in the slot its index selects. */
    ghost predicate Holds(history: seq<Entry>)
      reads records
    {
      && records.Length > 0
      && forall k :: 0 <= k < |history| && |history| - records.Length <= k ==>
           records[k % records.Length] == Record(k + 1, history[k])
    }

    ghost predicate Valid()
      reads this, records
    {
      Settings() && Holds(log.history)
    }

    ghost method Append(op: Op)
      requires log == Replay(ops)
      modifies this`ops, this`log
      ensures ops == old(ops) + [op] && log == Replay(ops) && log == Step(old(log), op)
    {
      ReplayAppend(ops, op);
      ops := ops + [op];
      log := Step(log, op);
    }

    constructor (requestedCapacity: nat)
      ensures Valid() && ops == [] && fresh(records)
      ensures exists k :: k <= 20 && records.Length == PowerOfTwo(k)
      ensures records.Length >= Min(requestedCapacity, LARGEST)
      ensures records.Length > 1 ==> records.Length / 2 < requestedCapacity
    {
      var capacity := 1;
      ghost var k: nat := 0;
      Twentieth();
      while capacity < requestedCapacity && capacity < LARGEST
        invariant k <= 20 && capacity == PowerOfTwo(k)
        invariant capacity > 1 ==> capacity / 2 < requestedCapacity
        decreases 20 - k
      {
        if k == 20 {
          assert false;
        }
        capacity, k := capacity * 2, k + 1;
      }
      records := new Record[capacity](_ => Record(0, Entry(UNKNOWN, 0, 0, 0, 0, 0)));
      nextSequence, enabled, frozen, eventMask, freezeTrigger := 0, false, false, {}, UNKNOWN;
      ops, log := [], FRESH;
    }

    /** Every slot back to never written. */
    method ClearSlots()
      modifies records
    {
      for i := 0 to records.Length {
        records[i] := records[i].(sequence := 0, entry := records[i].entry.(event := UNKNOWN));
      }
    }

    /** `reset`. */
    method ResetHistory()
      requires Valid()
      modifies this`nextSequence, this`frozen, this`ops, this`log, records
      ensures Valid() && ops == old(ops) + [Reset]
    {
      Append(Reset);
      ClearSlots();
      nextSequence, frozen := 0, false;
    }

    method SetRecording(on: bool)
      requires Valid()
      modifies this`nextSequence, this`enabled, this`frozen, this`ops, this`log, records
      ensures Valid() && ops == old(ops) + [SetEnabled(on)]
    {
      Append(SetEnabled(on));
      if on {
        ClearSlots();
        nextSequence := 0;
      }
      frozen := false;
      enabled := on;
    }

    method SetEventMask(mask: set<Event>)
      requires Valid()
      modifies this`eventMask, this`ops, this`log
      ensures Valid() && ops == old(ops) + [SetMask(mask)]
    {
      Append(SetMask(mask));
      eventMask := mask;
    }

    method SetFreezeTrigger(trigger: Event)
      requires Valid()
      modifies this`freezeTrigger, this`ops, this`log
      ensures Valid() && ops == old(ops) + [SetTrigger(trigger)]
    {
      Append(SetTrigger(trigger));
      freezeTrigger := trigger;
    }

    /** `record`: one slot overwritten, numbered, then possibly the freeze. */
    method NoteEvent(entry: Entry)
      requires Valid()
      modifies this`nextSequence, this`frozen, this`ops, this`log, records
      ensures Valid() && ops == old(ops) + [Note(entry)]
    {
      ghost var history := log.history;
      Append(Note(entry));
      if !enabled || frozen || !(eventMask == {} || entry.event in eventMask) {
        return;
      }
      var sequence := nextSequence;
      nextSequence := nextSequence + 1;
      OthersApart(sequence, records.Length);
      records[sequence % records.Length] := Record(sequence + 1, entry);
      if entry.event == freezeTrigger {
        frozen := true;
      }
      assert forall k :: 0 <= k < |history| && |history| + 1 - records.Length <= k ==>
          k % records.Length != sequence % records.Length;
    }

    /** `snapshot`: the newest events that fit, oldest first. */
    method Snapshot(out: array<Record>, capacity: nat) returns (n: nat)
      requires Valid() && out != records && capacity <= out.Length
      modifies out
      ensures Valid()
      ensures var history := log.history;
              && n == Min(capacity, Min(records.Length, |history|))
              && forall i :: 0 <= i < n ==>
                   out[i] == Record(|history| - n + i + 1, history[|history| - n + i])
      ensures forall i :: n <= i < out.Length ==> out[i] == old(out[i])
    {
      ghost var history := log.history;
      if capacity == 0 {
        return 0;
      }
      var total := nextSequence;
      var available := if total < records.Length then total else records.Length;
      var first := total - available;
      n := if available < capacity then available else capacity;
      var begin := first + (available - n);
      for i := 0 to n
        invariant forall k :: 0 <= k < i ==> out[k] == Record(begin + k + 1, history[begin + k])
        invariant forall k :: n <= k < out.Length ==> out[k] == old(out[k])
      {
        out[i] := records[(begin + i) % records.Length];
      }
    }

    /** `dropped`: what wrap-around cost. */
    method Dropped() returns (dropped: nat)
      requires Valid()
      ensures dropped + Min(|log.history|, records.Length) == |log.history|
    {
      dropped := if nextSequence > records.Length then nextSequence - records.Length else 0;
    }
  }

  lemma OthersApart(sequence: nat, capacity: nat)
    requires capacity > 0
    ensures forall k :: 0 <= k < sequence && sequence + 1 - capacity <= k ==> k % capacity != sequence % capacity
  {
    forall k | 0 <= k < sequence && sequence + 1 - capacity <= k
      ensures k % capacity != sequence % capacity
    {
      DistinctModulo(k, sequence, capacity);
    }
  }

  /**
   * A snapshot of a session: the newest events of the filtered stream up to the first trigger,
   * whatever the recorder went through before the session was enabled.
   */
  method SessionSnapshot(recorder: Recorder, entries: seq<Entry>, out: array<Record>, capacity: nat) returns (n: nat)
    requires recorder.Valid() && out != recorder.records && capacity <= out.Length
    modifies recorder, recorder.records, out
    ensures var kept := UpTo(Filtered(entries, old(recorder.eventMask)), old(recorder.freezeTrigger));
            && n == Min(capacity, Min(recorder.records.Length, |kept|))
            && forall i :: 0 <= i < n ==> out[i].entry == kept[|kept| - n + i]
  {
    ghost var before := recorder.ops;
    recorder.SetRecording(true);
    ghost var start := recorder.ops;
    for i := 0 to |entries|
      invariant recorder.Valid() && recorder.ops == start + Notes(entries[..i])
    {
      recorder.NoteEvent(entries[i]);
      assert entries[..i + 1] == entries[..i] + [entries[i]];
      assert Notes(entries[..i + 1]) == Notes(entries[..i]) + [Note(entries[i])];
    }
    assert entries[..|entries|] == entries;
    SessionHistory(before, entries);
    n := recorder.Snapshot(out, capacity);
  }
}
