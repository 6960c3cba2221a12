/**
 * The capture ring between the completion callback, which stores packet by packet and publishes once
 * at the end, and the render thread, which reserves, reads and releases. The two interleave freely.
 */
module CaptureStream {
  import opened Core
  import opened PlaybackRing
  import opened Spans

  /** What became of a stretch of the admitted stream, in bytes. */
  datatype Segment =
    | Read(from: nat, to: nat)
    | Trim(from: nat, to: nat)       // stale audio behind the frame limit, dropped by a read
    | Discard(from: nat, to: nat)    // dropped on request

  datatype State = State(
    stride: nat,
    ring: seq<Byte>, head: nat, tail: nat,           // captureRing_, captureHead_, captureTail_
    busy: bool, writeHead: nat, seenTail: nat,       // onCapture's locals
    region: Region,                                  // the render thread's reservation
    active: bool, live: bool,                        // captureActive_, captureLive_
    written: seq<Byte>,                              // every byte stored, in order
    log: seq<Segment>)

  datatype Step =
    | Begin
    | Store(payload: seq<Byte>)
    | Publish
    | Prepare(requested: int, limit: nat)
    | Commit
    | GoLive(keep: int)
    | Drop(maximum: int)
    | Deactivate

  /** Whole frames of a payload that fit behind the write cursor. */
  function Keep(bytes: nat, free: nat, stride: nat): (keep: nat)
    requires stride > 0
    ensures keep <= bytes && keep <= free
    ensures bytes <= free - free % stride ==> keep == bytes
  {
    Min(bytes, free - free % stride)
  }

  predicate Sane(s: State) {
    && s.stride > 0 && |s.ring| > 0
    && s.seenTail <= s.tail <= s.head <= s.writeHead <= s.seenTail + |s.ring|
  }

  predicate Enabled(s: State, step: Step)
    requires s.stride > 0
  {
    match step
    case Begin => !s.busy
    case Store(payload) => s.busy && |payload| % s.stride == 0
    case Publish => s.busy
    case Commit => true
    case Deactivate => true
    case _ => s.region == NO_REGION    // the render thread runs one call at a time
  }

  function Stored(s: State, payload: seq<Byte>): State
    requires Sane(s)
  {
    var keep := Keep(|payload|, |s.ring| - (s.writeHead - s.seenTail), s.stride);
    var offset := s.writeHead % |s.ring|;
    s.(ring := Spread(s.ring, offset, Min(keep, |s.ring| - offset), payload[..keep]),
       writeHead := s.writeHead + keep, written := s.written + payload[..keep])
  }

  /** Where a read starts once stale audio is trimmed. */
  function TrimmedTail(s: State, limit: nat): (cursor: nat)
    requires Sane(s)
    ensures s.tail <= cursor <= s.head
  {
    if s.head - s.tail > limit * s.stride then s.head - limit * s.stride else s.tail
  }

  function Reserve(s: State, requested: int, limit: nat): Region
    requires Sane(s)
  {
    if !s.active || requested <= 0 then NO_REGION
    else
      var cursor := TrimmedTail(s, limit);
      var frames := Min((s.head - cursor) / s.stride, requested);
      var offset := cursor % |s.ring|;
      var first := Min(frames * s.stride, |s.ring| - offset);
      FitsPhysically(frames, s.head - cursor, s.stride);
      Region(offset, first, frames * s.stride - first, cursor, frames, s.stride)
  }

  function Released(s: State): State {
    var r := s.region;
    if r.frames == 0 then s.(region := NO_REGION)
    else
      var next := r.cursor + r.frames * r.frameStride;
      s.(region := NO_REGION, tail := next,
         log := s.log + (if s.tail < r.cursor then [Trim(s.tail, r.cursor)] else []) + [Read(r.cursor, next)])
  }

  function Available(s: State, limit: nat): nat
    requires Sane(s)
  {
    if !s.active then 0 else Min((s.head - s.tail) / s.stride, limit)
  }

  function Dropped(s: State, frames: nat): State {
    if frames == 0 then s
    else s.(tail := s.tail + frames * s.stride, log := s.log + [Discard(s.tail, s.tail + frames * s.stride)])
  }

  /** Frames `beginCaptureLive` drops: everything but the newest `keep`, the first time only. */
  function PreRoll(s: State, keep: int): nat
    requires Sane(s)
  {
    var available := (s.head - s.tail) / s.stride;
    if s.live || !s.active then 0 else Max(0, available - Max(0, keep))
  }

  function DropCount(s: State, maximum: int): nat
    requires Sane(s)
  {
    if !s.active || maximum <= 0 then 0 else Min((s.head - s.tail) / s.stride, maximum)
  }

  function Next(s: State, step: Step): State {
    if !Sane(s) || !Enabled(s, step) then s
    else
      match step
      case Begin => s.(busy := true, seenTail := s.tail, writeHead := s.head)
      case Store(payload) => Stored(s, payload)
      case Publish => s.(busy := false, head := s.writeHead)
      case Prepare(requested, limit) => s.(region := Reserve(s, requested, limit))
      case Commit => Released(s)
      case GoLive(keep) => Dropped(s, PreRoll(s, keep)).(live := true)
      case Drop(maximum) => Dropped(s, DropCount(s, maximum))
      case Deactivate => s.(active := false)
  }

  predicate Init(s: State) {
    && s.stride > 0 && |s.ring| > 0
    && s.head == s.tail == s.writeHead == s.seenTail == 0 && !s.busy
    && s.region == NO_REGION && s.written == [] && s.log == []
  }

  predicate Callback(step: Step) {
    step.Begin? || step.Store? || step.Publish?
  }

  function Run(s: State, steps: seq<Step>): State {
    if steps == [] then s else Next(Run(s, steps[..|steps| - 1]), steps[|steps| - 1])
  }

  // ---- Invariant --------------------------------------------------------------------------

  ghost predicate DataOk(s: State) {
    && Sane(s) && |s.written| == s.writeHead && (!s.busy ==> s.writeHead == s.head)
    && Window(s.ring, s.tail, s.writeHead - s.tail) == s.written[s.tail..]
  }

  predicate WholeOk(s: State)
    requires s.stride > 0
  {
    s.head % s.stride == 0 && s.tail % s.stride == 0 && s.writeHead % s.stride == 0
  }

  predicate RegionOk(s: State)
    requires s.stride > 0 && |s.ring| > 0
  {
    s.region.frames > 0 ==>
      && s.region.frameStride == s.stride && s.region.cursor % s.stride == 0
      && s.tail <= s.region.cursor && s.region.cursor + s.region.frames * s.stride <= s.head
      && s.region.offset == s.region.cursor % |s.ring|
      && s.region.firstBytes == Min(s.region.frames * s.stride, |s.ring| - s.region.offset)
      && s.region.firstBytes + s.region.secondBytes == s.region.frames * s.stride
  }

  /** The segments tile `[0, end)` in order, each of whole frames and none empty. */
  predicate Tiled(log: seq<Segment>, end: nat, stride: nat)
    requires stride > 0
  {
    if log == [] then end == 0
    else
      var last := log[|log| - 1];
      && last.to == end && last.from < last.to && last.from % stride == 0 && last.to % stride == 0
      && Tiled(log[..|log| - 1], last.from, stride)
  }

  ghost predicate Inv(s: State) {
    DataOk(s) && WholeOk(s) && RegionOk(s) && Tiled(s.log, s.tail, s.stride)
  }

  lemma TileOne(log: seq<Segment>, end: nat, segment: Segment, stride: nat)
    requires stride > 0 && Tiled(log, end, stride)
    requires segment.from == end < segment.to && end % stride == 0 && segment.to % stride == 0
    ensures Tiled(log + [segment], segment.to, stride)
  {
    assert (log + [segment])[..|log|] == log;
  }

  lemma KeepWhole(bytes: nat, free: nat, stride: nat)
    requires stride > 0 && bytes % stride == 0
    ensures Keep(bytes, free, stride) % stride == 0
  {
    assert free - free % stride == free / stride * stride;
    WholeProduct(free / stride, stride);
  }

  lemma StoreKeeps(s: State, payload: seq<Byte>)
    requires Inv(s) && Enabled(s, Store(payload))
    ensures Inv(Stored(s, payload))
  {
    var free := |s.ring| - (s.writeHead - s.seenTail);
    var keep := Keep(|payload|, free, s.stride);
    KeepWhole(|payload|, free, s.stride);
    WholeSum(s.writeHead, keep, s.stride);
    StoreData(s, payload[..keep]);
  }

  /** Storing behind the write cursor leaves everything the render thread may see as it was. */
  lemma StoreData(s: State, bytes: seq<Byte>)
    requires DataOk(s) && s.writeHead + |bytes| <= s.seenTail + |s.ring|
    ensures var offset := s.writeHead % |s.ring|;
            var ring := Spread(s.ring, offset, Min(|bytes|, |s.ring| - offset), bytes);
            Window(ring, s.tail, s.writeHead + |bytes| - s.tail) == (s.written + bytes)[s.tail..]
  {
    var offset := s.writeHead % |s.ring|;
    var ring := Spread(s.ring, offset, Min(|bytes|, |s.ring| - offset), bytes);
    SpreadWindow(s.ring, s.writeHead, bytes);
    SpreadKeeps(s.ring, s.tail, s.writeHead, bytes);
    WindowJoin(ring, s.tail, s.writeHead - s.tail, |bytes|);
    assert (s.written + bytes)[s.tail..] == s.written[s.tail..] + bytes;
  }

  lemma WindowJoin(data: seq<Byte>, cursor: nat, a: nat, b: nat)
    requires |data| > 0
    ensures Window(data, cursor, a + b) == Window(data, cursor, a) + Window(data, cursor + a, b)
  {
    var all, left, right := Window(data, cursor, a + b), Window(data, cursor, a), Window(data, cursor + a, b);
    forall k | 0 <= k < a + b
      ensures all[k] == (left + right)[k]
    {
      if k >= a {
        assert right[k - a] == data[(cursor + a + (k - a)) % |data|];
      }
    }
  }

  lemma WindowTail(data: seq<Byte>, cursor: nat, length: nat, skip: nat)
    requires |data| > 0 && skip <= length
    ensures Window(data, cursor + skip, length - skip) == Window(data, cursor, length)[skip..]
  {
    WindowJoin(data, cursor, skip, length - skip);
  }

  /** Moving the tail forward over whole frames, and logging it, keeps everything. */
  lemma AdvanceKeeps(s: State, segment: Segment)
    requires Inv(s) && segment.from == s.tail < segment.to <= s.head && segment.to % s.stride == 0
    requires s.region.frames > 0 ==> segment.to <= s.region.cursor
    ensures Inv(s.(tail := segment.to, log := s.log + [segment]))
  {
    var skip := segment.to - s.tail;
    WindowTail(s.ring, s.tail, s.writeHead - s.tail, skip);
    assert s.written[s.tail..][skip..] == s.written[segment.to..];
    TileOne(s.log, s.tail, segment, s.stride);
  }

  lemma TrimmedWhole(s: State, limit: nat)
    requires Inv(s)
    ensures TrimmedTail(s, limit) % s.stride == 0
  {
    var window := limit * s.stride;
    WholeProduct(limit, s.stride);
    if s.head - s.tail > window {
      WholeDifference(s.head, window, s.stride);
    }
  }

  lemma ReserveOk(s: State, requested: int, limit: nat)
    requires Inv(s)
    ensures RegionOk(s.(region := Reserve(s, requested, limit)))
  {
    TrimmedWhole(s, limit);
    var cursor := TrimmedTail(s, limit);
    if s.active && requested > 0 {
      FitsPhysically(Min((s.head - cursor) / s.stride, requested), s.head - cursor, s.stride);
    }
  }

  lemma ReserveKeeps(s: State, requested: int, limit: nat)
    requires Inv(s)
    ensures Inv(s.(region := Reserve(s, requested, limit)))
  {
    ReserveOk(s, requested, limit);
  }

  /** The end of a reserved region is a whole-frame cursor no further than the head. */
  lemma RegionEnd(s: State)
    requires s.stride > 0 && |s.ring| > 0 && RegionOk(s) && s.region.frames > 0
    ensures var next := s.region.cursor + s.region.frames * s.region.frameStride;
            s.region.cursor < next <= s.head && next % s.stride == 0
  {
    var bytes := s.region.frames * s.stride;
    WholeProduct(s.region.frames, s.stride);
    WholeSum(s.region.cursor, bytes, s.stride);
    LargeMultiple(s.region.frames, s.stride);
  }

  lemma ReadKeeps(s: State, from: nat, to: nat)
    requires Inv(s) && s.region == NO_REGION && s.tail <= from < to <= s.head
    requires from % s.stride == 0 && to % s.stride == 0
    ensures Inv(s.(tail := to,
                   log := s.log + (if s.tail < from then [Trim(s.tail, from)] else []) + [Read(from, to)]))
  {
    if s.tail < from {
      AdvanceKeeps(s, Trim(s.tail, from));
      AdvanceKeeps(s.(tail := from, log := s.log + [Trim(s.tail, from)]), Read(from, to));
    } else {
      AdvanceKeeps(s, Read(from, to));
      assert s.log + [] + [Read(from, to)] == s.log + [Read(from, to)];
    }
  }

  lemma IdleKeeps(s: State)
    requires Inv(s)
    ensures Inv(s.(region := NO_REGION))
  {
  }

  lemma ReleaseKeeps(s: State)
    requires Inv(s)
    ensures Inv(Released(s))
  {
    IdleKeeps(s);
    if s.region.frames > 0 {
      RegionEnd(s);
      ReadKeeps(s.(region := NO_REGION), s.region.cursor, s.region.cursor + s.region.frames * s.region.frameStride);
    }
  }

  lemma DropKeeps(s: State, frames: nat)
    requires Inv(s) && s.region == NO_REGION && frames <= (s.head - s.tail) / s.stride
    ensures Inv(Dropped(s, frames))
  {
    if frames > 0 {
      FitsPhysically(frames, s.head - s.tail, s.stride);
      WholeProduct(frames, s.stride);
      WholeSum(s.tail, frames * s.stride, s.stride);
      LargeMultiple(frames, s.stride);
      AdvanceKeeps(s, Discard(s.tail, s.tail + frames * s.stride));
    }
  }

  lemma CallbackKeeps(s: State, step: Step)
    requires Inv(s) && Callback(step)
    ensures Inv(Next(s, step))
  {
    if step.Store? && Enabled(s, step) {
      StoreKeeps(s, step.payload);
    }
  }

  lemma PrepareKeeps(s: State, requested: int, limit: nat)
    requires Inv(s)
    ensures Inv(Next(s, Prepare(requested, limit)))
  {
    ReserveKeeps(s, requested, limit);
  }

  lemma CommitKeeps(s: State)
    requires Inv(s)
    ensures Inv(Next(s, Commit))
  {
    ReleaseKeeps(s);
  }

  lemma LiveAfter(s: State)
    requires Inv(s)
    ensures Inv(s.(live := true))
  {
  }

  lemma LiveKeeps(s: State, keep: int)
    requires Inv(s)
    ensures Inv(Next(s, GoLive(keep)))
  {
    if s.region == NO_REGION {
      DropKeeps(s, PreRoll(s, keep));
      LiveAfter(Dropped(s, PreRoll(s, keep)));
    }
  }

  lemma DiscardKeeps(s: State, maximum: int)
    requires Inv(s)
    ensures Inv(Next(s, Drop(maximum)))
  {
    if s.region == NO_REGION {
      DropKeeps(s, DropCount(s, maximum));
    }
  }

  lemma StepKeeps(s: State, step: Step)
    requires Inv(s)
    ensures Inv(Next(s, step))
  {
    match step
    case Prepare(requested, limit) => PrepareKeeps(s, requested, limit);
    case Commit => CommitKeeps(s);
    case GoLive(keep) => LiveKeeps(s, keep);
    case Drop(maximum) => DiscardKeeps(s, maximum);
    case Deactivate =>
    case _ => CallbackKeeps(s, step);
  }

  lemma {:induction false} RunHolds(s: State, steps: seq<Step>)
    requires Init(s)
    ensures Inv(Run(s, steps))
  {
    if steps != [] {
      RunHolds(s, steps[..|steps| - 1]);
      StepKeeps(Run(s, steps[..|steps| - 1]), steps[|steps| - 1]);
    } else {
      WholeProduct(0, s.stride);
    }
  }

  // ---- What the reader gets ---------------------------------------------------------------

  /**
   * From the moment a region is reserved until it is released, and whatever the callback stores
   * meanwhile, its two spans hold exactly its slice of the admitted stream.
   */
  lemma ReadsTheStream(start: State, steps: seq<Step>)
    requires Init(start) && Run(start, steps).region.frames > 0
    ensures var s := Run(start, steps);
            var bytes := s.region.frames * s.region.frameStride;
            && Inv(s)
            && s.region.cursor + bytes <= |s.written|
            && Window(s.ring, s.region.cursor, bytes) == s.written[s.region.cursor..s.region.cursor + bytes]
  {
    RunHolds(start, steps);
    RegionHolds(Run(start, steps));
  }

  lemma RegionHolds(s: State)
    requires Inv(s) && s.region.frames > 0
    ensures var bytes := s.region.frames * s.region.frameStride;
            && s.region.cursor + bytes <= |s.written|
            && Window(s.ring, s.region.cursor, bytes) == s.written[s.region.cursor..s.region.cursor + bytes]
  {
    var bytes, skip := s.region.frames * s.region.frameStride, s.region.cursor - s.tail;
    WindowTail(s.ring, s.tail, s.writeHead - s.tail, skip);
    WindowJoin(s.ring, s.region.cursor, bytes, s.writeHead - s.region.cursor - bytes);
    assert s.written[s.tail..][skip..] == s.written[s.region.cursor..];
    assert s.written[s.region.cursor..][..bytes] == s.written[s.region.cursor..s.region.cursor + bytes];
  }

  /** Frames of each kind in a log. */
  function FramesRead(log: seq<Segment>, stride: nat): nat
    requires stride > 0
  {
    if log == [] then 0
    else FramesRead(log[..|log| - 1], stride) + Frames1(log[|log| - 1], stride, log[|log| - 1].Read?)
  }

  function FramesTrimmed(log: seq<Segment>, stride: nat): nat
    requires stride > 0
  {
    if log == [] then 0
    else FramesTrimmed(log[..|log| - 1], stride) + Frames1(log[|log| - 1], stride, log[|log| - 1].Trim?)
  }

  function FramesDiscarded(log: seq<Segment>, stride: nat): nat
    requires stride > 0
  {
    if log == [] then 0
    else FramesDiscarded(log[..|log| - 1], stride) + Frames1(log[|log| - 1], stride, log[|log| - 1].Discard?)
  }

  function Frames1(segment: Segment, stride: nat, counted: bool): nat
    requires stride > 0
  {
    if counted && segment.from < segment.to then (segment.to - segment.from) / stride else 0
  }

  lemma {:induction false} TilesAddUp(log: seq<Segment>, end: nat, stride: nat)
    requires stride > 0 && Tiled(log, end, stride)
    ensures end % stride == 0
    ensures FramesRead(log, stride) + FramesTrimmed(log, stride) + FramesDiscarded(log, stride) == end / stride
  {
    if log != [] {
      var last := log[|log| - 1];
      TilesAddUp(log[..|log| - 1], last.from, stride);
      WholeDifference(last.to, last.from, stride);
    } else {
      WholeProduct(0, stride);
    }
  }

  /** Every admitted frame was read, trimmed, discarded, or is still there to read. */
  lemma CaptureConserved(start: State, steps: seq<Step>)
    requires Init(start)
    ensures var s := Run(start, steps);
            && Inv(s)
            && s.head / s.stride == FramesRead(s.log, s.stride) + FramesTrimmed(s.log, s.stride)
                                    + FramesDiscarded(s.log, s.stride) + (s.head - s.tail) / s.stride
  {
    RunHolds(start, steps);
    var s := Run(start, steps);
    TilesAddUp(s.log, s.tail, s.stride);
    WholeDifference(s.head, s.tail, s.stride);
  }

  lemma {:induction false} CallbacksOnlyAdd(s: State, steps: seq<Step>)
    requires Inv(s) && forall k :: 0 <= k < |steps| ==> Callback(steps[k])
    ensures var t := Run(s, steps);
            && Inv(t) && t.tail == s.tail && s.head <= t.head
            && t.active == s.active && t.stride == s.stride && t.region == s.region
  {
    if steps != [] {
      CallbacksOnlyAdd(s, steps[..|steps| - 1]);
      StepKeeps(Run(s, steps[..|steps| - 1]), steps[|steps| - 1]);
    }
  }

  /**
   * Once the render thread has been told that `frames` are available, its next read of that many gets
   * exactly that many, however many completions land in between.
   */
  lemma AvailableDelivers(s: State, steps: seq<Step>, frames: nat, limit: nat)
    requires Inv(s) && frames > 0 && Available(s, limit) >= frames
    requires forall k :: 0 <= k < |steps| ==> Callback(steps[k])
    ensures var t := Run(s, steps); Inv(t) && Reserve(t, frames, limit).frames == frames
  {
    CallbacksOnlyAdd(s, steps);
    StillEnough(s, Run(s, steps), frames, limit);
  }

  lemma StillEnough(s: State, t: State, frames: nat, limit: nat)
    requires Sane(s) && Sane(t) && t.tail == s.tail && s.head <= t.head && t.active == s.active && t.stride == s.stride
    requires 0 < frames <= Available(s, limit)
    ensures Reserve(t, frames, limit).frames == frames
  {
    DivMonotone(s.head - s.tail, t.head - t.tail, s.stride);
    ReserveExact(t, frames, limit);
  }

  lemma ReserveExact(s: State, frames: nat, limit: nat)
    requires Sane(s) && s.active && 0 < frames <= limit && frames <= (s.head - s.tail) / s.stride
    ensures Reserve(s, frames, limit).frames == frames
  {
    EnoughAfterTrim(s, limit, frames);
  }

  lemma EnoughAfterTrim(s: State, limit: nat, frames: nat)
    requires Sane(s) && frames <= limit && frames <= (s.head - s.tail) / s.stride
    ensures frames <= (s.head - TrimmedTail(s, limit)) / s.stride
  {
    WholeProduct(limit, s.stride);
  }

  // ---- How much each call takes ---------------------------------------------------------------

  /** Frames published and not yet released. */
  function Unread(s: State): nat
    requires Sane(s)
  {
    (s.head - s.tail) / s.stride
  }

  lemma UnreadBytes(s: State)
    requires Inv(s)
    ensures s.head == s.tail + Unread(s) * s.stride
  {
    WholeDifference(s.head, s.tail, s.stride);
    assert s.head - s.tail == (s.head - s.tail) / s.stride * s.stride;
  }

  lemma LimitCut(queued: nat, limit: nat, stride: nat)
    requires stride > 0
    ensures queued * stride > limit * stride <==> queued > limit
    ensures queued >= limit ==> queued * stride - limit * stride == (queued - limit) * stride
  {
    if queued > limit {
      LargeMultiple(queued - limit, stride);
    } else {
      assert (limit - queued) * stride >= 0;
    }
    assert (queued - limit) * stride == queued * stride - limit * stride;
  }

  /**
   * A read while capture is live gets the oldest frames of the newest `limit` unread, as many as asked for and there; the
   * frames before them are what releasing it trims. Once capture is over, and for nothing asked, it gets none.
   */
  lemma ReserveTakes(s: State, requested: int, limit: nat)
    requires Inv(s)
    ensures var r := Reserve(s, requested, limit); var kept := Min(Unread(s), limit);
            if s.active && requested > 0
            then r.frames == Min(kept, requested) && r.cursor == s.tail + (Unread(s) - kept) * s.stride
            else r.frames == 0
  {
    var queued, kept := Unread(s), Min(Unread(s), limit);
    UnreadBytes(s);
    LimitCut(queued, limit, s.stride);
    LimitCut(queued, kept, s.stride);
    WholeProduct(kept, s.stride);
  }

  /** Releasing it moves the reader past the trimmed frames and the read ones; released unread, nothing moves. */
  lemma ReadTakes(s: State, requested: int, limit: nat)
    requires Inv(s) && s.region == NO_REGION
    ensures var u := Next(Next(s, Prepare(requested, limit)), Commit); var kept := Min(Unread(s), limit);
            var read := if s.active && requested > 0 then Min(kept, requested) else 0;
            && u.tail == s.tail + (if read > 0 then (Unread(s) - kept + read) * s.stride else 0)
            && u == s.(tail := u.tail, log := u.log)
  {
    ReserveTakes(s, requested, limit);
    var r, skipped := Reserve(s, requested, limit), Unread(s) - Min(Unread(s), limit);
    Distribute(skipped, r.frames, s.stride);
  }

  /** Availability is what a read would get: never more, and as much for any larger request. */
  lemma AvailableIsReservable(s: State, requested: int, limit: nat)
    requires Inv(s) && requested > 0
    ensures Reserve(s, requested, limit).frames == Min(requested, Available(s, limit))
  {
    ReserveTakes(s, requested, limit);
  }

  /** Discarding drops the oldest frames, as many as asked for and there. */
  lemma DropTakes(s: State, maximum: int)
    requires Inv(s) && s.region == NO_REGION
    ensures var u := Next(s, Drop(maximum));
            && u.tail == s.tail + (if s.active && maximum > 0 then Min(Unread(s), maximum) else 0) * s.stride
            && u == s.(tail := u.tail, log := u.log)
  {
    WholeProduct(0, s.stride);
  }

  /** Going live leaves the newest `keep` frames unread, or all there are; only the first call drops, and only while capture runs. */
  lemma LiveTakes(s: State, keep: int)
    requires Inv(s) && s.region == NO_REGION
    ensures var u := Next(s, GoLive(keep));
            && Sane(u) && u.live && u == s.(tail := u.tail, log := u.log, live := true)
            && Unread(u) == if s.active && !s.live then Min(Unread(s), Max(0, keep)) else Unread(s)
  {
    LeavesUnread(s, PreRoll(s, keep));
  }

  lemma LeavesUnread(s: State, frames: nat)
    requires Inv(s) && s.region == NO_REGION && frames <= Unread(s)
    ensures var u := Dropped(s, frames); Sane(u) && u.stride == s.stride && Unread(u) == Unread(s) - frames
  {
    UnreadBytes(s);
    LeftOver(s.head - s.tail, frames, s.stride);
  }

  lemma LeftOver(bytes: nat, frames: nat, stride: nat)
    requires stride > 0 && bytes == bytes / stride * stride && frames <= bytes / stride
    ensures 0 <= bytes - frames * stride && (bytes - frames * stride) / stride == bytes / stride - frames
  {
    var left := bytes / stride - frames;
    assert left * stride == bytes / stride * stride - frames * stride;
    WholeProduct(left, stride);
    assert left * stride >= 0;
  }
}
