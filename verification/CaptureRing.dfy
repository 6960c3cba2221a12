/** The capture ring over a real array, each operation proved equal to its step in `CaptureStream`. */
module CaptureRing {
  import opened Core
  import opened PlaybackRing
  import opened Spans
  import opened CaptureStream

  /** One iso packet of a completed capture transfer; `length` is its slot in the transfer buffer. */
  datatype Packet = Packet(completed: bool, actual: nat, length: nat)

  /** Packets laid out one slot after the other from `at`, whole frames in each. */
  predicate LaidOut(packets: seq<Packet>, at: nat, size: nat, stride: nat)
    requires stride > 0
  {
    if packets == [] then at <= size
    else
      && packets[0].actual <= packets[0].length && packets[0].actual % stride == 0
      && LaidOut(packets[1..], at + packets[0].length, size, stride)
  }

  lemma {:induction false} RoomForPacket(packets: seq<Packet>, at: nat, size: nat, stride: nat)
    requires stride > 0 && LaidOut(packets, at, size, stride)
    ensures at <= size
    ensures packets != [] ==> at + packets[0].length <= size
    decreases |packets|
  {
    if packets != [] {
      RoomForPacket(packets[1..], at + packets[0].length, size, stride);
    }
  }

  /** The stores a completed transfer amounts to. */
  function Stores(packets: seq<Packet>, buffer: seq<Byte>, at: nat, stride: nat): seq<Step>
    requires stride > 0 && LaidOut(packets, at, |buffer|, stride)
    decreases |packets|
  {
    if packets == [] then []
    else
      RoomForPacket(packets, at, |buffer|, stride);
      var p := packets[0];
      (if p.completed && p.actual > 0 then [Store(buffer[at..at + p.actual])] else [])
      + Stores(packets[1..], buffer, at + p.length, stride)
  }

  lemma {:induction false} RunConcat(s: State, a: seq<Step>, b: seq<Step>)
    ensures Run(s, a + b) == Run(Run(s, a), b)
    decreases |b|
  {
    if b == [] {
      assert a + b == a;
    } else {
      var n := |b| - 1;
      RunConcat(s, a, b[..n]);
      var whole := a + b;
      assert whole[..|whole| - 1] == a + b[..n] && whole[|whole| - 1] == b[n];
    }
  }

  lemma RunOne(s: State, step: Step)
    ensures Run(s, [step]) == Next(s, step)
  {
    assert [step][..0] == [];
  }

  /** The packet loop as a function of the state it starts in. */
  function StoreAll(s: State, packets: seq<Packet>, buffer: seq<Byte>, at: nat, stride: nat): State
    requires stride > 0 && LaidOut(packets, at, |buffer|, stride)
    decreases |packets|
  {
    if packets == [] then s
    else
      RoomForPacket(packets, at, |buffer|, stride);
      var p := packets[0];
      StoreAll(if p.completed && p.actual > 0 then Next(s, Store(buffer[at..at + p.actual])) else s,
               packets[1..], buffer, at + p.length, stride)
  }

  lemma StoreNext(s: State, packets: seq<Packet>, buffer: seq<Byte>, at: nat, stride: nat, u: State)
    requires stride > 0 && packets != [] && LaidOut(packets, at, |buffer|, stride) && at + packets[0].length <= |buffer|
    requires var p := packets[0];
             u == if p.completed && p.actual > 0 then Next(s, Store(buffer[at..at + p.actual])) else s
    ensures LaidOut(packets[1..], at + packets[0].length, |buffer|, stride)
    ensures StoreAll(s, packets, buffer, at, stride) == StoreAll(u, packets[1..], buffer, at + packets[0].length, stride)
  {
  }

  lemma {:induction false} StoreAllRuns(s: State, packets: seq<Packet>, buffer: seq<Byte>, at: nat, stride: nat)
    requires stride > 0 && LaidOut(packets, at, |buffer|, stride)
    ensures StoreAll(s, packets, buffer, at, stride) == Run(s, Stores(packets, buffer, at, stride))
    decreases |packets|
  {
    if packets != [] {
      RoomForPacket(packets, at, |buffer|, stride);
      var p := packets[0];
      var stored := p.completed && p.actual > 0;
      var next := if stored then Next(s, Store(buffer[at..at + p.actual])) else s;
      var first := if stored then [Store(buffer[at..at + p.actual])] else [];
      StoreAllRuns(next, packets[1..], buffer, at + p.length, stride);
      if stored {
        RunOne(s, Store(buffer[at..at + p.actual]));
      }
      RunConcat(s, first, Stores(packets[1..], buffer, at + p.length, stride));
    }
  }

  /** A whole completion callback, as the steps it interleaves. */
  lemma CallbackRuns(s: State, packets: seq<Packet>, buffer: seq<Byte>, stride: nat)
    requires stride > 0 && LaidOut(packets, 0, |buffer|, stride)
    ensures Next(StoreAll(Next(s, Begin), packets, buffer, 0, stride), Publish)
            == Run(s, [Begin] + Stores(packets, buffer, 0, stride) + [Publish])
  {
    var stores := Stores(packets, buffer, 0, stride);
    RunOne(s, Begin);
    RunConcat(s, [Begin], stores);
    StoreAllRuns(Next(s, Begin), packets, buffer, 0, stride);
    RunConcat(s, [Begin] + stores, [Publish]);
    RunOne(Run(s, [Begin] + stores), Publish);
  }

  class Ring {
    const data: array<Byte>        // captureRing_
    const stride: nat
    var head: nat                  // captureHead_
    var tail: nat                  // captureTail_
    var active: bool               // captureActive_
    var live: bool                 // captureLive_
    ghost var spec: State

    ghost predicate Mirrors()
      reads this, data
    {
      && spec.ring == data[..] && spec.stride == stride
      && spec.head == head && spec.tail == tail && spec.active == active && spec.live == live
      && Sane(spec)
    }

    constructor (capacity: nat, stride: nat)
      requires capacity > 0 && stride > 0
      ensures Mirrors() && Init(spec) && fresh(data) && data.Length == capacity && active && !live
    {
      data := new Byte[capacity](_ => 0);
      this.stride := stride;
      head, tail, active, live := 0, 0, true, false;
      new;
      spec := State(stride, data[..], 0, 0, false, 0, 0, NO_REGION, true, false, [], []);
    }

    /** The packet loop's store: as many whole frames as fit, around the wrap. */
    method StorePacket(buffer: array<Byte>, cursor: nat, n: nat, writeHead: nat, seenTail: nat) returns (keep: nat)
      requires Mirrors() && spec.busy && spec.writeHead == writeHead && spec.seenTail == seenTail
      requires buffer != data && cursor + n <= buffer.Length && n % stride == 0
      modifies data, this`spec
      ensures Mirrors() && spec == Next(old(spec), Store(buffer[cursor..cursor + n]))
      ensures spec.busy && spec.writeHead == writeHead + keep && spec.seenTail == seenTail
    {
      var free := data.Length - (writeHead - seenTail);
      keep := Keep(n, free, stride);
      ghost var payload := buffer[cursor..cursor + n];
      assert buffer[cursor..cursor + keep] == payload[..keep];
      CopyAround(data, writeHead, buffer, cursor, keep);
      spec := Next(spec, Store(payload));
    }

    /** One turn of the packet loop: a failed or empty packet stores nothing. */
    method TakePacket(buffer: array<Byte>, cursor: nat, packet: Packet, writeHead: nat, seenTail: nat) returns (next: nat)
      requires Mirrors() && spec.busy && spec.writeHead == writeHead && spec.seenTail == seenTail
      requires buffer != data && cursor + packet.actual <= buffer.Length && packet.actual % stride == 0
      modifies data, this`spec
      ensures Mirrors() && spec.busy && spec.writeHead == next && spec.seenTail == seenTail
      ensures spec == if packet.completed && packet.actual > 0
                      then Next(old(spec), Store(buffer[cursor..cursor + packet.actual])) else old(spec)
    {
      next := writeHead;
      if packet.completed && packet.actual > 0 {
        var keep := StorePacket(buffer, cursor, packet.actual, writeHead, seenTail);
        next := writeHead + keep;
      }
    }

    /** One turn, as the first of the packets still to come. */
    method TakeNext(buffer: array<Byte>, cursor: nat, packet: Packet, writeHead: nat, seenTail: nat,
                    ghost rest: seq<Packet>, ghost bytes: seq<Byte>)
        returns (next: nat)
      requires Mirrors() && spec.busy && spec.writeHead == writeHead && spec.seenTail == seenTail
      requires buffer != data && buffer[..] == bytes && rest != [] && rest[0] == packet
      requires LaidOut(rest, cursor, |bytes|, stride)
      modifies data, this`spec
      ensures Mirrors() && spec.busy && spec.writeHead == next && spec.seenTail == seenTail
      ensures LaidOut(rest[1..], cursor + packet.length, |bytes|, stride)
      ensures StoreAll(spec, rest[1..], bytes, cursor + packet.length, stride) == StoreAll(old(spec), rest, bytes, cursor, stride)
    {
      ghost var before := spec;
      RoomForPacket(rest, cursor, |bytes|, stride);
      assert bytes[cursor..cursor + packet.actual] == buffer[cursor..cursor + packet.actual];
      next := TakePacket(buffer, cursor, packet, writeHead, seenTail);
      StoreNext(before, rest, bytes, cursor, stride, spec);
    }

    /** The packet loop. */
    method StorePackets(buffer: array<Byte>, packets: seq<Packet>, seenTail: nat, start: nat) returns (writeHead: nat)
      requires Mirrors() && spec.busy && spec.writeHead == start && spec.seenTail == seenTail
      requires buffer != data && LaidOut(packets, 0, buffer.Length, stride)
      modifies data, this`spec
      ensures Mirrors() && spec.busy && spec.writeHead == writeHead
      ensures spec == StoreAll(old(spec), packets, buffer[..], 0, stride)
    {
      ghost var bytes := buffer[..];
      ghost var last := StoreAll(spec, packets, bytes, 0, stride);
      var cursor: nat := 0;
      writeHead := start;
      for i := 0 to |packets|
        invariant Mirrors() && spec.busy && spec.writeHead == writeHead && spec.seenTail == seenTail
        invariant buffer[..] == bytes && LaidOut(packets[i..], cursor, |bytes|, stride)
        invariant StoreAll(spec, packets[i..], bytes, cursor, stride) == last
      {
        assert packets[i..][0] == packets[i] && packets[i..][1..] == packets[i + 1..];
        writeHead := TakeNext(buffer, cursor, packets[i], writeHead, seenTail, packets[i..], bytes);
        cursor := cursor + packets[i].length;
      }
    }

    /** `onCapture`'s data path: every completed packet stored, then one publish. */
    method OnCapture(buffer: array<Byte>, packets: seq<Packet>)
      requires Mirrors() && !spec.busy && buffer != data && LaidOut(packets, 0, buffer.Length, stride)
      modifies data, this`head, this`spec
      ensures Mirrors() && !spec.busy
      ensures spec == Run(old(spec), [Begin] + Stores(packets, buffer[..], 0, stride) + [Publish])
    {
      CallbackRuns(spec, packets, buffer[..], stride);
      spec := Next(spec, Begin);
      var writeHead := StorePackets(buffer, packets, tail, head);
      head := writeHead;
      spec := Next(spec, Publish);
    }

    /** A failed transport ends capture. */
    method Deactivate(ghost before: seq<Step>, ghost start: State)
      requires Mirrors() && spec == Run(start, before)
      modifies this`active, this`spec
      ensures Mirrors() && spec == Run(start, before + [Step.Deactivate]) && spec.busy == old(spec.busy) && !active
    {
      active := false;
      RunConcat(start, before, [Step.Deactivate]);
      RunOne(spec, Step.Deactivate);
      spec := Next(spec, Step.Deactivate);
    }

    /** `captureAvailableFrames` under the frame limit in force. */
    method AvailableFrames(limit: nat) returns (frames: nat)
      requires Mirrors()
      ensures frames == Available(spec, limit)
    {
      if !active {
        return 0;
      }
      frames := Min((head - tail) / stride, limit);
    }

    /** Where a read starts: no more than `limit` frames behind the head. */
    method TrimmedCursor(limit: nat) returns (cursor: nat)
      requires Mirrors()
      ensures cursor == TrimmedTail(spec, limit)
    {
      cursor := tail;
      var limitBytes := limit * stride;
      if head - cursor > limitBytes {
        cursor := head - limitBytes;
      }
    }

    /** The region `prepareCaptureRead` computes from the cursors it loaded. */
    method ReserveRegion(requested: int, limit: nat) returns (region: Region)
      requires Mirrors()
      ensures region == Reserve(spec, requested, limit)
    {
      if !active || requested <= 0 {
        return NO_REGION;
      }
      var cursor := TrimmedCursor(limit);
      var frames := Min((head - cursor) / stride, requested);
      var bytes := frames * stride;
      FitsPhysically(frames, head - cursor, stride);
      region := SpansAt(cursor, frames, bytes);
    }

    method SpansAt(cursor: nat, frames: nat, bytes: nat) returns (region: Region)
      requires bytes <= data.Length && 0 < data.Length
      ensures var offset := cursor % data.Length; var first := Min(bytes, data.Length - offset);
              region == Region(offset, first, bytes - first, cursor, frames, stride)
    {
      var offset := cursor % data.Length;
      var first := Min(bytes, data.Length - offset);
      region := Region(offset, first, bytes - first, cursor, frames, stride);
    }

    /** `prepareCaptureRead`: the trim stays local until the region is released. */
    method PrepareRead(requested: int, limit: nat) returns (region: Region)
      requires Mirrors() && spec.region == NO_REGION
      modifies this`spec
      ensures Mirrors() && spec == Next(old(spec), Prepare(requested, limit)) && region == spec.region
    {
      region := ReserveRegion(requested, limit);
      spec := Next(spec, Prepare(requested, limit));
    }

    /** `commitCaptureRead`: an empty region stores nothing, not even the trim. */
    method CommitRead(region: Region)
      requires Mirrors() && Inv(spec) && region == spec.region
      modifies this`tail, this`spec
      ensures Mirrors() && spec == Next(old(spec), Commit)
    {
      StepKeeps(spec, Commit);
      if region.frames > 0 {
        tail := region.cursor + region.frames * region.frameStride;
      }
      spec := Next(spec, Commit);
    }

    method Advance(frames: nat)
      requires Mirrors() && frames <= (head - tail) / stride
      modifies this`tail, this`spec
      ensures Mirrors() && spec == Dropped(old(spec), frames)
    {
      FitsPhysically(frames, head - tail, stride);
      tail := tail + frames * stride;
      spec := Dropped(spec, frames);
    }

    /** `discardCaptureFrames`. */
    method DiscardFrames(maximum: int) returns (discarded: nat)
      requires Mirrors() && spec.region == NO_REGION
      modifies this`tail, this`spec
      ensures Mirrors() && spec == Next(old(spec), Drop(maximum)) && discarded == DropCount(old(spec), maximum)
    {
      if !active || maximum <= 0 {
        return 0;
      }
      discarded := Min((head - tail) / stride, maximum);
      Advance(discarded);
    }

    /** `beginCaptureLive`: drops all but the newest `keepFrames`, once. */
    method BeginLive(keepFrames: int) returns (discarded: nat)
      requires Mirrors() && spec.region == NO_REGION
      modifies this`tail, this`live, this`spec
      ensures Mirrors() && spec == Next(old(spec), GoLive(keepFrames)) && discarded == PreRoll(old(spec), keepFrames)
    {
      var wasLive := live;
      live := true;
      spec := spec.(live := true);
      if wasLive || !active {
        return 0;
      }
      discarded := Stale(keepFrames);
      Advance(discarded);
    }

    /** Frames beyond the newest `keepFrames`. */
    method Stale(keepFrames: int) returns (stale: nat)
      requires Mirrors()
      ensures stale == Max(0, (head - tail) / stride - Max(0, keepFrames)) && stale <= (head - tail) / stride
    {
      var available := (head - tail) / stride;
      var keep := if keepFrames > 0 then keepFrames else 0;
      stale := if available > keep then available - keep else 0;
    }

    /**
     * `readCapturePcm`: copies out exactly the oldest untrimmed frames of the admitted stream, in order,
     * and writes nothing past them.
     */
    method ReadPcm(dst: array<Byte>, frames: int, limit: nat) returns (region: Region)
      requires Mirrors() && Inv(spec) && spec.region == NO_REGION
      requires dst != data && frames * stride <= dst.Length
      modifies this`tail, this`spec, dst
      ensures Mirrors() && spec == Next(Next(old(spec), Prepare(frames, limit)), Commit)
      ensures region == Reserve(old(spec), frames, limit)
      ensures var bytes := region.firstBytes + region.secondBytes;
              && bytes == region.frames * region.frameStride
              && region.cursor + bytes <= |old(spec.written)| && bytes <= dst.Length
              && dst[..] == Splice(old(dst[..]), 0, old(spec.written)[region.cursor..region.cursor + bytes])
    {
      StepKeeps(spec, Prepare(frames, limit));
      ReserveBytes(spec, frames, limit);
      region := PrepareRead(frames, limit);
      CopyRegion(dst, region);
      CommitRead(region);
    }

    method CopyRegion(dst: array<Byte>, region: Region)
      requires Mirrors() && Inv(spec) && region == spec.region
      requires dst != data && region.firstBytes + region.secondBytes <= dst.Length
      requires region.cursor + region.firstBytes + region.secondBytes <= spec.head
      requires region.frames == 0 ==> region.firstBytes + region.secondBytes == 0
      modifies dst
      ensures var end := region.cursor + region.firstBytes + region.secondBytes;
              end <= |spec.written| && dst[..] == Splice(old(dst[..]), 0, spec.written[region.cursor..end])
    {
      if region.frames > 0 {
        CopySpans(dst, region, region.firstBytes + region.secondBytes);
      }
    }

    method CopySpans(dst: array<Byte>, region: Region, bytes: nat)
      requires Mirrors() && Inv(spec) && region == spec.region && region.frames > 0
      requires dst != data && bytes == region.firstBytes + region.secondBytes <= dst.Length
      modifies dst
      ensures region.cursor + bytes <= |spec.written|
      ensures dst[..] == Splice(old(dst[..]), 0, spec.written[region.cursor..region.cursor + bytes])
    {
      RegionIsStream(spec, region);
      CopyOut(dst, region, data[..]);
    }

    method CopyOut(dst: array<Byte>, region: Region, ghost stored: seq<Byte>)
      requires dst != data && stored == data[..] && region.firstBytes + region.secondBytes <= dst.Length
      requires region.offset + region.firstBytes <= |stored| && region.secondBytes <= |stored|
      modifies dst
      ensures dst[..] == Splice(old(dst[..]), 0, Stream(stored, region.offset, region.firstBytes, region.secondBytes))
    {
      SpansRead(stored, region, dst[..], Stream(stored, region.offset, region.firstBytes, region.secondBytes));
      assert data[region.offset..region.offset + region.firstBytes]
          == stored[region.offset..region.offset + region.firstBytes];
      assert data[0..0 + region.secondBytes] == stored[..region.secondBytes];
      Copy(dst, 0, data, region.offset, region.firstBytes);
      Copy(dst, region.firstBytes, data, 0, region.secondBytes);
    }
  }

  /** A reserved region's two spans, read one after the other, are its slice of the admitted stream. */
  lemma RegionIsStream(s: State, r: Region)
    requires Inv(s) && s.region == r && r.frames > 0
    ensures SpansFit(r, |s.ring|) && r.frameStride == s.stride
    ensures r.cursor + r.firstBytes + r.secondBytes <= |s.written|
    ensures Stream(s.ring, r.offset, r.firstBytes, r.secondBytes) == s.written[r.cursor..r.cursor + r.firstBytes + r.secondBytes]
  {
    RegionHolds(s);
    RegionBytes(s, r, r.firstBytes + r.secondBytes);
  }

  lemma RegionBytes(s: State, r: Region, bytes: nat)
    requires Inv(s) && s.region == r && r.frames > 0 && bytes == r.firstBytes + r.secondBytes
    ensures bytes == r.frames * r.frameStride <= |s.ring| && SpansFit(r, |s.ring|)
    ensures Window(s.ring, r.cursor, bytes) == Stream(s.ring, r.offset, r.firstBytes, r.secondBytes)
  {
    WindowIsStream(s.ring, r.cursor, bytes);
    SpansOf(|s.ring|, r.cursor, r);
  }

  /** The two copies out of a region, as one. */
  lemma SpansRead(s: seq<Byte>, r: Region, dst: seq<Byte>, t: seq<Byte>)
    requires r.offset + r.firstBytes <= |s| && r.secondBytes <= |s| && r.firstBytes + r.secondBytes <= |dst|
    requires Stream(s, r.offset, r.firstBytes, r.secondBytes) == t
    ensures |t| == r.firstBytes + r.secondBytes
    ensures Splice(Splice(dst, 0, s[r.offset..r.offset + r.firstBytes]), r.firstBytes, s[..r.secondBytes]) == Splice(dst, 0, t)
  {
    SpliceChain(dst, 0, s[r.offset..r.offset + r.firstBytes], s[..r.secondBytes]);
  }

  lemma ReserveBytes(s: State, requested: int, limit: nat)
    requires Sane(s)
    ensures var r := Reserve(s, requested, limit); var bytes := r.firstBytes + r.secondBytes;
            && bytes == r.frames * r.frameStride && r.cursor + bytes <= s.head
            && (bytes > 0 ==> bytes <= requested * s.stride) && (r.frames == 0 ==> bytes == 0)
  {
    if s.active && requested > 0 {
      var cursor := TrimmedTail(s, limit);
      var frames := Min((s.head - cursor) / s.stride, requested);
      FitsPhysically(frames, s.head - cursor, s.stride);
      RequestedFits(frames, requested, s.stride);
    }
  }

  lemma RequestedFits(n: nat, frames: nat, stride: nat)
    requires n <= frames
    ensures n * stride <= frames * stride
  {
    assert (frames - n) * stride >= 0;
  }

  // ---- What a callback admits -----------------------------------------------------------------

  /** The bytes of the packets that carry frames, each from the start of its slot. */
  function Payload(packets: seq<Packet>, buffer: seq<Byte>, at: nat, stride: nat): seq<Byte>
    requires stride > 0 && LaidOut(packets, at, |buffer|, stride)
    decreases |packets|
  {
    if packets == [] then []
    else
      RoomForPacket(packets, at, |buffer|, stride);
      var p := packets[0];
      (if p.completed && p.actual > 0 then buffer[at..at + p.actual] else []) + Payload(packets[1..], buffer, at + p.length, stride)
  }

  /** The whole frames of a stretch of storage, in bytes. */
  function WholeOf(free: nat, stride: nat): (r: nat)
    requires stride > 0
    ensures r <= free && free - stride < r && r == free / stride * stride
  {
    free / stride * stride
  }

  /** What a callback in progress can still store. */
  function Space(s: State): nat
    requires Sane(s)
  {
    WholeOf(|s.ring| - (s.writeHead - s.seenTail), s.stride)
  }

  lemma StoreTakes(s: State, payload: seq<Byte>, space: nat)
    requires Sane(s) && s.busy && |payload| % s.stride == 0 && space == Space(s)
    ensures var n := Min(|payload|, space); var u := Next(s, Store(payload));
            && Sane(u) && u.busy && u.stride == s.stride && u.written == s.written + payload[..n]
            && u.writeHead == s.writeHead + n && Space(u) == space - n
            && u == s.(ring := u.ring, writeHead := u.writeHead, written := u.written)
  {
    var free := |s.ring| - (s.writeHead - s.seenTail);
    var n := Keep(|payload|, free, s.stride);
    assert free - free % s.stride == WholeOf(free, s.stride);
    KeepWhole(|payload|, free, s.stride);
    LessSpace(free, n, s.stride);
  }

  lemma LessSpace(free: nat, n: nat, stride: nat)
    requires stride > 0 && n % stride == 0 && n <= free
    ensures WholeOf(free - n, stride) == WholeOf(free, stride) - n
  {
    DivMonotone(n, free, stride);
    InParts(free, stride);
    InParts(n, stride);
    LessSpaceIn(free / stride, n / stride, free % stride, stride, free, n);
  }

  lemma InParts(x: nat, stride: nat)
    requires stride > 0
    ensures x == x / stride * stride + x % stride && x % stride < stride
  {
  }

  lemma LessSpaceIn(q: nat, m: nat, r: nat, stride: nat, free: nat, n: nat)
    requires r < stride && m <= q && free == q * stride + r && n == m * stride && n <= free
    ensures WholeOf(free - n, stride) == WholeOf(free, stride) - n
  {
    Distribute(q - m, m, stride);
    DivModUnique(q, r, stride);
    DivModUnique(q - m, r, stride);
  }

  lemma CutTogether(before: seq<Byte>, a: seq<Byte>, b: seq<Byte>, room: nat)
    ensures var n := Min(|a|, room); before + a[..n] + b[..Min(|b|, room - n)] == before + (a + b)[..Min(|a + b|, room)]
  {
  }

  /** What storing `payload` into `space` amounts to. */
  ghost predicate StoredPrefix(s: State, u: State, payload: seq<Byte>, space: nat) {
    && u.written == s.written + payload[..Min(|payload|, space)] && u.writeHead == s.writeHead + Min(|payload|, space)
    && u == s.(ring := u.ring, writeHead := u.writeHead, written := u.written) && Sane(u)
  }

  lemma StoredOn(s: State, v: State, u: State, a: seq<Byte>, b: seq<Byte>, space: nat, left: nat)
    requires StoredPrefix(s, v, a, space) && StoredPrefix(v, u, b, left) && left == space - Min(|a|, space)
    ensures StoredPrefix(s, u, a + b, space)
  {
    CutTogether(s.written, a, b, space);
  }

  lemma {:induction false} StoreAllTakes(s: State, packets: seq<Packet>, buffer: seq<Byte>, at: nat, stride: nat, space: nat, u: State)
    requires Sane(s) && s.busy && s.stride == stride && LaidOut(packets, at, |buffer|, stride) && space == Space(s)
    requires u == StoreAll(s, packets, buffer, at, stride)
    ensures StoredPrefix(s, u, Payload(packets, buffer, at, stride), space)
    decreases |packets|
  {
    if packets != [] {
      var others, next, piece, v, left := FirstStored(s, packets, buffer, at, stride, space, u);
      StoreAllTakes(v, others, buffer, next, stride, left, u);
      StoredOn(s, v, u, piece, Payload(others, buffer, next, stride), space, left);
    }
  }

  /** The first packet's part, and what is left to do. */
  lemma FirstStored(s: State, packets: seq<Packet>, buffer: seq<Byte>, at: nat, stride: nat, space: nat, u: State)
      returns (others: seq<Packet>, next: nat, piece: seq<Byte>, v: State, left: nat)
    requires Sane(s) && s.busy && s.stride == stride && LaidOut(packets, at, |buffer|, stride) && space == Space(s)
    requires packets != [] && u == StoreAll(s, packets, buffer, at, stride)
    ensures |others| < |packets| && LaidOut(others, next, |buffer|, stride) && u == StoreAll(v, others, buffer, next, stride)
    ensures Payload(packets, buffer, at, stride) == piece + Payload(others, buffer, next, stride)
    ensures Sane(v) && v.busy && v.stride == stride && left == Space(v)
    ensures StoredPrefix(s, v, piece, space) && left == space - Min(|piece|, space)
  {
    RoomForPacket(packets, at, |buffer|, stride);
    var p := packets[0];
    others, next := packets[1..], at + p.length;
    v, left, piece := s, space, [];
    if p.completed && p.actual > 0 {
      piece := buffer[at..at + p.actual];
      v, left := Next(s, Store(piece)), space - Min(|piece|, space);
      StoreTakes(s, piece, space);
    } else {
      NothingStored(s, space);
    }
    StoreNext(s, packets, buffer, at, stride, v);
  }

  lemma NothingStored(s: State, space: nat)
    requires Sane(s)
    ensures StoredPrefix(s, s, [], space)
  {
    assert s.written + [] == s.written;
  }

  /**
   * A completed capture transfer publishes the longest run of whole frames of its payload that the ring has room for,
   * in order and from the start: the payload being its completed packets, each found at its slot.
   */
  lemma CallbackAdmits(s: State, packets: seq<Packet>, buffer: seq<Byte>)
    requires Inv(s) && !s.busy && LaidOut(packets, 0, |buffer|, s.stride)
    ensures var payload := Payload(packets, buffer, 0, s.stride);
            var n := Min(|payload|, WholeOf(|s.ring| - (s.head - s.tail), s.stride));
            var u := Run(s, [Begin] + Stores(packets, buffer, 0, s.stride) + [Publish]);
            && Sane(u) && u.written == s.written + payload[..n] && u.head == s.head + n
            && u == s.(ring := u.ring, head := u.head, writeHead := u.head, seenTail := s.tail, written := u.written)
  {
    var c := s.(busy := true, seenTail := s.tail, writeHead := s.head);
    var v := StoreAll(c, packets, buffer, 0, s.stride);
    assert Next(s, Begin) == c;
    CallbackRuns(s, packets, buffer, s.stride);
    StoreAllTakes(c, packets, buffer, 0, s.stride, Space(c), v);
    CallbackEnds(v);
    Admitted(s, c, v, Payload(packets, buffer, 0, s.stride), Space(c), v.(busy := false, head := v.writeHead));
  }

  lemma Admitted(s: State, c: State, v: State, payload: seq<Byte>, space: nat, u: State)
    requires Inv(s) && !s.busy && c == s.(busy := true, seenTail := s.tail, writeHead := s.head)
    requires StoredPrefix(c, v, payload, space) && u == v.(busy := false, head := v.writeHead)
    ensures Sane(u) && u.written == s.written + payload[..Min(|payload|, space)] && u.head == s.head + Min(|payload|, space)
    ensures u == s.(ring := u.ring, head := u.head, writeHead := u.head, seenTail := s.tail, written := u.written)
  {
  }

  lemma CallbackEnds(v: State)
    requires Sane(v) && v.busy
    ensures Next(v, Publish) == v.(busy := false, head := v.writeHead)
  {
  }
}
