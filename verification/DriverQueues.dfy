/** The driver's two fixed arrays: the packet-layout FIFO and the deferred-transfer FIFO. */
module DriverQueues {
  import opened Core
  import opened Transport

  lemma DistinctSlots(a: nat, b: nat)
    requires a < b < a + FIFO_CAPACITY
    ensures a % FIFO_CAPACITY != b % FIFO_CAPACITY
  {
  }

  /** `implicitFrames_` with its cursors, as one thread drives it. */
  class LayoutQueue {
    const slots: array<nat>
    var read: nat    // implicitRead_
    var write: nat   // implicitWrite_

    ghost predicate Valid()
      reads this
    {
      slots.Length == FIFO_CAPACITY && read <= write <= read + FIFO_CAPACITY
    }

    ghost function Contents(): (r: seq<nat>)
      requires Valid()
      reads this, slots
    {
      Window(slots[..], read, write - read)
    }

    constructor ()
      ensures Valid() && fresh(slots) && Contents() == []
    {
      slots := new nat[FIFO_CAPACITY](_ => 0);
      read, write := 0, 0;
    }

    /** A full FIFO discards its whole backlog before the new entry goes in. */
    method Log(frames: nat) returns (overrun: bool)
      requires Valid()
      modifies this, slots
      ensures Valid()
      ensures overrun == (|old(Contents())| >= FIFO_CAPACITY)
      ensures Contents() == (if overrun then [] else old(Contents())) + [frames]
    {
      overrun := write - read >= FIFO_CAPACITY;
      if overrun {
        read := write;
      }
      Store(frames);
    }

    method Store(frames: nat)
      requires Valid() && |Contents()| < FIFO_CAPACITY
      modifies this`write, slots
      ensures Valid() && Contents() == old(Contents()) + [frames]
    {
      var slot := write % FIFO_CAPACITY;
      slots[slot] := frames;
      ghost var before := old(Contents());
      forall k | 0 <= k < |before|
        ensures slots[(read + k) % FIFO_CAPACITY] == before[k]
      {
        DistinctSlots(read + k, write);
      }
      write := write + 1;
      assert Contents()[|before|] == frames;
    }

    method Peek(k: nat) returns (frames: nat)
      requires Valid() && k < |Contents()|
      ensures frames == Contents()[k]
    {
      frames := slots[(read + k) % FIFO_CAPACITY];
    }

    method Advance(count: nat)
      requires Valid() && count <= |Contents()|
      modifies this`read
      ensures Valid() && Contents() == old(Contents())[count..]
    {
      read := read + count;
    }
  }

  /** `pendingImplicitTransfers_` and its count. */
  class DeferralArray {
    const slots: array<nat>
    var count: nat

    ghost predicate Valid()
      reads this
    {
      slots.Length == MAX_TRANSFERS && count <= MAX_TRANSFERS
    }

    ghost function Contents(): seq<nat>
      requires Valid()
      reads this, slots
    {
      slots[..count]
    }

    constructor ()
      ensures Valid() && fresh(slots) && Contents() == []
    {
      slots := new nat[MAX_TRANSFERS](_ => 0);
      count := 0;
    }

    method Push(t: nat)
      requires Valid() && |Contents()| < MAX_TRANSFERS
      modifies this, slots
      ensures Valid() && Contents() == old(Contents()) + [t]
    {
      slots[count] := t;
      count := count + 1;
    }

    /** Drop the `submitted` oldest entries by shifting the rest down. */
    method DropFront(submitted: nat)
      requires Valid() && submitted <= |Contents()|
      modifies this, slots
      ensures Valid() && Contents() == old(Contents())[submitted..]
    {
      if submitted > 0 {
        var i := submitted;
        while i < count
          invariant submitted <= i <= count == old(count)
          invariant forall k :: 0 <= k < i - submitted ==> slots[k] == old(slots[submitted + k])
          invariant forall k :: i - submitted <= k < count ==> slots[k] == old(slots[k])
        {
          slots[i - submitted] := slots[i];
          i := i + 1;
        }
        count := count - submitted;
      }
    }
  }
}
