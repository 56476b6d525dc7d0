/** The read-only mapping as a consumer sees it.

    Every access to shared memory is preceded by an arbitrary number of producer and bridge
    steps, so every loop built on these accesses runs against a producer free to publish between any two accesses. */
module SharedMapping {
  import opened Words
  import opened Records
  import opened Protocol
  import opened Reclamation
  import Consumer

  lemma PrefixSlice<T>(h: seq<T>, k: seq<T>, lo: nat, hi: nat)
    requires h <= k && lo <= hi <= |h|
    ensures k[lo..hi] == h[lo..hi]
  {
  }

  lemma ChainBasics(s: Shared)
    requires Invariant(s)
    ensures RingInvariant(s) && s.reclaimed <= s.acked <= |s.history| <= s.reclaimed + s.capacity
  {
  }

  /** Two live positions with the same word are the same position. */
  lemma SamePosition(s: Shared, a: nat, b: nat)
    requires Invariant(s) && s.reclaimed <= a <= b <= |s.history| && Wrap(a) == Wrap(b)
    ensures a == b
  {
    hide Wrap, And, SlotOf;
    CapacityBelowWord(s.capacity);
    SameWord(a, b);
  }

  /** Like Rely, with another thread of this client free to acknowledge. */
  ghost predicate Grown(s: Shared, t: Shared)
  {
    t.capacity == s.capacity && s.history <= t.history && s.reclaimed <= t.reclaimed && s.acked <= t.acked
  }

  class Mapping {
    var st: Shared
    ghost var headLoads: nat   // how often the head has been loaded
    ghost var lastHead: nat    // the published position of the head loaded last

    ghost predicate Valid()
      reads `st
    {
      Invariant(st)
    }

    constructor (st: Shared)
      requires Invariant(st)
      ensures Valid() && this.st == st && headLoads == 0
    {
      this.st := st;
      headLoads, lastHead := 0, 0;
    }

    /** Any number of producer and bridge steps. */
    method Environment()
      requires Valid()
      modifies this`st
      ensures Valid() && Rely(old(st), st)
    {
      hide Invariant, Do, Internal;
      var n: nat := *;
      while n > 0
        invariant Valid() && Rely(old(st), st)
      {
        var step: Step := *;
        if !step.Inject? {
          OneStep(step);
        }
        n := n - 1;
      }
    }

    method OneStep(step: Step)
      requires Valid() && !step.Inject?
      modifies this`st
      ensures Valid() && Rely(old(st), st)
    {
      InternalStepRely(st, step);
      hide Invariant;
      assert Shaped(st);
      st := Do(st, step);
    }

    method LoadHead() returns (head: U64)
      requires Valid()
      modifies this
      ensures Valid() && Rely(old(st), st)
      ensures head == st.head == Wrap(|st.history|)
      ensures headLoads == old(headLoads) + 1 && lastHead == |st.history|
    {
      Environment();
      head := st.head;
      headLoads, lastHead := headLoads + 1, |st.history|;
    }

    method LoadTail() returns (tail: U64)
      requires Valid()
      modifies this`st
      ensures Valid() && Rely(old(st), st)
      ensures tail == st.tail == Wrap(st.reclaimed)
    {
      Environment();
      tail := st.tail;
    }

    method LoadDropped() returns (drops: U64)
      requires Valid()
      modifies this`st
      ensures Valid() && Rely(old(st), st)
      ensures drops == st.droppedNewest == Wrap(st.losses)
    {
      Environment();
      drops := st.droppedNewest;
    }

    /** Any number of producer and bridge steps, and ACKs sent by another thread of this client. */
    method CrowdedEnvironment()
      requires Valid()
      modifies this`st
      ensures Valid() && Grown(old(st), st)
    {
      hide Invariant, Do, SendAck, Wrap;
      var n: nat := *;
      while n > 0
        invariant Valid() && Grown(old(st), st)
      {
        ghost var before := st;
        Environment();
        var generation: nat, position: nat := *, *;
        ChainBasics(st);
        if st.acked <= position <= |st.history| {
          SendKeepsInvariant(st, generation, position);
          SendGrows(st, generation, position);
          st := SendAck(st, generation, Wrap(position), position);
        }
        n := n - 1;
      }
    }

    lemma SendGrows(s: Shared, generation: nat, position: nat)
      requires s.acked <= position
      ensures Grown(s, SendAck(s, generation, Wrap(position), position))
    {
      hide Wrap;
    }

    /** hfior_ring_depth, called while another thread of the client may acknowledge. `seen` is the
        position of the head loaded. The depth is a true one unless ACKs past that head have been sent,
        and delivered, before the tail is loaded; then it wraps past the capacity. */
    method RingDepth() returns (depth: U64, ghost seen: nat)
      requires Valid()
      modifies this
      ensures Valid() && Grown(old(st), st) && |old(st.history)| <= seen <= |st.history|
      ensures st.acked <= seen ==> st.reclaimed <= seen
      ensures st.reclaimed <= seen ==> depth == seen - st.reclaimed <= st.capacity
      ensures st.reclaimed > seen && |st.history| + st.capacity < TWO64 ==> depth > st.capacity
    {
      hide Wrap, And, SlotOf, Invariant, Sub64;
      CrowdedEnvironment();
      var head := LoadHead();
      seen := |st.history|;
      ChainBasics(st);
      CapacityOf(st);
      CrowdedEnvironment();
      var tail := LoadTail();
      ChainBasics(st);
      DepthOf(st.capacity, seen, st.reclaimed);
      depth := Sub64(head, tail);
    }

    lemma DepthOf(capacity: nat, head: nat, tail: nat)
      requires head <= tail + capacity && capacity < TWO64
      ensures tail <= head ==> Sub64(Wrap(head), Wrap(tail)) == head - tail
      ensures tail > head && tail + capacity < TWO64 ==> Sub64(Wrap(head), Wrap(tail)) > capacity
    {
    }

    lemma CapacityOf(s: Shared)
      requires Invariant(s)
      ensures 0 < s.capacity < TWO64
    {
      CapacityBelowWord(s.capacity);
    }

    // Before the consumer attaches no ACK is in flight, so the shared tail stands still.

    method QuietEnvironment()
      requires Valid() && InFlight(st) == []
      modifies this`st
      ensures Valid() && Rely(old(st), st) && InFlight(st) == [] && st.reclaimed == old(st.reclaimed)
    {
      hide Invariant, Do, InFlight;
      var n: nat := *;
      while n > 0
        invariant Valid() && Rely(old(st), st) && InFlight(st) == [] && st.reclaimed == old(st.reclaimed)
      {
        var step: Step := *;
        if !step.Inject? {
          OneQuietStep(step);
        }
        n := n - 1;
      }
    }

    method OneQuietStep(step: Step)
      requires Valid() && !step.Inject? && InFlight(st) == []
      modifies this`st
      ensures Valid() && Rely(old(st), st) && InFlight(st) == [] && st.reclaimed == old(st.reclaimed)
    {
      InternalStepRely(st, step);
      hide Invariant, InFlight;
      assert Shaped(st);
      Consumer.EmptyFlightStays(st, step);
      st := Do(st, step);
    }

    method QuietHead() returns (head: U64)
      requires Valid() && InFlight(st) == []
      modifies this
      ensures Valid() && Rely(old(st), st) && InFlight(st) == [] && st.reclaimed == old(st.reclaimed)
      ensures head == st.head == Wrap(|st.history|)
      ensures headLoads == old(headLoads) + 1 && lastHead == |st.history|
    {
      QuietEnvironment();
      head := st.head;
      headLoads, lastHead := headLoads + 1, |st.history|;
    }

    method QuietTail() returns (tail: U64)
      requires Valid() && InFlight(st) == []
      modifies this`st
      ensures Valid() && Rely(old(st), st) && InFlight(st) == [] && st.reclaimed == old(st.reclaimed)
      ensures tail == st.tail == Wrap(st.reclaimed)
    {
      QuietEnvironment();
      tail := st.tail;
    }

    /** The attached consumer's starting point counts as acknowledged. */
    method Adopt(start: nat)
      requires Valid() && InFlight(st) == [] && st.reclaimed <= start <= |st.history|
      modifies this`st
      ensures Valid() && st == old(st).(acked := start)
    {
      Consumer.RetagKeepsRing(st, start);
      st := st.(acked := start);
    }

    /** Copy one slot; at or above the acknowledged tail it is the history record. */
    method LoadSlot(word: U64, ghost position: nat) returns (record: Record)
      requires Valid() && word == Wrap(position)
      modifies this`st
      ensures Valid() && Rely(old(st), st)
      ensures record == At(st, position)
      ensures st.acked <= position < |old(st.history)| ==> record == st.history[position]
    {
      Environment();
      record := st.slots[SlotOf(st.capacity, word)];
      ghost var s := st;
      if s.acked <= position < |s.history| {
        Consumer.PinnedSlot(s, position);
      }
    }

    /** Copy a slot that nothing pins, eight bytes at a time: between the four accesses the producer
        may begin, finish and repeat rewriting the slot, so the copy can be a mixture. It is not when
        the position stays pinned or no rewriting of its slot has begun; `whole` says that all four
        accesses met the same contents. */
    method CopyUnpinned(word: U64, ghost position: nat) returns (record: Record, ghost whole: bool)
      requires Valid() && word == Wrap(position) && position < |st.history|
      modifies this`st
      ensures Valid() && Rely(old(st), st)
      ensures Begun(st) <= position + st.capacity || st.acked <= position ==> record == st.history[position]
      ensures whole ==> record == At(st, position)
    {
      hide Wrap, And, SlotOf, Invariant, At, Begun;
      var a := LoadSlot(word, position);
      UnpinnedSlot(st, position);
      var b := LoadSlot(word, position);
      UnpinnedSlot(st, position);
      var c := LoadSlot(word, position);
      UnpinnedSlot(st, position);
      var d := LoadSlot(word, position);
      UnpinnedSlot(st, position);
      record := Record(a.sequence, b.timestamp, c.dx, c.dy, d.wheel, d.hwheel, d.buttons, d.flags);
      whole := a == b == c == d;
    }

    lemma UnpinnedSlot(s: Shared, position: nat)
      requires Invariant(s) && position < |s.history|
      ensures Begun(s) <= position + s.capacity || s.acked <= position ==> At(s, position) == s.history[position]
    {
      if s.acked <= position {
        Consumer.PinnedSlot(s, position);
      }
      var shown := Consumer.ShownAt(s, position);
    }

    /** hfior_ring_read_snapshot. `position` is the unbounded position of `localTail`; `seen` is the
        published position of the head this snapshot loaded. */
    method ReadSnapshot(localTail: U64, ghost position: nat, out: array<Record>, offset: nat, maxRecords: nat)
      returns (count: int, newTail: U64, ghost seen: nat)
      requires Valid() && localTail == Wrap(position)
      requires st.acked <= position <= |st.history|
      requires offset + maxRecords <= out.Length
      modifies this, out
      ensures Valid() && Rely(old(st), st)
      ensures headLoads == old(headLoads) + 1 && lastHead == seen
      ensures |old(st.history)| <= seen <= |st.history|
      ensures count == -1 || count == Min(seen - position, maxRecords)
      ensures count == -1 <==> Epoch(position) != Epoch(seen)
      ensures count == -1 ==> newTail == localTail && out[..] == old(out[..])
      ensures count >= 0 ==> newTail == Wrap(position + count)
      ensures count >= 0 ==> forall k :: offset <= k < offset + count ==> out[k] == st.history[position + (k - offset)]
      ensures count >= 0 ==>
        forall k :: 0 <= k < out.Length && !(offset <= k < offset + count) ==> out[k] == old(out[k])
    {
      hide Wrap, And, SlotOf, Invariant, Epoch;
      var head := LoadHead();
      seen := |st.history|;
      var capacity := st.capacity;
      SnapshotTest(st, localTail, position);
      if localTail > head || head - localTail > capacity {
        return -1, localTail, seen;
      }
      var available := head - localTail;
      if available > maxRecords {
        available := maxRecords;
      }
      CopySlots(localTail, position, out, offset, available);
      WrapOfSum(position, available);
      return available, Wrap(localTail + available), seen;
    }

    lemma SnapshotTest(s: Shared, localTail: U64, position: nat)
      requires Invariant(s) && localTail == Wrap(position) && s.acked <= position <= |s.history|
      ensures (localTail > s.head || s.head - localTail > s.capacity) <==> Epoch(position) != Epoch(|s.history|)
      ensures Epoch(position) == Epoch(|s.history|) ==> s.head - localTail == |s.history| - position
    {
      Consumer.SnapshotTestIsExact(s, localTail, position);
    }

    method CopySlots(localTail: U64, ghost position: nat, out: array<Record>, offset: nat, available: nat)
      requires Valid() && localTail == Wrap(position)
      requires st.acked <= position && position + available <= |st.history|
      requires offset + available <= out.Length
      modifies this`st, out
      ensures Valid() && Rely(old(st), st)
      ensures forall k :: offset <= k < offset + available ==> out[k] == st.history[position + (k - offset)]
      ensures forall k :: 0 <= k < out.Length && !(offset <= k < offset + available) ==> out[k] == old(out[k])
    {
      hide Wrap, And, SlotOf, Invariant;
      var i := 0;
      while i < available
        invariant 0 <= i <= available
        invariant Valid() && Rely(old(st), st)
        invariant forall k :: offset <= k < offset + i ==> out[k] == st.history[position + (k - offset)]
        invariant forall k :: 0 <= k < out.Length && !(offset <= k < offset + i) ==> out[k] == old(out[k])
      {
        WrapOfSum(position, i);
        var r := LoadSlot(Wrap(localTail + i), position + i);
        out[offset + i] := r;
        i := i + 1;
      }
    }
  }
}
