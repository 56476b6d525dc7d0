/** The cursor operations of the consumer library: drain, acknowledge, bounded stable latch and
    latest committed record, each run against a producer and a bridge that never pause. */
module Policy {
  import opened Words
  import opened Records
  import opened Protocol
  import opened Reclamation
  import opened SharedMapping
  import Consumer

  /** What one pass of the latch sees at its end: the cursor, and the published position of the head. */
  datatype Look = Look(position: nat, observed: nat)

  class Cursor {
    const mapping: Mapping
    var generation: nat
    var localTail: U64
    var acknowledgedTail: U64
    var position: nat   // auxiliary: the unbounded position of localTail; no test reads it

    ghost predicate Valid()
      reads this, mapping
    {
      && mapping.Valid()
      && localTail == Wrap(position) && acknowledgedTail == Wrap(mapping.st.acked)
      && mapping.st.acked <= position <= |mapping.st.history|
    }

    /** hfior_cursor_init, for the ring's only consumer: begin at the shared tail or at the head. */
    constructor (mapping: Mapping, generation: nat, beginAtCurrentHead: bool)
      requires mapping.Valid() && InFlight(mapping.st) == [] && mapping.st.acked == mapping.st.reclaimed
      modifies mapping
      ensures Valid() && this.mapping == mapping && this.generation == generation
      ensures position == mapping.st.acked && localTail == acknowledgedTail
      ensures !beginAtCurrentHead ==> position == old(mapping.st.reclaimed)
      ensures beginAtCurrentHead ==> |old(mapping.st.history)| <= position
      ensures old(mapping.st.history) <= mapping.st.history
    {
      hide Wrap, And, SlotOf, RingInvariant, Do;
      var head := mapping.QuietHead();
      var published := |mapping.st.history|;
      var tail := mapping.QuietTail();
      var start := if beginAtCurrentHead then published else mapping.st.reclaimed;
      mapping.Adopt(start);
      this.mapping := mapping;
      this.generation := generation;
      this.localTail := if beginAtCurrentHead then head else tail;
      this.acknowledgedTail := if beginAtCurrentHead then head else tail;
      this.position := start;
    }

    /** hfior_cursor_drain into out[offset..]. */
    method Drain(out: array<Record>, offset: nat, maxRecords: nat) returns (count: int, ghost seen: nat)
      requires Valid() && offset + maxRecords <= out.Length
      modifies this`localTail, this`position, mapping, out
      ensures Valid() && Rely(old(mapping.st), mapping.st)
      ensures mapping.headLoads == old(mapping.headLoads) + 1 && mapping.lastHead == seen
      ensures |old(mapping.st.history)| <= seen <= |mapping.st.history|
      ensures count == -1 <==> Epoch(old(position)) != Epoch(seen)
      ensures count == -1 ==> position == old(position) && localTail == old(localTail) && out[..] == old(out[..])
      ensures count != -1 ==> count == Min(seen - old(position), maxRecords) && position == old(position) + count
      ensures count != -1 ==>
        forall k :: offset <= k < offset + count ==> out[k] == mapping.st.history[old(position) + (k - offset)]
      ensures count != -1 ==>
        forall k :: 0 <= k < out.Length && !(offset <= k < offset + count) ==> out[k] == old(out[k])
    {
      hide Wrap, And, SlotOf, Invariant, Epoch;
      var start := position;
      var newTail;
      count, newTail, seen := mapping.ReadSnapshot(localTail, position, out, offset, maxRecords);
      localTail := newTail;
      if count >= 0 {
        position := start + count;
      }
    }

    /** hfior_cursor_ack; `sent` says whether the socket took the message. */
    method Ack(sent: bool) returns (rc: int)
      requires Valid()
      modifies this`acknowledgedTail, mapping`st
      ensures Valid()
      ensures old(localTail == acknowledgedTail) || sent ==> rc == 0 && mapping.st.acked == position
      ensures !(old(localTail == acknowledgedTail) || sent) ==> rc == -1
      ensures rc == -1 || old(localTail == acknowledgedTail) ==> mapping.st == old(mapping.st)
      ensures old(localTail != acknowledgedTail) && sent ==>
        mapping.st == SendAck(old(mapping.st), generation, localTail, position)
    {
      hide And, SlotOf, RingInvariant;
      if localTail == acknowledgedTail {
        SamePosition(mapping.st, mapping.st.acked, position);
        return 0;
      }
      if !sent {
        return -1;
      }
      SendKeepsInvariant(mapping.st, generation, position);
      mapping.st := SendAck(mapping.st, generation, localTail, position);
      acknowledgedTail := localTail;
      return 0;
    }

    /** One pass of the stable latch: a snapshot, then a fresh look at the head. */
    method Pass(out: array<Record>, offset: nat, maxRecords: nat)
      returns (count: int, stable: bool, ghost seen: nat, ghost observed: nat)
      requires Valid() && offset + maxRecords <= out.Length
      modifies this`localTail, this`position, mapping, out
      ensures Valid() && Rely(old(mapping.st), mapping.st)
      ensures |old(mapping.st.history)| <= seen <= |mapping.st.history| && seen <= observed <= |mapping.st.history|
      ensures mapping.headLoads == old(mapping.headLoads) + (if count == -1 then 1 else 2)
      ensures mapping.lastHead == if count == -1 then seen else observed
      ensures count == -1 <==> Epoch(old(position)) != Epoch(seen)
      ensures count == -1 ==> position == old(position) && Epoch(position) != Epoch(seen)
      ensures count != -1 ==> 0 <= count <= maxRecords && position == old(position) + count && position <= seen
      ensures count != -1 ==> Epoch(position) == Epoch(seen) && (count < maxRecords ==> position == seen)
      ensures count != -1 ==> (stable <==> position == observed)
      ensures forall k :: 0 <= k < out.Length && !(offset <= k < offset + maxRecords) ==> out[k] == old(out[k])
      ensures count != -1 ==>
        forall k :: offset <= k < offset + count ==> out[k] == mapping.st.history[old(position) + (k - offset)]
    {
      hide Wrap, And, SlotOf, Invariant, Epoch;
      ghost var before := position;
      count, seen := Drain(out, offset, maxRecords);
      observed, stable := seen, false;
      if count >= 0 {
        EpochBetween(before, position, seen);
        var head := mapping.LoadHead();
        observed := |mapping.st.history|;
        stable := head == localTail;
        ChainBasics(mapping.st);
        if stable {
          SamePosition(mapping.st, position, |mapping.st.history|);
        }
      }
    }

    /** hfior_cursor_stable_latch. `snapshots` counts snapshots taken: each loads the head once, and
        once more afterwards unless it failed; `seen` is the published position of the head the last
        snapshot tested, `looks` what each pass that did not fail saw at its end. A further pass is made
        only when the head has moved on past the cursor. */
    method StableLatch(out: array<Record>, maxRecords: nat, maxPasses: nat)
      returns (total: int, ghost snapshots: nat, ghost seen: nat, ghost looks: seq<Look>)
      requires Valid() && maxRecords <= out.Length
      modifies this`localTail, this`position, mapping, out
      ensures Valid() && Rely(old(mapping.st), mapping.st)
      ensures snapshots <= maxPasses && (snapshots > 0 <==> maxPasses > 0 && maxRecords > 0)
      ensures |looks| == snapshots - if total == -1 && maxPasses > 0 then 1 else 0
      ensures forall k :: 0 <= k < snapshots - 1 ==> looks[k].position < looks[k].observed
      ensures 0 <= total < maxRecords && snapshots < maxPasses ==>
        looks != [] && looks[|looks| - 1] == Look(position, mapping.lastHead) && position == mapping.lastHead
      ensures forall k :: 0 <= k < |looks| ==> old(position) <= looks[k].position <= position
      ensures mapping.headLoads
        == old(mapping.headLoads) + 2 * snapshots - if total == -1 && maxPasses > 0 then 1 else 0
      ensures old(position) <= position && seen <= |mapping.st.history|
      ensures total == -1 <==> maxPasses == 0 || Epoch(position) != Epoch(seen)
      ensures total == -1 && maxPasses > 0 ==> seen == mapping.lastHead
      ensures maxPasses > 0 && |mapping.st.history| < TWO64 ==> total != -1
      ensures total != -1 ==> position == old(position) + total
      ensures position <= old(position) + maxRecords
      ensures forall k :: 0 <= k < position - old(position) ==> out[k] == mapping.st.history[old(position) + k]
      ensures forall k :: maxRecords <= k < out.Length ==> out[k] == old(out[k])
      ensures 0 <= total < maxRecords ==> position >= |old(mapping.st.history)|
    {
      hide Wrap, And, SlotOf, Invariant, Epoch;
      total, snapshots, seen, looks := 0, 0, position, [];
      if maxPasses == 0 {
        return -1, 0, position, [];
      }
      var passes := 0;
      while passes < maxPasses && total < maxRecords
        invariant Valid() && Rely(old(mapping.st), mapping.st)
        invariant passes == snapshots == |looks| <= maxPasses && (passes == 0 ==> total == 0)
        invariant passes > 0 ==> maxRecords > 0
        invariant forall k :: 0 <= k < |looks| ==> looks[k].position < looks[k].observed
        invariant forall k :: 0 <= k < |looks| ==> old(position) <= looks[k].position <= position
        invariant 0 <= total <= maxRecords && position == old(position) + total
        invariant mapping.headLoads == old(mapping.headLoads) + 2 * snapshots
        invariant seen <= |mapping.st.history| && Epoch(position) == Epoch(seen)
        invariant forall k :: 0 <= k < total ==> out[k] == mapping.st.history[old(position) + k]
        invariant forall k :: maxRecords <= k < out.Length ==> out[k] == old(out[k])
        invariant passes > 0 && total < maxRecords ==> position >= |old(mapping.st.history)|
      {
        var count, stable;
        ghost var observed;
        count, stable, seen, observed := Pass(out, total, maxRecords - total);
        snapshots := snapshots + 1;
        if count < 0 {
          if |mapping.st.history| < TWO64 {
            OneLapBeforeWrap(position, seen);
          }
          return -1, snapshots, seen, looks;
        }
        total := total + count;
        passes := passes + 1;
        looks := looks + [Look(position, observed)];
        if stable {
          break;
        }
      }
    }

    lemma OneLapBeforeWrap(position: nat, seen: nat)
      requires position < TWO64 && seen < TWO64
      ensures Epoch(position) == Epoch(seen)
    {
    }

    /** hfior_cursor_latest_committed. `newest` is the published position of the head loaded, `reclaimed`
        that of the tail loaded after it; `copied` says that a slot was copied. It succeeds exactly when
        the head word is not 0, no multiple of 2^64 lies between the two positions, and the copied slot
        carries a number. Nothing pins the slot: it surely yields the newest record for that head when
        less than a capacity was begun since or that record is unacknowledged. `whole` says the copy is
        no mixture of several contents; a whole copy of a finished slot is the record of position
        `shown`, which is the one asked for exactly when less than a capacity was published since. */
    method LatestCommitted()
      returns (ok: bool, out: Record,
               ghost newest: nat, ghost reclaimed: nat, ghost copied: bool, ghost whole: bool, ghost shown: nat)
      requires Valid()
      modifies mapping
      ensures Valid() && Rely(old(mapping.st), mapping.st)
      ensures |old(mapping.st.history)| <= newest <= |mapping.st.history|
      ensures old(mapping.st.reclaimed) <= reclaimed <= newest && reclaimed <= mapping.st.reclaimed
      ensures copied <==> Wrap(newest) != 0 && Epoch(reclaimed) == Epoch(newest)
      ensures ok <==> copied && out.sequence != 0
      ensures copied && Begun(mapping.st) < newest + mapping.st.capacity ==> out == mapping.st.history[newest - 1]
      ensures copied && mapping.st.acked < newest ==> out == mapping.st.history[newest - 1]
      ensures copied && whole && !Consumer.Rewriting(mapping.st, newest - 1) ==>
        shown < |mapping.st.history| && out == mapping.st.history[shown]
      ensures copied && whole && !Consumer.Rewriting(mapping.st, newest - 1) ==>
        (shown == newest - 1 <==> |mapping.st.history| < newest + mapping.st.capacity)
      ensures 0 < newest && |mapping.st.history| < TWO64 ==> copied
      ensures 0 < newest && |mapping.st.history| + mapping.st.losses < TWO64 && mapping.st.acked < newest ==> ok
      ensures 0 < newest && |mapping.st.history| + mapping.st.losses < TWO64
              && Begun(mapping.st) < newest + mapping.st.capacity ==>
        ok
    {
      hide Wrap, And, SlotOf, Invariant, Epoch, At, Begun, Consumer.Rewriting;
      out, copied, whole, shown := Record(0, 0, 0, 0, 0, 0, 0, 0), false, false, 0;
      var head := mapping.LoadHead();
      newest := |mapping.st.history|;
      reclaimed := mapping.st.reclaimed;
      ChainBasics(mapping.st);
      NothingAtZero(newest);
      if head == 0 {
        return false, out, newest, reclaimed, copied, whole, shown;
      }
      var tail := mapping.LoadTail();
      reclaimed := mapping.st.reclaimed;
      TailTest(mapping.st, newest);
      if head < tail || head - tail > mapping.st.capacity {
        BelowWrap(mapping.st, reclaimed, newest);
        return false, out, newest, reclaimed, copied, whole, shown;
      }
      WrapOfZero();
      WrapOfSum(newest, -1);
      copied := true;
      out, whole := mapping.CopyUnpinned(Wrap(head - 1), newest - 1);
      shown := WholeCopy(mapping.st, newest - 1);
      NumberedBelowWrap(mapping.st, newest - 1);
      return out.sequence != 0, out, newest, reclaimed, copied, whole, shown;
    }

    lemma NothingAtZero(newest: nat)
      ensures 0 < newest < TWO64 ==> Wrap(newest) != 0
      ensures Wrap(newest) != 0 ==> newest > 0
    {
    }

    lemma BelowWrap(s: Shared, reclaimed: nat, newest: nat)
      requires reclaimed <= newest <= |s.history|
      ensures |s.history| < TWO64 ==> Epoch(reclaimed) == Epoch(newest)
    {
    }

    /** Below 2^64 attempts every published record carries a number. */
    lemma NumberedBelowWrap(s: Shared, position: nat)
      requires Invariant(s) && position < |s.history|
      ensures |s.history| + s.losses < TWO64 ==> s.history[position].sequence != 0
    {
      assert s.lossBefore[position] <= s.losses;
      hide And, SlotOf;
    }

    lemma WholeCopy(s: Shared, position: nat) returns (shown: nat)
      requires Invariant(s) && position < |s.history|
      ensures !Consumer.Rewriting(s, position) ==>
        position <= shown < |s.history| && At(s, position) == s.history[shown]
      ensures !Consumer.Rewriting(s, position) ==> (shown == position <==> |s.history| <= position + s.capacity)
    {
      shown := Consumer.ShownAt(s, position);
    }

    lemma TailTest(s: Shared, newest: nat)
      requires Invariant(s) && s.acked <= newest <= |s.history|
      ensures s.reclaimed <= newest
      ensures (Wrap(newest) < s.tail || Wrap(newest) - s.tail > s.capacity) <==> Epoch(s.reclaimed) != Epoch(newest)
    {
      CapacityBelowWord(s.capacity);
      WordOrder(s.reclaimed, newest);
    }
  }
}
