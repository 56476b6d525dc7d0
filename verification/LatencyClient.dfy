/** drain_ring of the latency client: everything committed is moved into the pending queue under
    the ring mutex, and the loop ends however fast the producer is. */
module LatencyClient {
  import opened Words
  import opened Records
  import opened Protocol
  import opened Reclamation
  import opened SharedMapping
  import opened Accounting
  import RecordQueue

  const BATCH: nat := 4096   // records per snapshot in drain_ring

  /** Everything a drain writes down. */
  datatype Books = Books(pending: seq<Record>, tally: Tally, ring: nat, shadow: nat)

  /** What a drain that read these records leaves written down; a shadow drain only counts them. */
  function Kept(b: Books, records: seq<Record>, shadow: bool): Books
  {
    if shadow then b.(shadow := b.shadow + |records|)
    else b.(pending := b.pending + records, tally := AccountAll(b.tally, records), ring := b.ring + |records|)
  }

  lemma NothingKept(b: Books, shadow: bool)
    ensures Kept(b, [], shadow) == b
  {
    assert b.pending + [] == b.pending;
  }

  lemma KeptMeans(b: Books, records: seq<Record>, shadow: bool)
    ensures var c := Kept(b, records, shadow);
      && (!shadow ==> c == Books(b.pending + records, AccountAll(b.tally, records), b.ring + |records|, b.shadow))
      && (shadow ==> c == Books(b.pending, b.tally, b.ring, b.shadow + |records|))
  {
  }

  lemma KeptLength(b: Books, records: seq<Record>, shadow: bool)
    ensures |Kept(b, records, shadow).pending| <= |b.pending| + |records|
  {
  }

  lemma KeptTwice(b: Books, h: seq<Record>, lo: nat, mid: nat, hi: nat, shadow: bool)
    requires lo <= mid <= hi <= |h|
    ensures Kept(Kept(b, h[lo..mid], shadow), h[mid..hi], shadow) == Kept(b, h[lo..hi], shadow)
  {
    assert h[lo..hi] == h[lo..mid] + h[mid..hi];
    BatchesDoNotMatter(b.tally, h[lo..mid], h[mid..hi]);
    hide AccountAll;
    assert b.pending + h[lo..hi] == b.pending + h[lo..mid] + h[mid..hi];
  }

  /** Queueing another capacity and a batch of records could outgrow size_t. */
  predicate QueueExhausted(length: nat, capacity: nat)
  {
    length + capacity + BATCH > RecordQueue.SIZE_MAX / 2
  }

  class Client {
    const mapping: Mapping
    const pending: RecordQueue.Queue
    const sequences: SequenceStats
    var generation: nat
    var localTail: U64
    var lastAckedTail: U64
    var ringChecks: nat
    var nonemptyRingChecks: nat
    var ringRecords: nat
    var shadowRingRecords: nat
    var acknowledgementsSent: nat
    var position: nat   // auxiliary: the unbounded position of localTail; no test reads it

    ghost predicate Valid()
      reads this, mapping, pending
    {
      && mapping.Valid() && pending.Valid()
      && localTail == Wrap(position) && lastAckedTail == Wrap(mapping.st.acked)
      && mapping.st.acked <= position <= |mapping.st.history|
    }

    constructor (mapping: Mapping, pending: RecordQueue.Queue, sequences: SequenceStats, generation: nat)
      requires mapping.Valid() && pending.Valid()
      ensures Valid()
    {
      this.mapping, this.pending, this.sequences, this.generation := mapping, pending, sequences, generation;
      position := mapping.st.acked;
      localTail, lastAckedTail := Wrap(mapping.st.acked), Wrap(mapping.st.acked);
      ringChecks, nonemptyRingChecks, ringRecords, shadowRingRecords, acknowledgementsSent := 0, 0, 0, 0, 0;
    }

    /** send_ack_if_needed; a failed send ends the process, so only sent messages are modelled. */
    method SendAckIfNeeded()
      requires Valid()
      modifies this`lastAckedTail, this`acknowledgementsSent, mapping`st
      ensures Valid() && mapping.st.acked == position
      ensures mapping.st == (if old(localTail == lastAckedTail) then old(mapping.st)
                             else SendAck(old(mapping.st), generation, localTail, position))
      ensures acknowledgementsSent == old(acknowledgementsSent + if localTail == lastAckedTail then 0 else 1)
    {
      hide Wrap, And, SlotOf, RingInvariant, InFlight;
      ChainBasics(mapping.st);
      if localTail == lastAckedTail {
        SamePosition(mapping.st, mapping.st.acked, position);
        return;
      }
      SendKeepsInvariant(mapping.st, generation, position);
      mapping.st := SendAck(mapping.st, generation, localTail, position);
      lastAckedTail := localTail;
      acknowledgementsSent := acknowledgementsSent + 1;
    }

    /** One snapshot into the local buffer. */
    method Snapshot(buffer: array<Record>) returns (count: int)
      requires Valid() && buffer.Length == BATCH
      modifies this`localTail, this`position, mapping, buffer
      ensures mapping.headLoads == old(mapping.headLoads) + 1
      ensures Valid() && Rely(old(mapping.st), mapping.st)
      ensures count == -1 ==> position == old(position) && Epoch(position) != Epoch(|mapping.st.history|)
      ensures count != -1 ==> 0 <= count <= BATCH && position == old(position) + count
      ensures count != -1 ==> buffer[..count] == mapping.st.history[old(position)..position]
      ensures count != -1 && count < BATCH ==> position >= |old(mapping.st.history)|
    {
      hide Wrap, And, SlotOf, Invariant, Epoch;
      ghost var start := position;
      var newTail;
      ghost var seen;
      count, newTail, seen := mapping.ReadSnapshot(localTail, position, buffer, 0, BATCH);
      EpochBetween(position, seen, |mapping.st.history|);
      localTail := newTail;
      if count >= 0 {
        position := position + count;
        assert buffer[..count] == mapping.st.history[start..start + count];
      }
    }

    /** What drain_ring does with a batch when it is not shadowing. */
    method Ingest(buffer: array<Record>, count: nat) returns (ok: bool)
      requires pending.Valid() && count <= buffer.Length && buffer != pending.records
      modifies this`ringRecords, pending, pending.records, sequences
      ensures pending.Valid() && (pending.records == old(pending.records) || fresh(pending.records))
      ensures sequences.View() == AccountAll(old(sequences.View()), buffer[..count])
      ensures ok ==> pending.Contents() == old(pending.Contents()) + buffer[..count]
      ensures ok ==> ringRecords == old(ringRecords) + count
      ensures !ok ==> old(pending.length) + count > RecordQueue.SIZE_MAX / 2
      ensures buffer[..] == old(buffer[..])
    {
      hide AccountAll;
      sequences.AccountSequences(buffer, count);
      ok := pending.Push(buffer, count);
      if ok {
        ringRecords := ringRecords + count;
      }
    }

    function View(): Books
      reads this`ringRecords, this`shadowRingRecords, pending, pending.records, sequences
      requires pending.Valid()
    {
      Books(pending.Contents(), sequences.View(), ringRecords, shadowRingRecords)
    }

    /** One trip round the loop of drain_ring that read something. */
    method KeepBatch(buffer: array<Record>, count: nat, shadow: bool) returns (ok: bool)
      requires pending.Valid() && count <= buffer.Length && buffer != pending.records
      modifies this`ringRecords, this`shadowRingRecords, pending, pending.records, sequences
      ensures pending.Valid() && (pending.records == old(pending.records) || fresh(pending.records))
      ensures ok ==> View() == Kept(old(View()), buffer[..count], shadow)
      ensures !ok ==> old(pending.length) + count > RecordQueue.SIZE_MAX / 2
    {
      hide AccountAll;
      if shadow {
        shadowRingRecords := shadowRingRecords + count;
        ok := true;
      } else {
        ok := Ingest(buffer, count);
      }
    }

    /** One trip round the loop of drain_ring: -1 stands for die(). */
    method Round(buffer: array<Record>, shadow: bool) returns (count: int)
      requires Valid() && buffer.Length == BATCH && buffer != pending.records
      modifies this`localTail, this`position, this`ringRecords, this`shadowRingRecords
      modifies mapping, buffer, pending, pending.records, sequences
      ensures mapping.headLoads == old(mapping.headLoads) + 1
      ensures mapping.Valid() && pending.Valid() && Rely(old(mapping.st), mapping.st)
      ensures pending.records == old(pending.records) || fresh(pending.records)
      ensures old(position) <= position <= |mapping.st.history|
      ensures count == -1 ==>
        Epoch(position) != Epoch(|mapping.st.history|) || old(pending.length) + BATCH > RecordQueue.SIZE_MAX / 2
      ensures count != -1 ==> 0 <= count <= BATCH && position == old(position) + count && localTail == Wrap(position)
      ensures count != -1 ==> View() == Kept(old(View()), mapping.st.history[old(position)..position], shadow)
      ensures 0 <= count < BATCH ==> position >= |old(mapping.st.history)|
    {
      hide Wrap, And, SlotOf, Invariant, Epoch, AccountAll, Kept;
      count := Snapshot(buffer);
      if count > 0 {
        var ok := KeepBatch(buffer, count, shadow);
        if !ok {
          count := -1;
        }
      } else {
        NothingKept(View(), shadow);
      }
    }

    /** The loop of drain_ring. It ends however fast the producer publishes: ACKs are sent only by a
        thread holding this same mutex, so no slot is reclaimed past the acknowledged tail
        meanwhile, and at most a capacity of records can be read. */
    method DrainLoop(shadow: bool) returns (died: bool, total: nat, ghost snapshots: nat)
      requires Valid()
      modifies this`localTail, this`position, this`ringRecords, this`shadowRingRecords
      modifies mapping, pending, pending.records, sequences
      ensures mapping.headLoads == old(mapping.headLoads) + snapshots
      ensures mapping.Valid() && pending.Valid() && Rely(old(mapping.st), mapping.st)
      ensures !died ==> Valid() && position == old(position) + total
      ensures !died ==> View() == Kept(old(View()), mapping.st.history[old(position)..position], shadow)
      ensures !died ==> position >= |old(mapping.st.history)|
      ensures pending.records == old(pending.records) || fresh(pending.records)
      ensures snapshots * BATCH <= total + BATCH
      ensures total <= old(mapping.st.acked + mapping.st.capacity - position)
      ensures died ==> Epoch(old(position)) != Epoch(|mapping.st.history|)
                       || QueueExhausted(old(pending.length), mapping.st.capacity)
    {
      hide Wrap, And, SlotOf, Invariant, Epoch, AccountAll, Kept;
      var buffer := new Record[BATCH](_ => Record(0, 0, 0, 0, 0, 0, 0, 0));
      died, total, snapshots := false, 0, 0;
      ghost var start, books := position, View();
      NothingKept(books, shadow);
      assert mapping.st.history[start..start] == [];
      ChainBasics(mapping.st);
      while true
        invariant Valid() && Rely(old(mapping.st), mapping.st)
        invariant position == start + total && snapshots * BATCH == total
        invariant pending.records == old(pending.records) || fresh(pending.records)
        invariant mapping.headLoads == old(mapping.headLoads) + snapshots
        invariant pending.records != buffer
        invariant View() == Kept(books, mapping.st.history[start..position], shadow)
        decreases mapping.st.acked + mapping.st.capacity - position
      {
        ghost var before, h := position, mapping.st.history;
        KeptLength(books, h[start..before], shadow);
        var count := Round(buffer, shadow);
        snapshots := snapshots + 1;
        ChainBasics(mapping.st);
        if count < 0 {
          EpochBetween(start, position, |mapping.st.history|);
          return true, total, snapshots;
        }
        PrefixSlice(h, mapping.st.history, start, before);
        KeptTwice(books, mapping.st.history, start, before, position, shadow);
        total := total + count;
        if count < BATCH {
          break;
        }
      }
    }

    /** drain_ring: at most a capacity of records in at most capacity / 4096 + 1 snapshots, all of
        them kept in order, and everything published before the call among them. `died` stands for
        die(): the snapshot was rejected or the queue could not grow. */
    method DrainRing(shadow: bool, acknowledgeNow: bool) returns (died: bool, total: nat, ghost snapshots: nat)
      requires Valid()
      modifies this, mapping, pending, pending.records, sequences
      ensures mapping.headLoads == old(mapping.headLoads) + snapshots
      ensures mapping.Valid() && pending.Valid() && old(mapping.st.history) <= mapping.st.history
      ensures !died ==> Valid() && position == old(position) + total
      ensures !died ==> View() == Kept(old(View()), mapping.st.history[old(position)..position], shadow)
      ensures !died && !shadow ==>
        var records := mapping.st.history[old(position)..position];
        pending.Contents() == old(pending.Contents()) + records && ringRecords == old(ringRecords) + total
          && sequences.View() == AccountAll(old(sequences.View()), records)
          && shadowRingRecords == old(shadowRingRecords)
      ensures !died && shadow ==>
        pending.Contents() == old(pending.Contents()) && shadowRingRecords == old(shadowRingRecords) + total
        && sequences.View() == old(sequences.View()) && ringRecords == old(ringRecords)
      ensures !died ==> position >= |old(mapping.st.history)|
      ensures !died ==> mapping.st.acked == if acknowledgeNow then position else old(mapping.st.acked)
      ensures total <= old(mapping.st.acked + mapping.st.capacity - position) <= old(mapping.st.capacity)
      ensures snapshots <= old(mapping.st.capacity) / BATCH + 1
      ensures died ==> Epoch(old(position)) != Epoch(|mapping.st.history|)
                       || QueueExhausted(old(pending.length), old(mapping.st.capacity))
      ensures ringChecks == old(ringChecks) + 1
      ensures nonemptyRingChecks == old(nonemptyRingChecks) + if !died && total > 0 then 1 else 0
      ensures pending.records == old(pending.records) || fresh(pending.records)
    {
      hide Wrap, And, SlotOf, Invariant, Epoch, AccountAll, Kept;
      ghost var books := View();
      ringChecks := ringChecks + 1;
      died, total, snapshots := DrainLoop(shadow);
      if died {
        return;
      }
      if total > 0 {
        nonemptyRingChecks := nonemptyRingChecks + 1;
      }
      KeptMeans(books, mapping.st.history[old(position)..position], shadow);
      if acknowledgeNow {
        SendAckIfNeeded();
      }
    }
  }
}
