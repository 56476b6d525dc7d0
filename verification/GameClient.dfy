/** The validating game client: a read checks every unread record before it commits anything. */
module GameClient {
  import opened Words
  import opened Records
  import opened Protocol
  import opened Reclamation
  import opened SharedMapping

  datatype Motion = Motion(dx: real, dy: real, timestamp: U64)

  datatype Batch = Batch(dx: real, dy: real, records: nat, newest: U64, producerDrops: U64, sequenceErrors: nat)

  const EMPTY_BATCH: Batch := Batch(0.0, 0.0, 0, 0, 0, 0)

  datatype Fault = NoFault | DispatchFailed | ProducerDropped | BoundsInvalid | BufferTooSmall | SequenceGap | PeerFault

  /** What dispatching pending Wayland events did. */
  datatype Dispatch = Quiet | Failed | PeerRevoked

  // ---------- what a read means ----------

  /** Each record numbered, and one above the record before; 0 expects anything. */
  predicate Consecutive(expected: U64, records: seq<Record>)
  {
    records == [] ||
    var n := |records| - 1;
    Consecutive(expected, records[..n]) && Follows(ExpectedAfter(expected, records[..n]), records[n])
  }

  predicate Follows(expected: U64, r: Record)
  {
    r.sequence != 0 && (expected == 0 || r.sequence == expected)
  }

  function ExpectedAfter(expected: U64, records: seq<Record>): U64
  {
    if records == [] then expected else Wrap(records[|records| - 1].sequence + 1)
  }

  function SumX(records: seq<Record>): int
  {
    if records == [] then 0 else SumX(records[..|records| - 1]) + records[|records| - 1].dx
  }

  function SumY(records: seq<Record>): int
  {
    if records == [] then 0 else SumY(records[..|records| - 1]) + records[|records| - 1].dy
  }

  function Newest(records: seq<Record>): U64
  {
    if records == [] then 0 else records[|records| - 1].timestamp
  }

  function MotionOf(r: Record): Motion
  {
    Motion(r.dx as real / 256.0, r.dy as real / 256.0, r.timestamp)
  }

  function Motions(records: seq<Record>): seq<Motion>
  {
    if records == [] then [] else Motions(records[..|records| - 1]) + [MotionOf(records[|records| - 1])]
  }

  /** Each motion is its record's, in counts of 256 to the unit. */
  lemma {:induction false} MotionsAre(records: seq<Record>, k: nat)
    requires k < |records|
    ensures |Motions(records)| == |records|
    ensures var m := Motions(records)[k];
      && 256.0 * m.dx == records[k].dx as real && 256.0 * m.dy == records[k].dy as real
      && m.timestamp == records[k].timestamp
  {
    var n := |records| - 1;
    BatchSumIsMotionSum(records, 0);
    BatchSumIsMotionSum(records[..n], 0);
    if k < n {
      MotionsAre(records[..n], k);
    }
  }

  /** What passes the check: every record is numbered; the first carries the expected number, if one is
      expected; each later one is one above the record before, unless that had the largest number. */
  lemma {:induction false} ConsecutiveMeans(expected: U64, records: seq<Record>)
    ensures Consecutive(expected, records) <==>
      (forall k :: 0 <= k < |records| ==> records[k].sequence != 0)
      && (records != [] && expected != 0 ==> records[0].sequence == expected)
      && (forall k :: 0 < k < |records| ==>
            records[k - 1].sequence == 0xFFFF_FFFF_FFFF_FFFF || records[k].sequence == records[k - 1].sequence + 1)
  {
    if records != [] {
      var n := |records| - 1;
      var front := records[..n];
      ConsecutiveMeans(expected, front);
      forall k | 0 <= k < n ensures front[k] == records[k] {}
    }
  }

  /** A failed check anywhere fails the whole. */
  lemma {:induction false} PrefixConsecutive(expected: U64, records: seq<Record>, n: nat)
    requires n <= |records| && Consecutive(expected, records)
    ensures Consecutive(expected, records[..n])
  {
    if n == |records| {
      assert records[..n] == records;
    } else {
      PrefixConsecutive(expected, records[..|records| - 1], n);
      assert records[..|records| - 1][..n] == records[..n];
    }
  }

  /** The accumulators stay inside a signed 64-bit integer for any 32-bit capacity. */
  lemma {:induction false} SumsFitInt64(records: seq<Record>)
    ensures -0x8000_0000 * |records| <= SumX(records) <= 0x8000_0000 * |records|
    ensures -0x8000_0000 * |records| <= SumY(records) <= 0x8000_0000 * |records|
    ensures |records| < 0x1_0000_0000 ==>
      -0x8000_0000_0000_0000 <= SumX(records) <= 0x7FFF_FFFF_FFFF_FFFF
      && -0x8000_0000_0000_0000 <= SumY(records) <= 0x7FFF_FFFF_FFFF_FFFF
  {
    if records != [] {
      SumsFitInt64(records[..|records| - 1]);
    }
  }

  function TotalX(motions: seq<Motion>): real
  {
    if motions == [] then 0.0 else TotalX(motions[..|motions| - 1]) + motions[|motions| - 1].dx
  }

  function TotalY(motions: seq<Motion>): real
  {
    if motions == [] then 0.0 else TotalY(motions[..|motions| - 1]) + motions[|motions| - 1].dy
  }

  /** The batch sums are the sums of the motions handed out beside it. */
  lemma {:induction false} BatchSumIsMotionSum(records: seq<Record>, errors: nat)
    ensures var batch, motions := BatchOf(records, errors), Motions(records);
      && batch.dx == TotalX(motions) && batch.dy == TotalY(motions)
      && batch.records == |motions|
      && batch.newest == if motions == [] then 0 else motions[|motions| - 1].timestamp
  {
    if records != [] {
      var n := |records| - 1;
      BatchSumIsMotionSum(records[..n], errors);
      assert Motions(records)[..n] == Motions(records[..n]);
    }
  }

  /** Two reads in a row are one read of both: consecutive numbers carry over. */
  lemma {:induction false} ReadsCompose(expected: U64, a: seq<Record>, b: seq<Record>)
    requires Consecutive(expected, a) && Consecutive(ExpectedAfter(expected, a), b)
    ensures Consecutive(expected, a + b)
    ensures ExpectedAfter(ExpectedAfter(expected, a), b) == ExpectedAfter(expected, a + b)
    ensures SumX(a + b) == SumX(a) + SumX(b) && SumY(a + b) == SumY(a) + SumY(b)
    ensures Motions(a + b) == Motions(a) + Motions(b)
    decreases |b|
  {
    if b == [] {
      assert a + b == a;
    } else {
      var n := |b| - 1;
      assert (a + b)[..|a + b| - 1] == a + b[..n];
      ReadsCompose(expected, a, b[..n]);
      assert ExpectedAfter(ExpectedAfter(expected, a), b[..n]) == ExpectedAfter(expected, a + b[..n]);
      assert Motions(a + b) == Motions(a + b[..n]) + [MotionOf(b[n])];
    }
  }

  // ---------- against the bridge's numbering ----------

  /** What the client expects follows the last record it consumed. */
  ghost predicate ExpectsNext(expected: U64, history: seq<Record>, position: nat)
  {
    expected == 0 || (0 < position <= |history| && expected == Wrap(history[position - 1].sequence + 1))
  }

  /** Without a loss before `hi`, and before the numbers run out, the records from lo to hi pass
      the client's check. */
  lemma {:induction false} NoLossNoGap(sh: Shared, lo: nat, hi: nat, expected: U64)
    requires RingInvariant(sh) && lo <= hi <= |sh.history| < TWO64 - 1
    requires forall i :: 0 <= i < hi ==> sh.lossBefore[i] == 0
    requires ExpectsNext(expected, sh.history, lo)
    ensures Consecutive(expected, sh.history[lo..hi])
    ensures forall i :: lo <= i < hi ==> sh.history[i].sequence == 1 + i
  {
    NumbersWithoutLoss(sh, hi);
    ConsecutiveNumbers(sh.history, lo, hi, expected);
  }

  lemma NumbersWithoutLoss(sh: Shared, hi: nat)
    requires RingInvariant(sh) && hi <= |sh.history| < TWO64 - 1
    requires forall i :: 0 <= i < hi ==> sh.lossBefore[i] == 0
    ensures forall i :: 0 <= i < hi ==> sh.history[i].sequence == 1 + i
  {
  }

  lemma {:induction false} ConsecutiveNumbers(h: seq<Record>, lo: nat, hi: nat, expected: U64)
    requires lo <= hi <= |h| < TWO64 - 1
    requires forall i :: 0 <= i < hi ==> h[i].sequence == 1 + i
    requires ExpectsNext(expected, h, lo)
    ensures Consecutive(expected, h[lo..hi])
    decreases hi
  {
    if lo < hi {
      ConsecutiveNumbers(h, lo, hi - 1, expected);
      assert h[lo..hi][..hi - 1 - lo] == h[lo..hi - 1];
      assert h[lo..hi][hi - 1 - lo] == h[hi - 1];
      if lo < hi - 1 {
        assert h[lo..hi - 1][hi - 2 - lo] == h[hi - 2];
      }
    }
  }

  // ---------- the client ----------

  class Client {
    const mapping: Mapping
    const capacity: nat
    var generation: nat
    var localTail: U64
    var acknowledgedTail: U64
    var expectedSequence: U64
    var sequenceErrors: nat
    var active: bool
    var faulted: bool
    var fault: Fault
    var position: nat   // auxiliary: the unbounded position of localTail; no test reads it

    ghost predicate Valid()
      reads this, mapping
    {
      && mapping.Valid() && capacity == mapping.st.capacity
      && localTail == Wrap(position) && acknowledgedTail == Wrap(mapping.st.acked)
      && mapping.st.acked <= position <= |mapping.st.history|
      && ExpectsNext(expectedSequence, mapping.st.history, position)
      && (!faulted ==> fault == NoFault)
    }

    predicate Usable()
      reads this
    {
      active && !faulted
    }

    /** stream_active, once the mapping has been checked: begin at the shared tail. */
    constructor (mapping: Mapping, generation: nat)
      requires mapping.Valid() && mapping.st.acked == mapping.st.reclaimed
      ensures Valid() && Usable() && this.mapping == mapping && position == mapping.st.acked && expectedSequence == 0
    {
      this.mapping, this.generation := mapping, generation;
      capacity := mapping.st.capacity;
      position := mapping.st.reclaimed;
      localTail, acknowledgedTail := mapping.st.tail, mapping.st.tail;
      expectedSequence, sequenceErrors := 0, 0;
      active, faulted, fault := true, false, NoFault;
    }

    /** set_error */
    method SetError(f: Fault)
      modifies this`active, this`faulted, this`fault
      ensures !active && faulted && fault == f
    {
      active, faulted, fault := false, true, f;
    }

    /** The record loop of a read: check and sum, touching nothing but the caller's buffer. */
    method Scan(available: nat, motions: array?<Motion>) returns (good: bool, totals: Totals)
      requires Valid() && position + available <= |mapping.st.history|
      requires motions != null ==> available <= motions.Length
      modifies mapping, motions
      ensures Valid() && Rely(old(mapping.st), mapping.st)
      ensures good <==> Consecutive(expectedSequence, mapping.st.history[position..position + available])
      ensures good ==> totals == TotalsOf(expectedSequence, mapping.st.history[position..position + available])
      ensures good && motions != null ==>
        motions[..available] == Motions(mapping.st.history[position..position + available])
    {
      hide Wrap, And, SlotOf, Invariant, Consecutive, ExpectsNext, TotalsOf, Motions;
      ghost var h := mapping.st.history;
      good, totals := ScanLoop(available, motions, h[position..position + available]);
      PrefixSlice(h, mapping.st.history, position, position + available);
      ExpectsStable(expectedSequence, h, mapping.st.history, position);
    }

    method ScanLoop(available: nat, motions: array?<Motion>, ghost records: seq<Record>)
      returns (good: bool, totals: Totals)
      requires mapping.Valid() && localTail == Wrap(position) && mapping.st.acked <= position
      requires position + available <= |mapping.st.history|
      requires records == mapping.st.history[position..position + available]
      requires motions != null ==> available <= motions.Length
      modifies mapping, motions
      ensures mapping.Valid() && Rely(old(mapping.st), mapping.st)
      ensures good <==> Consecutive(expectedSequence, records)
      ensures good ==> totals == TotalsOf(expectedSequence, records)
      ensures good && motions != null ==> motions[..available] == Motions(records)
    {
      hide Wrap, And, SlotOf, Invariant, Consecutive, TotalsOf, Follows, Include, Motions;
      totals := Totals(0, 0, expectedSequence, 0);
      ScanStart(expectedSequence);
      var i := 0;
      while i < available
        invariant 0 <= i <= available
        invariant mapping.Valid() && Rely(old(mapping.st), mapping.st)
        invariant Consecutive(expectedSequence, records[..i])
        invariant totals == TotalsOf(expectedSequence, records[..i])
        invariant motions != null ==> motions[..i] == Motions(records[..i])
      {
        WrapOfSum(position, i);
        var record := mapping.LoadSlot(Wrap(localTail + i), position + i);
        assert record == records[i];
        ScanStep(expectedSequence, records, i);
        if !Follows(totals.expected, record) {
          FailedScan(expectedSequence, records, i + 1);
          break;
        }
        totals := Include(totals, record);
        if motions != null {
          motions[i] := MotionOf(record);
        }
        i := i + 1;
      }
      good := i == available;
      assert records[..available] == records;
    }

    /** The first half of hfior_game_client_read: everything checked before a record is touched.
        `seen` is the published position of the head loaded. */
    method Check(dispatchPending: bool, dispatch: Dispatch, buffered: bool, motionCapacity: nat)
      returns (pass: bool, head: U64, drops: U64, ghost seen: nat)
      requires Valid()
      modifies this`active, this`faulted, this`fault, mapping
      ensures Valid() && Rely(old(mapping.st), mapping.st) && position <= seen <= |mapping.st.history|
      ensures pass ==> old(Usable()) && Usable() && drops == 0 && mapping.st.droppedNewest == 0
      ensures pass ==> head == Wrap(seen) && head - localTail == seen - position && seen >= |old(mapping.st.history)|
      ensures pass && buffered ==> seen - position <= motionCapacity
      ensures !pass ==> !Usable()
      ensures !pass && old(Usable()) ==> Explained(dispatchPending, dispatch, buffered, motionCapacity, seen)
      ensures !pass && old(Usable()) ==> fault != SequenceGap
    {
      hide Wrap, And, SlotOf, Invariant, Consecutive, ExpectsNext, Epoch;
      pass, head, drops, seen := false, 0, 0, position;
      if !active || faulted {
        return;
      }
      if dispatchPending && dispatch != Quiet {
        SetError(if dispatch == Failed then DispatchFailed else PeerFault);
        return;
      }
      head := mapping.LoadHead();
      seen := |mapping.st.history|;
      drops := mapping.LoadDropped();
      ExpectsStable(expectedSequence, old(mapping.st.history), mapping.st.history, position);
      pass := Judge(head, drops, buffered, motionCapacity, seen);
    }

    /** The tests on the loaded words. */
    method Judge(head: U64, drops: U64, buffered: bool, motionCapacity: nat, ghost seen: nat) returns (pass: bool)
      requires Valid() && Usable() && drops == mapping.st.droppedNewest
      requires head == Wrap(seen) && position <= seen <= |mapping.st.history|
      modifies this`active, this`faulted, this`fault
      ensures Valid() && pass == Usable()
      ensures pass ==> drops == 0 && head - localTail == seen - position
      ensures pass && buffered ==> seen - position <= motionCapacity
      ensures !pass ==> fault != SequenceGap
      ensures !pass ==> forall dispatchPending, dispatch ::
        Explained(dispatchPending, dispatch, buffered, motionCapacity, seen)
    {
      hide Wrap, And, SlotOf, Invariant, Consecutive, ExpectsNext, Epoch;
      BoundsTest(mapping.st, position, seen);
      WrapOfZero();
      pass := false;
      if drops != 0 {
        DropsMeanLosses(mapping.st);
        SetError(ProducerDropped);
      } else if head < localTail || head - localTail > capacity {
        SetError(BoundsInvalid);
      } else if buffered && head - localTail > motionCapacity {
        SetError(BufferTooSmall);
      } else {
        pass := true;
      }
    }

    /** hfior_game_client_read. A read either consumes every record up to the head it loaded, and
        those records carry consecutive numbers, or changes neither cursor nor expectation and
        leaves the client unusable. `motions` may be null; `dispatch` says what dispatching pending
        events did. */
    method Read(dispatchPending: bool, dispatch: Dispatch, motions: array?<Motion>, motionCapacity: nat)
      returns (ok: bool, batch: Batch, ghost seen: nat)
      requires Valid() && (motions != null ==> motionCapacity <= motions.Length)
      modifies this, mapping, motions
      ensures Valid() && Rely(old(mapping.st), mapping.st) && old(position) <= seen <= |mapping.st.history|
      ensures ok ==> old(Usable()) && Usable() && position == seen >= |old(mapping.st.history)|
      ensures ok ==> Consecutive(old(expectedSequence), mapping.st.history[old(position)..seen])
      ensures ok ==> expectedSequence == ExpectedAfter(old(expectedSequence), mapping.st.history[old(position)..seen])
      ensures ok ==> batch == BatchOf(mapping.st.history[old(position)..seen], sequenceErrors)
      ensures ok && motions != null ==> seen - old(position) <= motionCapacity
      ensures ok && motions != null ==>
        motions[..seen - old(position)] == Motions(mapping.st.history[old(position)..seen])
      ensures ok && motions != null ==>
        forall k :: 0 <= k < seen - old(position) ==>
          var r := mapping.st.history[old(position) + k];
          256.0 * motions[k].dx == r.dx as real && 256.0 * motions[k].dy == r.dy as real
            && motions[k].timestamp == r.timestamp
      ensures ok ==> LossFree(mapping.st, seen)
      ensures !ok ==> position == old(position) && localTail == old(localTail) && !Usable()
      ensures !ok ==> expectedSequence == old(expectedSequence) && acknowledgedTail == old(acknowledgedTail)
      ensures !ok && old(Usable()) ==> Explained(dispatchPending, dispatch, motions != null, motionCapacity, seen)
      ensures old(Usable()) && |mapping.st.history| < TWO64 - 1 && mapping.st.losses < TWO64 ==> fault != SequenceGap
    {
      hide Wrap, And, SlotOf, Invariant, Consecutive, ExpectsNext, ExpectedAfter, Motions, Epoch, LossFree, BatchOf;
      var pass, head, drops;
      pass, head, drops, seen := Check(dispatchPending, dispatch, motions != null, motionCapacity);
      ok, batch := false, EMPTY_BATCH.(producerDrops := drops);
      if pass {
        ghost var atDrops := mapping.st;
        ok, batch := Consume(head, head - localTail, motions);
        NoFalseGap(atDrops, mapping.st, old(position), seen, old(expectedSequence));
        if ok && motions != null {
          AllMotionsAre(mapping.st.history[old(position)..seen]);
          assert forall k :: 0 <= k < seen - old(position) ==> motions[..seen - old(position)][k] == motions[k];
        }
      }
    }

    /** The rest of a read, once head, drops and buffer have been checked. */
    method Consume(head: U64, available: nat, motions: array?<Motion>) returns (ok: bool, batch: Batch)
      requires Valid() && Usable() && position + available <= |mapping.st.history| && head == Wrap(position + available)
      requires motions != null ==> available <= motions.Length
      modifies this, mapping, motions
      ensures Valid() && Rely(old(mapping.st), mapping.st) && old(position) + available <= |mapping.st.history|
      ensures ok == Consecutive(old(expectedSequence), mapping.st.history[old(position)..old(position) + available])
      ensures ok ==> Usable() && fault == NoFault && position == old(position) + available
      ensures ok ==>
        expectedSequence == ExpectedAfter(old(expectedSequence), mapping.st.history[old(position)..position])
      ensures ok ==> batch == BatchOf(mapping.st.history[old(position)..position], sequenceErrors)
      ensures ok && motions != null ==> motions[..available] == Motions(mapping.st.history[old(position)..position])
      ensures !ok ==> position == old(position) && localTail == old(localTail)
      ensures !ok ==> acknowledgedTail == old(acknowledgedTail)
      ensures !ok ==> expectedSequence == old(expectedSequence) && fault == SequenceGap && !Usable()
    {
      hide Wrap, And, SlotOf, Invariant, Consecutive, ExpectsNext, Motions;
      var good, totals := Scan(available, motions);
      ok, batch := good, EMPTY_BATCH;
      if !good {
        sequenceErrors := sequenceErrors + 1;
        batch := batch.(sequenceErrors := sequenceErrors);
        SetError(SequenceGap);
        return;
      }
      batch := Batch(totals.dx as real / 256.0, totals.dy as real / 256.0, available, totals.newest, 0, sequenceErrors);
      ExpectsAfterRead(expectedSequence, mapping.st.history, position, available);
      localTail := head;
      expectedSequence := totals.expected;
      position := position + available;
    }

    /** hfior_game_client_acknowledge; `flushed` says whether the display could be flushed. The
        message is queued either way. */
    method Acknowledge(flushed: bool) returns (ok: bool)
      requires Valid()
      modifies this, mapping
      ensures Valid() && position == old(position) && expectedSequence == old(expectedSequence)
      ensures (!ok ==> !Usable()) && (old(Usable()) ==> ok == Usable())
      ensures !old(active) ==> !ok && mapping.st == old(mapping.st)
      ensures old(active) ==> mapping.st.acked == position
      ensures old(active && localTail == acknowledgedTail) ==> ok && mapping.st == old(mapping.st)
      ensures old(active && localTail != acknowledgedTail) ==>
        ok == flushed && mapping.st == SendAck(old(mapping.st), generation, localTail, position)
    {
      hide Wrap, And, SlotOf, RingInvariant, InFlight;
      if !active {
        return false;
      }
      ChainBasics(mapping.st);
      if localTail == acknowledgedTail {
        SamePosition(mapping.st, mapping.st.acked, position);
        return true;
      }
      SendKeepsInvariant(mapping.st, generation, position);
      mapping.st := SendAck(mapping.st, generation, localTail, position);
      acknowledgedTail := localTail;
      if !flushed {
        SetError(DispatchFailed);
        return false;
      }
      return true;
    }

    ghost predicate Explained(dispatchPending: bool, dispatch: Dispatch, buffered: bool, motionCapacity: nat, seen: nat)
      reads this, mapping
    {
      match fault
      case NoFault => false
      case DispatchFailed => dispatchPending && dispatch == Failed
      case PeerFault => dispatchPending && dispatch == PeerRevoked
      case ProducerDropped => mapping.st.losses > 0
      case BoundsInvalid => Epoch(position) != Epoch(seen)
      case BufferTooSmall => buffered && seen - position > motionCapacity
      case SequenceGap => position <= seen <= |mapping.st.history|
                          && !Consecutive(expectedSequence, mapping.st.history[position..seen])
    }
  }

  lemma AllMotionsAre(records: seq<Record>)
    ensures |Motions(records)| == |records|
    ensures forall k :: 0 <= k < |records| ==>
      var m := Motions(records)[k];
      256.0 * m.dx == records[k].dx as real && 256.0 * m.dy == records[k].dy as real
        && m.timestamp == records[k].timestamp
  {
    BatchSumIsMotionSum(records, 0);
    forall k | 0 <= k < |records|
      ensures var m := Motions(records)[k];
        256.0 * m.dx == records[k].dx as real && 256.0 * m.dy == records[k].dy as real
          && m.timestamp == records[k].timestamp
    {
      MotionsAre(records, k);
    }
  }

  /** What a successful read reports of the records it consumed. */
  function BatchOf(records: seq<Record>, sequenceErrors: nat): Batch
  {
    Batch(SumX(records) as real / 256.0, SumY(records) as real / 256.0, |records|, Newest(records), 0, sequenceErrors)
  }

  /** The running values of the record loop. */
  datatype Totals = Totals(dx: int, dy: int, expected: U64, newest: U64)

  function Include(t: Totals, r: Record): Totals
  {
    Totals(t.dx + r.dx, t.dy + r.dy, Wrap(r.sequence + 1), r.timestamp)
  }

  function TotalsOf(expected: U64, records: seq<Record>): Totals
  {
    Totals(SumX(records), SumY(records), ExpectedAfter(expected, records), Newest(records))
  }

  lemma ScanStart(expected: U64)
    ensures Consecutive(expected, []) && TotalsOf(expected, []) == Totals(0, 0, expected, 0) && Motions([]) == []
  {
  }

  lemma ScanStep(expected: U64, records: seq<Record>, i: nat)
    requires i < |records|
    ensures Consecutive(expected, records[..i + 1])
         == (Consecutive(expected, records[..i]) && Follows(TotalsOf(expected, records[..i]).expected, records[i]))
    ensures TotalsOf(expected, records[..i + 1]) == Include(TotalsOf(expected, records[..i]), records[i])
    ensures Motions(records[..i + 1]) == Motions(records[..i]) + [MotionOf(records[i])]
  {
    assert records[..i + 1][..i] == records[..i];
  }

  lemma FailedScan(expected: U64, records: seq<Record>, n: nat)
    requires n <= |records| && !Consecutive(expected, records[..n])
    ensures !Consecutive(expected, records)
  {
    if Consecutive(expected, records) { PrefixConsecutive(expected, records, n); }
  }

  lemma ExpectsStable(expected: U64, h: seq<Record>, k: seq<Record>, position: nat)
    requires h <= k && ExpectsNext(expected, h, position)
    ensures ExpectsNext(expected, k, position)
  {
  }

  /** While the drop counter has not wrapped, no record before this position follows a loss. */
  ghost predicate LossFree(s: Shared, seen: nat)
  {
    s.losses < TWO64 ==> seen <= |s.lossBefore| && forall i :: 0 <= i < seen ==> s.lossBefore[i] == 0
  }

  lemma ExpectsAfterRead(expected: U64, h: seq<Record>, position: nat, available: nat)
    requires position + available <= |h| && ExpectsNext(expected, h, position)
    ensures ExpectsNext(ExpectedAfter(expected, h[position..position + available]), h, position + available)
  {
  }

  lemma BoundsTest(s: Shared, position: nat, seen: nat)
    requires Invariant(s) && s.acked <= position <= seen <= |s.history|
    ensures Wrap(seen) < Wrap(position) || Wrap(seen) - Wrap(position) > s.capacity <==>
      Epoch(position) != Epoch(seen)
    ensures Epoch(position) == Epoch(seen) ==> Wrap(seen) - Wrap(position) == seen - position
  {
    CapacityBelowWord(s.capacity);
    WordOrder(position, seen);
  }

  lemma DropsMeanLosses(s: Shared)
    requires Invariant(s) && s.droppedNewest != 0
    ensures s.losses > 0
  {
  }

  /** A zero drop counter, read after the head, means no record up to that head follows a loss; so
      before the numbers run out the check cannot fail. */
  lemma NoFalseGap(atDrops: Shared, now: Shared, position: nat, seen: nat, expected: U64)
    requires Invariant(atDrops) && Invariant(now) && Rely(atDrops, now) && atDrops.droppedNewest == 0
    requires position <= seen <= |atDrops.history| && ExpectsNext(expected, atDrops.history, position)
    ensures LossFree(now, seen) && ExpectsNext(expected, now.history, position)
    ensures now.losses < TWO64 && |now.history| < TWO64 - 1 ==> Consecutive(expected, now.history[position..seen])
  {
    ExpectsStable(expected, atDrops.history, now.history, position);
    if now.losses < TWO64 {
      NoLossYet(atDrops, now, seen);
      if |now.history| < TWO64 - 1 {
        NoLossNoGap(now, position, seen, expected);
      }
    }
  }

  lemma NoLossYet(atDrops: Shared, now: Shared, seen: nat)
    requires Invariant(atDrops) && Invariant(now) && Rely(atDrops, now) && atDrops.droppedNewest == 0
    requires seen <= |atDrops.history| && now.losses < TWO64
    ensures |now.lossBefore| == |now.history|
    ensures forall i :: 0 <= i < seen ==> now.lossBefore[i] == 0
  {
    assert atDrops.losses == 0;
    forall i | 0 <= i < seen ensures now.lossBefore[i] == 0 {
      assert now.lossBefore[i] == atDrops.lossBefore[i] <= atDrops.losses;
    }
  }
}
