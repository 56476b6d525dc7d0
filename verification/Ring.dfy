/** The shared ring: one producer, wrapping 64-bit head and tail, and a record array that is
    the modulo-capacity window of everything ever published. */
module Ring {
  import opened Words
  import opened Records

  // ---------- what the ring is for: a bounded queue that refuses the newest record ----------

  datatype Operation = Offer(record: Record) | Take(limit: nat)

  datatype Fifo = Fifo(capacity: nat, queue: seq<Record>, accepted: seq<Record>, taken: seq<Record>, refused: nat)

  function Perform(f: Fifo, op: Operation): Fifo
  {
    match op
    case Offer(r) =>
      if |f.queue| < f.capacity then f.(queue := f.queue + [r], accepted := f.accepted + [r])
      else f.(refused := f.refused + 1)
    case Take(limit) =>
      var n := Min(|f.queue|, limit);
      f.(queue := f.queue[n..], taken := f.taken + f.queue[..n])
  }

  function PerformAll(f: Fifo, ops: seq<Operation>): Fifo
    decreases |ops|
  {
    if ops == [] then f else PerformAll(Perform(f, ops[0]), ops[1..])
  }

  function Offers(ops: seq<Operation>): nat
  {
    if ops == [] then 0 else (if ops[0].Offer? then 1 else 0) + Offers(ops[1..])
  }

  /** Over any run nothing is lost once accepted, nothing is invented, order is kept, the queue
      never outgrows its capacity, and every offer is either accepted or counted. */
  lemma {:induction false} FifoConserves(f: Fifo, ops: seq<Operation>)
    requires f.accepted == f.taken + f.queue && |f.queue| <= f.capacity
    ensures var g := PerformAll(f, ops);
      && g.accepted == g.taken + g.queue
      && |g.queue| <= g.capacity == f.capacity
      && f.accepted <= g.accepted && f.taken <= g.taken
      && |g.accepted| + g.refused == |f.accepted| + f.refused + Offers(ops)
    decreases |ops|
  {
    if ops != [] {
      OneConserves(f, ops[0]);
      FifoConserves(Perform(f, ops[0]), ops[1..]);
      hide Perform;
    }
  }

  lemma OneConserves(f: Fifo, op: Operation)
    requires f.accepted == f.taken + f.queue && |f.queue| <= f.capacity
    ensures var g := Perform(f, op);
      && g.accepted == g.taken + g.queue
      && |g.queue| <= g.capacity == f.capacity
      && f.accepted <= g.accepted && f.taken <= g.taken
      && |g.accepted| + g.refused == |f.accepted| + f.refused + if op.Offer? then 1 else 0
  {
  }

  /** A queue that is a window of everything accepted. */
  function Window(capacity: nat, history: seq<Record>, reclaimed: nat, refused: nat): Fifo
    requires reclaimed <= |history|
  {
    Fifo(capacity, history[reclaimed..], history, history[..reclaimed], refused)
  }

  lemma WindowTakes(capacity: nat, history: seq<Record>, reclaimed: nat, refused: nat, limit: nat)
    requires reclaimed <= |history|
    ensures var n := Min(|history| - reclaimed, limit);
      Perform(Window(capacity, history, reclaimed, refused), Take(limit))
        == Window(capacity, history, reclaimed + n, refused)
  {
    var n := Min(|history| - reclaimed, limit);
    assert history[..reclaimed + n] == history[..reclaimed] + history[reclaimed..][..n];
  }

  lemma WindowAccepts(capacity: nat, history: seq<Record>, reclaimed: nat, refused: nat, record: Record)
    requires reclaimed <= |history|
    ensures Perform(Window(capacity, history, reclaimed, refused), Offer(record)) ==
      if |history| - reclaimed < capacity then Window(capacity, history + [record], reclaimed, refused)
      else Window(capacity, history, reclaimed, refused + 1)
  {
    assert (history + [record])[reclaimed..] == history[reclaimed..] + [record];
    assert (history + [record])[..reclaimed] == history[..reclaimed];
  }

  // ---------- the shared mapping ----------

  /** The read-mostly counters kept away from head and tail. */
  datatype StatsLine = StatsLine(published: U64, motion: U64, button: U64, wheel: U64, synDropped: U64)

  function Bump(counter: U64, when: bool): U64 {
    if when then Wrap(counter + 1) else counter
  }

  function Count(stats: StatsLine, record: Record): StatsLine
  {
    StatsLine(
      Bump(stats.published, true),
      Bump(stats.motion, HasFlag(record, MOTION)),
      Bump(stats.button, HasFlag(record, BUTTON)),
      Bump(stats.wheel, HasFlag(record, WHEEL)),
      Bump(stats.synDropped, HasFlag(record, SYN_DROPPED)))
  }

  /** What the counters must be: how much was published, and how much of it with each flag. */
  function StatsOf(history: seq<Record>): StatsLine
  {
    StatsLine(Wrap(|history|), Wrap(FlagCount(history, 1)), Wrap(FlagCount(history, 2)),
              Wrap(FlagCount(history, 4)), Wrap(FlagCount(history, 8)))
  }

  lemma CountIsStats(history: seq<Record>, r: Record)
    ensures Count(StatsOf(history), r) == StatsOf(history + [r])
  {
    FlagCountMore(history, r, 1);
    FlagCountMore(history, r, 2);
    FlagCountMore(history, r, 4);
    FlagCountMore(history, r, 8);
    WrapOfSum(|history|, 1);
    WrapOfSum(FlagCount(history, 1), 1);
    WrapOfSum(FlagCount(history, 2), 1);
    WrapOfSum(FlagCount(history, 4), 1);
    WrapOfSum(FlagCount(history, 8), 1);
    hide Wrap, FlagCount;
  }

  class RingHeader {
    var capacity: nat
    const records: array<Record>
    var head: U64
    var nextSequence: U64
    var droppedNewest: U64
    var tail: U64
    var drains: U64
    var recordsConsumed: U64
    var stats: StatsLine

    // Everything ever published, and how much of it the consumer side has released.
    ghost var history: seq<Record>
    ghost var reclaimed: nat
    ghost var refused: nat

    ghost predicate Valid()
      reads `capacity, `head, `tail, `recordsConsumed, `droppedNewest, `history, `reclaimed, `refused, records
    {
      && ValidCapacity(capacity) && capacity <= records.Length
      && head == Wrap(|history|) && tail == recordsConsumed == Wrap(reclaimed) && droppedNewest == Wrap(refused)
      && reclaimed <= |history| <= reclaimed + capacity
      && forall i :: 0 <= i < |history| && |history| - capacity <= i
                     ==> records[SlotOf(capacity, Wrap(i))] == history[i]
    }

    /** The records published and not yet released, oldest first. */
    ghost function Contents(): seq<Record>
      reads `history, `reclaimed
      requires reclaimed <= |history|
    {
      history[reclaimed..]
    }

    /** The ring as the simple queue it implements, over unbounded counters. */
    ghost function View(): Fifo
      reads `capacity, `history, `reclaimed, `refused
      requires reclaimed <= |history|
    {
      Window(capacity, history, reclaimed, refused)
    }

    lemma Sizes()
      requires Valid()
      ensures ValidCapacity(capacity) && reclaimed <= |history| <= reclaimed + capacity
      ensures head == Wrap(|history|) && tail == Wrap(reclaimed)
    {
    }

    constructor (mapping: array<Record>)
      ensures records == mapping
    {
      records := mapping;
    }

    /** hfior_initialize_mapping: refuses a capacity that is not a power of two, or a mapping
        too small for the 384-byte header and 32 bytes a record. */
    method InitializeMapping(mappingSize: nat, wanted: nat) returns (ok: bool)
      requires wanted < 0x1_0000_0000
      requires mappingSize < 384 + 32 * (records.Length + 1)
      modifies this
      ensures ok <==> PowerOfTwoTest(wanted) && mappingSize >= 384 + 32 * wanted
      ensures ok ==> Valid() && capacity == wanted && View() == Fifo(wanted, [], [], [], 0)
      ensures ok ==> head == tail == droppedNewest == drains == recordsConsumed == 0 && nextSequence == 1
      ensures ok ==> stats == StatsLine(0, 0, 0, 0, 0) == StatsOf([])
      ensures !ok ==> unchanged(this)
    {
      if wanted == 0 || And(wanted, wanted - 1) != 0 || mappingSize < 384 + 32 * wanted {
        return false;
      }
      capacity := wanted;
      head, nextSequence, droppedNewest := 0, 1, 0;
      tail, drains, recordsConsumed := 0, 0, 0;
      stats := StatsLine(0, 0, 0, 0, 0);
      history, reclaimed, refused := [], 0, 0;
      return true;
    }

    /** hfior_ring_publish: append when the window is not full, otherwise count a drop. */
    method Publish(record: Record) returns (published: bool)
      requires Valid()
      modifies this`head, this`history, this`droppedNewest, this`refused, this`stats, records
      ensures Valid() && View() == Perform(old(View()), Offer(record))
      ensures published <==> |old(Contents())| < capacity
      ensures published ==> Contents() == old(Contents()) + [record] && history == old(history) + [record]
      ensures !published ==> Contents() == old(Contents()) && history == old(history)
                             && records[..] == old(records[..])
      ensures droppedNewest == Wrap(old(droppedNewest) + if published then 0 else 1)
      ensures stats == if published then Count(old(stats), record) else old(stats)
      ensures old(stats) == StatsOf(old(history)) ==> stats == StatsOf(history)
    {
      hide Wrap, Sub64, And, SlotOf, Count, StatsOf, Valid, Perform, Window;
      Sizes();
      WindowAccepts(capacity, history, reclaimed, refused, record);
      SubOfWraps(|history|, reclaimed);
      if Sub64(head, tail) >= capacity {
        CountRefusal();
        return false;
      }
      CountIsStats(history, record);
      StoreAtHead(record);
      stats := Count(stats, record);
      return true;
    }

    method CountRefusal()
      requires Valid()
      modifies this`droppedNewest, this`refused
      ensures Valid() && refused == old(refused) + 1 && droppedNewest == Wrap(old(droppedNewest) + 1)
    {
      WrapOfSum(refused, 1);
      hide Wrap, And, SlotOf;
      droppedNewest := Wrap(droppedNewest + 1);
      refused := refused + 1;
    }

    method StoreAtHead(record: Record)
      requires Valid() && |history| < reclaimed + capacity
      modifies this`head, this`history, records
      ensures Valid() && history == old(history) + [record]
    {
      forall i | 0 <= i < |history| && |history| + 1 - capacity <= i
        ensures SlotOf(capacity, Wrap(i)) != SlotOf(capacity, head)
      {
        SlotsDistinct(capacity, i, |history|);
      }
      var slot := SlotOf(capacity, head);
      records[slot] := record;
      WrapOfSum(|history|, 1);
      head := Wrap(head + 1);
      history := history + [record];
    }

    /** hfior_ring_drain: copy out the oldest records and release them, for any head and tail
        words, including a head that has wrapped past a tail that has not. */
    method Drain(out: array<Record>, maxRecords: nat) returns (available: nat)
      requires Valid()
      requires out != records && maxRecords <= out.Length
      modifies this`tail, this`drains, this`recordsConsumed, this`reclaimed, out
      ensures Valid() && View() == Perform(old(View()), Take(maxRecords))
      ensures available == Min(|old(Contents())|, maxRecords)
      ensures forall k :: 0 <= k < available ==> out[k] == old(Contents())[k]
      ensures forall k :: available <= k < out.Length ==> out[k] == old(out[k])
      ensures Contents() == old(Contents())[available..]
      ensures drains == old(if available > 0 then Wrap(drains + 1) else drains)
    {
      hide Wrap, Sub64, And, SlotOf, Valid, Perform, Window;
      Sizes();
      WindowTakes(capacity, history, reclaimed, refused, maxRecords);
      SubOfWraps(|history|, reclaimed);
      available := Sub64(head, tail);
      if available > maxRecords {
        available := maxRecords;
      }
      CopyOut(out, available);
      if available > 0 {
        AdvanceTail(available);
      }
    }

    method CopyOut(out: array<Record>, available: nat)
      requires Valid() && available <= |history| - reclaimed
      requires out != records && available <= out.Length
      modifies out
      ensures forall k :: 0 <= k < available ==> out[k] == history[reclaimed + k]
      ensures forall k :: available <= k < out.Length ==> out[k] == old(out[k])
    {
      hide Wrap, And, SlotOf;
      var i := 0;
      while i < available
        invariant 0 <= i <= available
        invariant forall k :: 0 <= k < i ==> out[k] == history[reclaimed + k]
        invariant forall k :: i <= k < out.Length ==> out[k] == old(out[k])
      {
        WrapOfSum(reclaimed, i);
        out[i] := records[SlotOf(capacity, Wrap(tail + i))];
        i := i + 1;
      }
    }

    method AdvanceTail(count: nat)
      requires Valid() && count <= |history| - reclaimed
      modifies this`tail, this`drains, this`recordsConsumed, this`reclaimed
      ensures Valid() && reclaimed == old(reclaimed) + count && drains == Wrap(old(drains) + 1)
    {
      WrapOfSum(reclaimed, count);
      hide Wrap, And, SlotOf;
      tail := Wrap(tail + count);
      recordsConsumed := Wrap(recordsConsumed + count);
      reclaimed := reclaimed + count;
      drains := Wrap(drains + 1);
    }

    /** Move the tail up to an acknowledged word that is not past the head. */
    method ReleaseTo(word: U64)
      requires Valid() && tail <= word && reclaimed + (word - tail) <= |history|
      modifies this`tail, this`drains, this`recordsConsumed, this`reclaimed
      ensures Valid() && tail == word && reclaimed == old(reclaimed) + (word - old(tail))
      ensures drains == Wrap(old(drains) + 1)
    {
      WrapOfSum(reclaimed, word - tail);
      WrapOfSmall(word);
      hide Wrap, And, SlotOf;
      var consumed := word - tail;
      reclaimed := reclaimed + consumed;
      tail := word;
      drains := Wrap(drains + 1);
      recordsConsumed := Wrap(recordsConsumed + consumed);
    }
  }
}
