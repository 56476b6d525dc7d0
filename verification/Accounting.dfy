/** The client's sequence-number accounting: gaps, duplicates, first and last. */
module Accounting {
  import opened Words
  import opened Records

  const MAX64: U64 := 0xFFFF_FFFF_FFFF_FFFF

  datatype Tally = Tally(first: U64, last: U64, gaps: U64, duplicates: U64, terminals: U64)

  const ZERO_TALLY: Tally := Tally(0, 0, 0, 0, 0)

  /** What one record does to the counters. Number 0 means "no number" and is skipped. */
  function Account(t: Tally, r: Record): Tally
  {
    if r.sequence == 0 then t else
    var next := Wrap(t.last + 1);
    Tally(
      if t.first == 0 then r.sequence else t.first,
      if r.sequence > t.last then r.sequence else t.last,
      if t.last != 0 && r.sequence != next && r.sequence > next
        then Wrap(t.gaps + (r.sequence - t.last - 1)) else t.gaps,
      if t.last != 0 && r.sequence != next && r.sequence <= next
        then Wrap(t.duplicates + 1) else t.duplicates,
      if HasFlag(r, TERMINATE) then Wrap(t.terminals + 1) else t.terminals)
  }

  function AccountAll(t: Tally, records: seq<Record>): Tally
  {
    if records == [] then t
    else Account(AccountAll(t, records[..|records| - 1]), records[|records| - 1])
  }

  predicate SeesTerminal(records: seq<Record>)
  {
    exists k :: 0 <= k < |records| && records[k].sequence != 0 && HasFlag(records[k], TERMINATE)
  }

  /** The statistics fields of the client that account_sequences updates. */
  class SequenceStats {
    var firstSequence: U64
    var lastSequence: U64
    var sequenceGaps: U64
    var duplicateOrReordered: U64
    var terminalRecords: U64
    var terminalSeen: bool

    function View(): Tally
      reads this
    {
      Tally(firstSequence, lastSequence, sequenceGaps, duplicateOrReordered, terminalRecords)
    }

    constructor ()
      ensures View() == ZERO_TALLY && !terminalSeen
    {
      firstSequence, lastSequence, sequenceGaps, duplicateOrReordered, terminalRecords := 0, 0, 0, 0, 0;
      terminalSeen := false;
    }

    method AccountSequences(records: array<Record>, count: nat)
      requires count <= records.Length
      modifies this
      ensures View() == AccountAll(old(View()), records[..count])
      ensures terminalSeen == (old(terminalSeen) || SeesTerminal(records[..count]))
    {
      var i := 0;
      while i < count
        invariant 0 <= i <= count
        invariant View() == AccountAll(old(View()), records[..i])
        invariant terminalSeen == (old(terminalSeen) || SeesTerminal(records[..i]))
      {
        AccountOne(records[i]);
        assert records[..i + 1][..i] == records[..i];
        i := i + 1;
      }
    }

    method AccountOne(record: Record)
      modifies this
      ensures View() == Account(old(View()), record)
      ensures terminalSeen <==> old(terminalSeen) || (record.sequence != 0 && HasFlag(record, TERMINATE))
    {
      var sequence := record.sequence;
      if sequence == 0 {
        return;
      }
      if firstSequence == 0 {
        firstSequence := sequence;
      }
      if lastSequence != 0 {
        if sequence == Wrap(lastSequence + 1) {
        } else if sequence > Wrap(lastSequence + 1) {
          sequenceGaps := Wrap(sequenceGaps + (sequence - lastSequence - 1));
        } else {
          duplicateOrReordered := Wrap(duplicateOrReordered + 1);
        }
      }
      if sequence > lastSequence {
        lastSequence := sequence;
      }
      if record.flags & TERMINATE != 0 {
        terminalRecords := Wrap(terminalRecords + 1);
        terminalSeen := true;
      }
    }
  }

  // ---------- batches ----------

  /** Splitting the stream into batches changes no counter. */
  lemma {:induction false} BatchesDoNotMatter(t: Tally, a: seq<Record>, b: seq<Record>)
    ensures AccountAll(t, a + b) == AccountAll(AccountAll(t, a), b)
    decreases |b|
  {
    if b == [] {
      assert a + b == a;
    } else {
      var n := |b| - 1;
      assert (a + b)[..|a + b| - 1] == a + b[..n];
      BatchesDoNotMatter(t, a, b[..n]);
    }
  }

  function Concat(batches: seq<seq<Record>>): seq<Record>
  {
    if batches == [] then [] else batches[0] + Concat(batches[1..])
  }

  function AccountBatches(t: Tally, batches: seq<seq<Record>>): Tally
    decreases |batches|
  {
    if batches == [] then t else AccountBatches(AccountAll(t, batches[0]), batches[1..])
  }

  lemma {:induction false} AnyBatching(t: Tally, batches: seq<seq<Record>>)
    ensures AccountBatches(t, batches) == AccountAll(t, Concat(batches))
    decreases |batches|
  {
    if batches != [] {
      AnyBatching(AccountAll(t, batches[0]), batches[1..]);
      BatchesDoNotMatter(t, batches[0], Concat(batches[1..]));
    }
  }

  // ---------- conservation, for every list of sequence numbers ----------

  function NumberedCount(records: seq<Record>): nat
  {
    if records == [] then 0
    else NumberedCount(records[..|records| - 1]) + if records[|records| - 1].sequence != 0 then 1 else 0
  }

  function Highest(records: seq<Record>): U64
  {
    if records == [] then 0
    else
      var h := Highest(records[..|records| - 1]);
      if records[|records| - 1].sequence > h then records[|records| - 1].sequence else h
  }

  function FirstNumbered(records: seq<Record>): U64
  {
    if records == [] then 0
    else
      var f := FirstNumbered(records[..|records| - 1]);
      if f == 0 then records[|records| - 1].sequence else f
  }

  /** How much is miscounted after number 2^64 - 1 has been seen: there last + 1 wraps to 0, so
      every later number is taken for a forward gap. */
  function Excess(records: seq<Record>): nat
  {
    if records == [] then 0
    else
      var front, r := records[..|records| - 1], records[|records| - 1];
      Excess(front) + if Highest(front) == MAX64 && r.sequence != 0 then r.sequence + 1 else 0
  }

  lemma {:induction false} FirstAndLast(records: seq<Record>)
    ensures var t := AccountAll(ZERO_TALLY, records);
      t.first == FirstNumbered(records) && t.last == Highest(records)
      && (t.first == 0 <==> t.last == 0) && (t.first == 0 <==> NumberedCount(records) == 0)
  {
    if records != [] {
      FirstAndLast(records[..|records| - 1]);
    }
  }

  lemma {:induction false} SpanHolds(records: seq<Record>)
    requires NumberedCount(records) > 0
    ensures Spanned(AccountAll(ZERO_TALLY, records), NumberedCount(records), Excess(records))
  {
    hide *;
    var n := |records| - 1;
    if n < 0 || NumberedCount(records[..n]) == 0 {
      FirstNumberCounted(records);
    } else {
      FirstAndLast(records[..n]);
      LastCounted(records);
      LastAccounted(ZERO_TALLY, records);
      SpanHolds(records[..n]);
      AccountKeepsSpan(AccountAll(ZERO_TALLY, records[..n]), records[n],
                       NumberedCount(records[..n]), Excess(records[..n]));
    }
  }

  lemma FirstNumberCounted(records: seq<Record>)
    requires NumberedCount(records) > 0
    ensures records != []
    ensures NumberedCount(records[..|records| - 1]) == 0 ==>
      Spanned(AccountAll(ZERO_TALLY, records), NumberedCount(records), Excess(records))
  {
    if NumberedCount(records[..|records| - 1]) == 0 {
      NothingCounted(records[..|records| - 1]);
    }
    hide Wrap;
  }

  /** For every list whatsoever: the span of numbers plus the duplicates is the number of
      numbered records plus the gaps, modulo 2^64, up to the excess. */
  lemma SpanIsAccounted(records: seq<Record>)
    requires NumberedCount(records) > 0
    ensures var t := AccountAll(ZERO_TALLY, records);
      Wrap(t.last - t.first + 1 + t.duplicates + Excess(records)) == Wrap(NumberedCount(records) + t.gaps)
  {
    SpanHolds(records);
    hide Wrap, AccountAll, NumberedCount, Excess;
  }

  lemma LastCounted(records: seq<Record>)
    requires records != []
    ensures var n := |records| - 1;
      var front, r := records[..n], records[n];
      && NumberedCount(records) == NumberedCount(front) + (if r.sequence != 0 then 1 else 0)
      && Excess(records) == Excess(front) + if Highest(front) == MAX64 && r.sequence != 0 then r.sequence + 1 else 0
  {
  }

  lemma {:induction false} NothingCounted(records: seq<Record>)
    requires NumberedCount(records) == 0
    ensures var t := AccountAll(ZERO_TALLY, records); t.gaps == 0 && t.duplicates == 0 && t.first == 0 && t.last == 0
    ensures Excess(records) == 0 && Highest(records) == 0
  {
    if records != [] { NothingCounted(records[..|records| - 1]); }
  }

  lemma ShiftBoth(a: int, b: int, d: int)
    requires Wrap(a) == Wrap(b)
    ensures Wrap(a + d) == Wrap(b + d)
  {
    WrapOfSum(a, d);
    WrapOfSum(b, d);
  }

  /** Span plus duplicates plus excess against numbered records plus gaps. */
  ghost predicate Spanned(t: Tally, count: nat, excess: nat)
  {
    Wrap(t.last - t.first + 1 + t.duplicates + excess) == Wrap(count + t.gaps)
  }

  lemma AccountKeepsSpan(t: Tally, r: Record, count: nat, excess: nat)
    requires t.first != 0 && t.last != 0 && Spanned(t, count, excess)
    ensures Spanned(Account(t, r), count + if r.sequence != 0 then 1 else 0,
                    excess + if t.last == MAX64 && r.sequence != 0 then r.sequence + 1 else 0)
  {
    if r.sequence != 0 {
      if t.last == MAX64 {
        NumberAfterLap(t, r, count, excess);
      } else if r.sequence > t.last {
        NumberAhead(t, r, count, excess);
      } else {
        NumberBehind(t, r, count, excess);
      }
    }
  }

  lemma NumberAfterLap(t: Tally, r: Record, count: nat, excess: nat)
    requires t.first != 0 && t.last == MAX64 && r.sequence != 0 && Spanned(t, count, excess)
    ensures Spanned(Account(t, r), count + 1, excess + r.sequence + 1)
  {
    WrapLap(0);
    WrapOfSmall(0);
    hide Wrap;
    var s: int, d: int := r.sequence, r.sequence - t.last - 1;
    var u := Account(t, r);
    assert u == t.(gaps := Wrap(t.gaps + d), terminals := u.terminals);
    hide Account;
    ShiftBoth(t.last - t.first + 1 + t.duplicates + excess, count + t.gaps, s + 1);
    WrapOfSum(t.gaps + d, count + 1);
    WrapLap(t.gaps + d + (count + 1));
  }

  lemma NumberAhead(t: Tally, r: Record, count: nat, excess: nat)
    requires t.first != 0 && t.last != 0 && t.last < r.sequence && Spanned(t, count, excess)
    ensures Spanned(Account(t, r), count + 1, excess)
  {
    WrapOfSmall(t.last + 1);
    WrapOfSmall(t.gaps);
    hide Wrap;
    var s: int, d: int := r.sequence, r.sequence - t.last - 1;
    var u := Account(t, r);
    assert u == t.(last := s, gaps := Wrap(t.gaps + d), terminals := u.terminals);
    hide Account;
    AheadArithmetic(t.last - t.first + 1 + t.duplicates + excess, count, t.gaps, s - t.last);
  }

  lemma AheadArithmetic(span: int, count: nat, gaps: nat, step: int)
    requires Wrap(span) == Wrap(count + gaps)
    ensures Wrap(span + step) == Wrap(count + 1 + Wrap(gaps + step - 1))
  {
    hide Wrap;
    ShiftBoth(span, count + gaps, step);
    WrapOfSum(gaps + step - 1, count + 1);
  }

  lemma NumberBehind(t: Tally, r: Record, count: nat, excess: nat)
    requires t.first != 0 && 0 < r.sequence <= t.last < MAX64 && Spanned(t, count, excess)
    ensures Spanned(Account(t, r), count + 1, excess)
  {
    WrapOfSmall(t.last + 1);
    hide Wrap;
    var u := Account(t, r);
    assert u == t.(duplicates := Wrap(t.duplicates + 1), terminals := u.terminals);
    hide Account;
    ShiftBoth(t.last - t.first + 1 + t.duplicates + excess, count + t.gaps, 1);
    WrapOfSum(t.duplicates + 1, t.last - t.first + 1 + excess);
  }

  lemma WrapLap(a: int)
    ensures Wrap(a + TWO64) == Wrap(a)
  {
  }

  /** The law a reader expects, with its exact condition: modulo 2^64 it holds if and only if the
      numbers that follow 2^64 - 1, each plus one, add up to a multiple of 2^64. */
  lemma ConservationExactly(records: seq<Record>)
    requires NumberedCount(records) > 0
    ensures var t := AccountAll(ZERO_TALLY, records);
      (Wrap(t.last - t.first + 1 + t.duplicates) == Wrap(NumberedCount(records) + t.gaps))
      <==> Wrap(Excess(records)) == 0
  {
    SpanIsAccounted(records);
    var t := AccountAll(ZERO_TALLY, records);
    OnlyWholeLaps(t.last - t.first + 1 + t.duplicates, Excess(records));
  }

  lemma OnlyWholeLaps(a: int, e: nat)
    ensures Wrap(a + e) == Wrap(a) <==> Wrap(e) == 0
  {
  }

  /** In particular it always holds while no number reaches 2^64 - 1. */
  lemma {:induction false} NoExcessBelowMax(records: seq<Record>)
    requires forall r :: r in records ==> r.sequence < MAX64
    ensures Excess(records) == 0 && Highest(records) < MAX64
  {
    if records != [] {
      NoExcessBelowMax(records[..|records| - 1]);
    }
  }

  /** And then it holds over the integers, with no counter ever wrapping, for any list of fewer than
      2^64 records: span plus duplicates is numbered records plus gaps. */
  lemma {:induction false} PlainConservation(records: seq<Record>)
    requires NumberedCount(records) > 0 && |records| < TWO64
    requires forall r :: r in records ==> r.sequence < MAX64
    ensures var t := AccountAll(ZERO_TALLY, records);
      && t.last - t.first + 1 + t.duplicates == NumberedCount(records) + t.gaps
      && 0 < t.first <= MAX64 && t.last < MAX64
      && t.gaps <= t.last && t.duplicates < NumberedCount(records) <= |records|
  {
    var n := |records| - 1;
    var front := records[..n];
    FirstAndLast(front);
    if NumberedCount(front) == 0 {
      NothingCounted(front);
    } else {
      PlainConservation(front);
    }
    NoExcessBelowMax(front);
    assert records[n] in records;
  }

  /** A list on which the law fails: number 1 after number 2^64 - 1. */
  lemma ConservationFailsAtTheTop(r: Record)
    ensures var records := [r.(sequence := MAX64), r.(sequence := 1)];
      var t := AccountAll(ZERO_TALLY, records);
      Wrap(t.last - t.first + 1 + t.duplicates) != Wrap(NumberedCount(records) + t.gaps)
  {
    var a, b := r.(sequence := MAX64), r.(sequence := 1);
    assert [a, b][..1] == [a] && [a][..0] == [];
    assert AccountAll(ZERO_TALLY, [a]) == Account(ZERO_TALLY, a);
    assert AccountAll(ZERO_TALLY, [a, b]) == Account(Account(ZERO_TALLY, a), b);
    assert NumberedCount([a]) == 1 && NumberedCount([a, b]) == 2;
  }

  // ---------- what counts as duplicated, and as terminal ----------

  /** The numbered records whose number some earlier record has already reached. */
  function Late(records: seq<Record>): set<nat>
  {
    set k | 0 <= k < |records| && records[k].sequence != 0 && Reached(records, k)
  }

  predicate Reached(records: seq<Record>, k: nat)
    requires k < |records|
  {
    exists j :: 0 <= j < k && records[k].sequence <= records[j].sequence
  }

  lemma {:induction false} HighestIsHighest(records: seq<Record>)
    ensures forall j :: 0 <= j < |records| ==> records[j].sequence <= Highest(records)
    ensures Highest(records) == 0 || exists j :: 0 <= j < |records| && records[j].sequence == Highest(records)
  {
    if records != [] {
      var n := |records| - 1;
      HighestIsHighest(records[..n]);
      if j :| 0 <= j < n && records[..n][j].sequence == Highest(records[..n]) {
        assert records[j].sequence == Highest(records[..n]);
      }
    }
  }

  lemma LateMore(records: seq<Record>)
    requires records != []
    ensures var n := |records| - 1;
      Late(records) == Late(records[..n])
        + (if records[n].sequence != 0 && records[n].sequence <= Highest(records[..n]) then {n} else {})
  {
    var n := |records| - 1;
    HighestIsHighest(records[..n]);
    forall k | 0 <= k < n ensures Reached(records, k) <==> Reached(records[..n], k) {
      if j :| 0 <= j < k && records[k].sequence <= records[j].sequence {
        assert records[..n][k].sequence <= records[..n][j].sequence;
      }
      if j :| 0 <= j < k && records[..n][k].sequence <= records[..n][j].sequence {
        assert records[k].sequence <= records[j].sequence;
      }
    }
    if j :| 0 <= j < n && records[n].sequence <= records[j].sequence {
      assert records[..n][j].sequence <= Highest(records[..n]);
    }
    if records[n].sequence != 0 && records[n].sequence <= Highest(records[..n]) {
      var j :| 0 <= j < n && records[..n][j].sequence == Highest(records[..n]);
      assert records[n].sequence <= records[j].sequence;
    }
  }

  lemma OneDuplicate(t: Tally, r: Record)
    requires t.last < MAX64 && t.duplicates + 1 < TWO64
    ensures Account(t, r).duplicates == t.duplicates + if r.sequence != 0 && r.sequence <= t.last then 1 else 0
  {
  }

  /** Below 2^64 - 1, a record counts as duplicated or reordered exactly when its number has been reached
      before. With the conservation law this fixes the gaps too. */
  lemma {:induction false} DuplicatesAreLate(records: seq<Record>)
    requires |records| < TWO64 && forall r :: r in records ==> r.sequence < MAX64
    ensures AccountAll(ZERO_TALLY, records).duplicates == |Late(records)| <= |records|
  {
    if records == [] {
      assert Late(records) == {};
    } else {
      var n := |records| - 1;
      var front := records[..n];
      assert n !in Late(front);
      assert forall r :: r in front ==> r in records;
      hide Late, Highest, AccountAll, Account;
      DuplicatesAreLate(front);
      FirstAndLast(front);
      NoExcessBelowMax(front);
      LateMore(records);
      LastAccounted(ZERO_TALLY, records);
      OneDuplicate(AccountAll(ZERO_TALLY, front), records[n]);
    }
  }

  lemma LastAccounted(t: Tally, records: seq<Record>)
    requires records != []
    ensures AccountAll(t, records) == Account(AccountAll(t, records[..|records| - 1]), records[|records| - 1])
  {
  }

  /** The terminal count is the number of numbered records with the terminate flag, modulo 2^64. */
  lemma {:induction false} TerminalsAreFlagged(records: seq<Record>)
    ensures AccountAll(ZERO_TALLY, records).terminals == Wrap(FlagCount(WithNumber(records), 128))
  {
    if records == [] {
      WrapOfSmall(0);
    } else {
      var n := |records| - 1;
      var front := records[..n];
      hide Wrap, FlagCount, AccountAll;
      TerminalsAreFlagged(front);
      LastAccounted(ZERO_TALLY, records);
      FlagCountMore(WithNumber(front), records[n], 128);
      WrapOfSum(FlagCount(WithNumber(front), 128), 1);
      assert WithNumber(front) + [] == WithNumber(front);
    }
  }

  lemma {:induction false} SeenIsFlagged(records: seq<Record>)
    ensures SeesTerminal(records) <==> FlagCount(WithNumber(records), 128) > 0
  {
    if records != [] {
      var n := |records| - 1;
      var front := records[..n];
      SeenIsFlagged(front);
      FlagCountMore(WithNumber(front), records[n], 128);
      assert WithNumber(front) + [] == WithNumber(front);
      if k :| 0 <= k < n && front[k].sequence != 0 && HasFlag(front[k], TERMINATE) {
        assert HasFlag(records[k], TERMINATE);
      }
      if k :| 0 <= k < |records| && records[k].sequence != 0 && HasFlag(records[k], TERMINATE) && k < n {
        assert HasFlag(front[k], TERMINATE);
      }
      hide FlagCount;
    }
  }

  function WithNumber(records: seq<Record>): seq<Record>
  {
    if records == [] then []
    else
      var r := records[|records| - 1];
      WithNumber(records[..|records| - 1]) + if r.sequence != 0 then [r] else []
  }

  // ---------- in-order streams ----------

  /** Records numbered in strictly increasing order with the given losses before each. */
  ghost predicate InOrder(records: seq<Record>, base: nat, lossBefore: seq<nat>)
  {
    && |lossBefore| == |records|
    && (forall i, j :: 0 <= i <= j < |lossBefore| ==> lossBefore[i] <= lossBefore[j])
    && (forall i :: 0 <= i < |records| ==> records[i].sequence == 1 + base + i + lossBefore[i])
  }

  /** On such a stream nothing is counted as reordered, and the gaps are exactly the losses
      strictly between the first and the last record. */
  lemma {:induction false} GapsAreLosses(records: seq<Record>, base: nat, lossBefore: seq<nat>)
    requires InOrder(records, base, lossBefore) && records != []
    ensures var t := AccountAll(ZERO_TALLY, records);
      && t.first == records[0].sequence && t.last == records[|records| - 1].sequence
      && t.duplicates == 0
      && t.gaps == lossBefore[|records| - 1] - lossBefore[0]
  {
    var n := |records| - 1;
    if n == 0 {
      assert records[..0] == [];
    } else {
      assert records[..n][0] == records[0] && lossBefore[..n][0] == lossBefore[0];
      GapsAreLosses(records[..n], base, lossBefore[..n]);
      assert lossBefore[n - 1] <= lossBefore[n];
    }
  }
}
