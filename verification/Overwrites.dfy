/** The slot of the latest committed record: hfior_cursor_latest_committed reads it without pinning it. As
    long as the record is unacknowledged nothing can touch it; once everything is acknowledged, producer
    and bridge can always overwrite it before the copy. */
module Overwrites {
  import opened Words
  import opened Records
  import opened Protocol
  import opened Reclamation
  import opened Consumer
  import opened Runs
  import opened Reconnects

  /** The tests on the two words loaded at s pass. At t, with the producer at rest, the slot before that
      head holds a record published later, with a number, so that the last test passes as well. */
  ghost predicate ShowsLater(s: Shared, t: Shared)
  {
    && s.head != 0 && s.tail <= s.head && s.head - s.tail <= s.capacity
    && Shaped(t) && t.producer.Ready? && 0 < |s.history| && s.history <= t.history
    && At(t, |s.history| - 1) in t.history[|s.history|..]
    && At(t, |s.history| - 1).sequence != 0 && At(t, |s.history| - 1) != s.history[|s.history| - 1]
  }

  predicate AllInternal(steps: seq<Step>)
  {
    forall step :: step in steps ==> Internal(step)
  }

  // ---------- everything acknowledged: it can be overwritten ----------

  lemma {:induction false} InternalRun(s: Shared, steps: seq<Step>)
    requires Invariant(s) && AllInternal(steps)
    ensures var t := DoAll(s, steps); Invariant(t) && t.acked == s.acked && s.history <= t.history
    decreases |steps|
  {
    if steps != [] {
      assert steps[0] in steps && forall step :: step in steps[1..] ==> step in steps;
      InternalStepRely(s, steps[0]);
      assert Shaped(s);
      hide Do, Invariant;
      InternalRun(Do(s, steps[0]), steps[1..]);
    }
  }

  predicate OfBridge(step: Step)
  {
    step.Receive? || step.Validate?
  }

  lemma {:induction false} BridgeRun(s: Shared, steps: seq<Step>)
    requires Shaped(s) && forall step :: step in steps ==> OfBridge(step)
    ensures var t := DoAll(s, steps);
      t.history == s.history && t.producer == s.producer && t.losses == s.losses && t.capacity == s.capacity
    decreases |steps|
  {
    if steps != [] {
      assert steps[0] in steps && forall step :: step in steps[1..] ==> step in steps;
      BridgeStep(s, steps[0]);
      hide Do;
      BridgeRun(Do(s, steps[0]), steps[1..]);
    }
  }

  lemma BridgeStep(s: Shared, step: Step)
    requires Shaped(s) && OfBridge(step)
    ensures var t := Do(s, step);
      t.history == s.history && t.producer == s.producer && t.losses == s.losses && t.capacity == s.capacity
  {
    hide Wrap, And, SlotOf, Acceptable;
  }

  lemma {:induction false} DeliverIsOfBridge(n: nat)
    ensures forall step :: step in Deliver(n) ==> OfBridge(step)
  {
    if n > 0 { DeliverIsOfBridge(n - 1); }
  }

  /** Whatever the bridge is in the middle of, it can work off everything in flight. */
  lemma WorksOff(s: Shared) returns (steps: seq<Step>)
    requires Invariant(s) && CurrentGeneration(s) && Settled(s) && |s.history| < TWO64
    ensures (forall step :: step in steps ==> OfBridge(step)) && DoAll(s, steps).reclaimed == s.acked
  {
    assert Shaped(s);
    var t := s;
    steps := [];
    if s.bridge.Validating? {
      t := Do(s, Validate);
      steps := [Validate];
      InternalStepRely(s, Validate);
      StepKeepsGeneration(s, Validate);
      StepKeepsSettled(s, Validate);
      ValidateTouches(s);
      DoFirst(s, [Validate]);
    }
    hide Do, Invariant, Settled, CurrentGeneration, DoAll;
    ReclamationCatchesUp(t);
    DeliverIsOfBridge(|t.channel|);
    assert DoAll(s, []) == s by { NoSteps(s); }
    DoConcat(s, steps, Deliver(|t.channel|));
    steps := steps + Deliver(|t.channel|);
  }

  lemma NoSteps(s: Shared)
    requires Shaped(s)
    ensures DoAll(s, []) == s
  {
  }

  /** The producer can fill whatever room there is, finishing first what it is in the middle of. */
  lemma FillsUp(s: Shared, payload: Record) returns (steps: seq<Step>)
    requires RingInvariant(s) && s.reclaimed == |s.history|
    ensures forall step :: step in steps ==> OfProducer(step)
    ensures var t := DoAll(s, steps);
      && RingInvariant(t) && t.producer.Ready? && t.capacity == s.capacity
      && s.history <= t.history && |t.history| == |s.history| + s.capacity
      && |t.history| + t.losses <= |s.history| + s.losses + s.capacity + 1
      && (s.producer.Ready? ==>
            forall k :: |s.history| <= k < |t.history| ==> t.history[k].timestamp == payload.timestamp)
  {
    assert Shaped(s) && s.capacity >= 1;
    Finishes(s, payload);
    RunKeepsRing(s, Finish(payload));
    hide RingInvariant, DoAll, Wrap;
    var u := DoAll(s, Finish(payload));
    var n := s.reclaimed + s.capacity - |u.history|;
    Publishes(u, n, payload);
    DoConcat(s, Finish(payload), Publish(n, payload));
    steps := Finish(payload) + Publish(n, payload);
  }

  /** A whole capacity past the position, its slot shows a later record, with a number of its own. */
  lemma Overwritten(s: Shared, t: Shared)
    requires RingInvariant(s) && RingInvariant(t) && t.producer.Ready? && t.capacity == s.capacity
    requires 0 < |s.history| && s.history <= t.history && |t.history| == |s.history| + s.capacity
    requires |t.history| + t.losses < TWO64
    ensures ShowsLater(s, t)
  {
    var p := |s.history| - 1;
    CapacityBelowWord(t.capacity);
    var shown := ShownAt(t, p);
    assert t.history[shown] == t.history[|s.history|..][shown - |s.history|];
    NumbersSpread(t);
    NumberedBelowWrap(t, shown);
    WordsShow(s);
    assert s.history[p] == t.history[p];
    hide Wrap, And, SlotOf, RingInvariant;
  }

  lemma NumberedBelowWrap(t: Shared, k: nat)
    requires RingInvariant(t) && k < |t.history| && |t.history| + t.losses < TWO64
    ensures t.history[k].sequence == 1 + k + t.lossBefore[k] != 0
  {
    assert t.lossBefore[k] <= t.losses;
    WrapOfSmall(1 + k + t.lossBefore[k]);
    hide Wrap, And, SlotOf;
  }

  lemma WordsShow(s: Shared)
    requires RingInvariant(s) && 0 < |s.history| < TWO64
    ensures s.head != 0 && s.tail <= s.head && s.head - s.tail <= s.capacity
  {
    WrapOfSmall(|s.history|);
    WrapOfSmall(s.reclaimed);
    hide Wrap, And, SlotOf;
  }

  /** From any state with everything acknowledged, some continuation of the bridge and the producer
      overwrites the slot of the latest record. */
  lemma CanBeOverwritten(s: Shared, payload: Record) returns (steps: seq<Step>)
    requires Invariant(s) && CurrentGeneration(s) && Settled(s)
    requires 0 < |s.history| == s.acked && |s.history| + s.losses + s.capacity + 1 < TWO64
    ensures AllInternal(steps) && ShowsLater(s, DoAll(s, steps))
    ensures |DoAll(s, steps).history| + DoAll(s, steps).losses < TWO64
    ensures s.producer.Ready? ==> var t := DoAll(s, steps);
      forall k :: |s.history| <= k < |t.history| ==> t.history[k].timestamp == payload.timestamp
  {
    assert RingInvariant(s) && Shaped(s);
    hide Invariant, RingInvariant, Settled, CurrentGeneration, DoAll, ShowsLater, Shaped;
    var first := WorksOff(s);
    var u := DoAll(s, first);
    BridgeRun(s, first);
    RunKeepsRing(s, first);
    var second := FillsUp(u, payload);
    DoConcat(s, first, second);
    steps := first + second;
    Overwritten(s, DoAll(u, second));
  }

  // ---------- something unacknowledged: it cannot ----------

  ghost predicate CanShowLater(s: Shared)
    requires Shaped(s)
  {
    exists steps: seq<Step> :: AllInternal(steps) && ShowsLater(s, DoAll(s, steps))
  }

  /** The exact condition, on two words the consumer holds, before 2^64: with its ACKs settled and of
      the current generation, the slot of the latest record can be overwritten under its hands if and
      only if it has acknowledged everything. */
  lemma OverwritableExactly(s: Shared)
    requires Invariant(s) && CurrentGeneration(s) && Settled(s)
    requires 0 < |s.history| && |s.history| + s.losses + s.capacity + 1 < TWO64
    ensures CanShowLater(s) <==> s.head == Wrap(s.acked)
  {
    HeadAcked(s);
    assert Shaped(s);
    if s.acked == |s.history| {
      hide Invariant, ShowsLater, DoAll;
      var steps := CanBeOverwritten(s, s.history[0]);
    } else {
      hide DoAll, CurrentGeneration, Settled;
      forall steps: seq<Step> | AllInternal(steps) ensures !ShowsLater(s, DoAll(s, steps)) {
        InternalRun(s, steps);
        StaysPut(s, DoAll(s, steps));
      }
    }
  }

  lemma HeadAcked(s: Shared)
    requires Invariant(s) && |s.history| < TWO64
    ensures s.acked <= |s.history| && (s.head == Wrap(s.acked) <==> s.acked == |s.history|)
  {
    WrapOfSmall(|s.history|);
    WrapOfSmall(s.acked);
    hide Wrap, And, SlotOf, InFlight;
  }

  lemma StaysPut(s: Shared, t: Shared)
    requires Invariant(t) && s.history <= t.history && t.acked < |s.history|
    ensures !ShowsLater(s, t)
  {
    PinnedSlot(t, |s.history| - 1);
    hide Invariant, At;
  }

  // ---------- from the initial mapping ----------

  /** For every capacity a run from the initial mapping after which the latest record can be overwritten,
      by a record with any timestamp. And a copy that took its first word before and the rest after is a
      mixture: it passes the last test and is no record ever published. */
  lemma OverwriteIsReachable(capacity: nat, slots: seq<Record>, generation: nat, earlier: Record, later: Record)
    returns (before: seq<Move>, during: seq<Step>)
    requires ValidCapacity(capacity) && |slots| == capacity && earlier.timestamp != later.timestamp
    ensures var s := ActAll(Start(Initial(capacity, slots, generation)), before).sh;
      && Shaped(s) && AllInternal(during) && ShowsLater(s, DoAll(s, during))
      && IsMixture(Mixed(At(s, |s.history| - 1), At(DoAll(s, during), |s.history| - 1)), DoAll(s, during).history)
  {
    CapacityBound(capacity);
    before := OnlyAcksMissingIsReachable(capacity, slots, generation, earlier);
    var s := ActAll(Start(Initial(capacity, slots, generation)), before).sh;
    assert Invariant(s) && RingInvariant(s);
    hide Invariant, RingInvariant, Settled, CurrentGeneration, ActAll, DoAll, ShowsLater, ValidCapacity;
    during := CanBeOverwritten(s, later);
    var t := DoAll(s, during);
    RunKeepsRing(s, during);
    Mixes(s, t, earlier.timestamp, later.timestamp);
  }

  lemma Mixes(s: Shared, t: Shared, earlier: U64, later: U64)
    requires RingInvariant(s) && RingInvariant(t) && s.producer.Ready? && ShowsLater(s, t)
    requires earlier != later && |t.history| + t.losses < TWO64
    requires forall k :: 0 <= k < |s.history| ==> s.history[k].timestamp == earlier
    requires forall k :: |s.history| <= k < |t.history| ==> t.history[k].timestamp == later
    ensures IsMixture(Mixed(At(s, |s.history| - 1), At(t, |s.history| - 1)), t.history)
  {
    var p := |s.history| - 1;
    CapacityBelowWord(s.capacity);
    var shown := ShownAt(s, p);
    NumbersSpread(t);
    NumberedBelowWrap(t, p);
    hide Wrap, And, SlotOf, At, RingInvariant;
    var m := Mixed(At(s, p), At(t, p));
    assert t.history[p] == s.history[p];
    assert m.timestamp == later;
    forall k | 0 <= k < |t.history| ensures t.history[k] != m {
      if k < |s.history| {
        assert t.history[k] == s.history[k];
      } else {
        assert t.history[p].sequence < t.history[k].sequence;
      }
    }
  }

  lemma CapacityBound(capacity: nat)
    requires ValidCapacity(capacity)
    ensures 0 < capacity && 2 * capacity + 1 < TWO64
  {
  }

  /** The first eight bytes of one record, the rest of another. */
  function Mixed(a: Record, b: Record): Record
  {
    b.(sequence := a.sequence)
  }

  ghost predicate IsMixture(r: Record, history: seq<Record>)
  {
    r.sequence != 0 && r !in history
  }
}
