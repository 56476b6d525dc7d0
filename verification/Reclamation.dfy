/** Reclamation by validated acknowledgements: what any ACK stream leaves intact, and what a
    protocol-following consumer can rely on while the producer and the bridge run freely. */
module Reclamation {
  import opened Words
  import opened Protocol

  // ---------- arbitrary ACK streams ----------

  /** Over any run, with any messages injected: the invariant holds, the tail only moves forward
      and never past what was published, and published history is only ever extended. */
  lemma {:induction false} AnyAckStreamIsSafe(s: Shared, steps: seq<Step>)
    requires RingInvariant(s)
    ensures var t := DoAll(s, steps);
      && RingInvariant(t) && t.capacity == s.capacity
      && s.reclaimed <= t.reclaimed <= |t.history| <= t.reclaimed + t.capacity
      && s.history <= t.history && s.lossBefore <= t.lossBefore && s.losses <= t.losses
      && t.recordsConsumed == t.tail == Wrap(t.reclaimed)
    decreases |steps|
  {
    if steps != [] {
      StepKeepsRing(s, steps[0]);
      AnyAckStreamIsSafe(Do(s, steps[0]), steps[1..]);
      StepIsForward(s, steps[0]);
    }
  }

  lemma StepIsForward(s: Shared, step: Step)
    requires RingInvariant(s)
    ensures var t := Do(s, step);
      && t.capacity == s.capacity && s.reclaimed <= t.reclaimed
      && s.history <= t.history && s.lossBefore <= t.lossBefore && s.losses <= t.losses
      && Begun(s) <= Begun(t)
  {
    hide Wrap, Sub64, And, SlotOf;
  }

  /** No ACK for more than this tail word is accepted in the course of these steps. */
  ghost predicate NoAckPast(s: Shared, steps: seq<Step>, word: U64)
    requires Shaped(s)
    decreases |steps|
  {
    steps == [] || (!AcceptsPast(s, steps[0], word) && NoAckPast(Do(s, steps[0]), steps[1..], word))
  }

  predicate AcceptsPast(s: Shared, step: Step, word: U64)
  {
    && step.Validate? && s.bridge.Validating?
    && Acceptable(s, s.bridge.ack, s.bridge.head) && s.bridge.ack.consumedTail > word
  }

  /** The tail word ends above a bound it began below exactly when an ACK past the bound is accepted. */
  lemma {:induction false} TailPastExactly(s: Shared, steps: seq<Step>, word: U64)
    requires RingInvariant(s) && s.tail <= word && |DoAll(s, steps).history| < TWO64
    ensures DoAll(s, steps).tail <= word <==> NoAckPast(s, steps, word)
    decreases |steps|
  {
    if steps != [] {
      var t := Do(s, steps[0]);
      StepKeepsRing(s, steps[0]);
      AnyAckStreamIsSafe(t, steps[1..]);
      TailAfterStep(s, steps[0], word);
      if t.tail <= word {
        hide Do, RingInvariant;
        TailPastExactly(t, steps[1..], word);
      } else {
        TailsInOrder(t, DoAll(t, steps[1..]));
      }
    }
  }

  lemma TailAfterStep(s: Shared, step: Step, word: U64)
    requires Shaped(s) && s.tail <= word
    ensures Do(s, step).tail > word <==> AcceptsPast(s, step, word)
  {
    hide Wrap, And, SlotOf, LooksFull, Acceptable;
  }

  lemma TailsInOrder(s: Shared, t: Shared)
    requires RingInvariant(s) && RingInvariant(t) && s.reclaimed <= t.reclaimed && |t.history| < TWO64
    ensures s.tail <= t.tail
  {
    hide And, SlotOf, Windowed, Numbered;
  }

  /** hfior_ring_depth computes the depth from a head loaded now and a tail loaded after any further
      steps. It is a true depth, within the capacity, if and only if no ACK past the loaded head is
      accepted between the two loads; otherwise the subtraction wraps to more than a capacity. */
  lemma DepthExactly(s: Shared, steps: seq<Step>)
    requires RingInvariant(s) && |DoAll(s, steps).history| + s.capacity < TWO64
    ensures var t := DoAll(s, steps);
      && (Sub64(s.head, t.tail) <= s.capacity <==> NoAckPast(s, steps, s.head))
      && (NoAckPast(s, steps, s.head) ==> Sub64(s.head, t.tail) == |s.history| - t.reclaimed)
  {
    AnyAckStreamIsSafe(s, steps);
    var t := DoAll(s, steps);
    HeadAboveTail(s);
    TailPastExactly(s, steps, s.head);
    hide Wrap, Sub64, DoAll, And, SlotOf, Windowed, Numbered;
    DepthOfPositions(s.capacity, |s.history|, t.reclaimed);
  }

  lemma HeadAboveTail(s: Shared)
    requires RingInvariant(s) && |s.history| < TWO64
    ensures s.tail <= s.head
  {
    hide And, SlotOf, Windowed, Numbered;
  }

  lemma DepthOfPositions(capacity: nat, head: nat, tail: nat)
    requires head <= tail + capacity && head + capacity < TWO64 && tail + capacity < TWO64
    ensures Sub64(Wrap(head), Wrap(tail)) <= capacity <==> Wrap(tail) <= Wrap(head)
    ensures Wrap(tail) <= Wrap(head) ==> Sub64(Wrap(head), Wrap(tail)) == head - tail
  {
  }

  /** A rejected ACK moves nothing but the rejection count. */
  lemma RejectedAckChangesNothing(s: Shared)
    requires Shaped(s) && s.bridge.Validating? && !Acceptable(s, s.bridge.ack, s.bridge.head)
    ensures Do(s, Validate).(bridge := s.bridge, invalidAcknowledgements := s.invalidAcknowledgements) == s
    ensures Do(s, Validate).invalidAcknowledgements == s.invalidAcknowledgements + 1
  {
  }

  // ---------- the chain of lagging positions ----------

  /** ACKs sent and not yet acted on, oldest first. */
  function InFlight(s: Shared): seq<Ack>
  {
    (if s.bridge.Validating? then [s.bridge.ack] else []) + s.channel
  }

  /** reclaimed <= every in-flight ACK, oldest first, <= acked <= published. */
  ghost predicate Chained(s: Shared)
  {
    var f := InFlight(s);
    && s.reclaimed <= s.acked <= |s.history|
    && (forall i :: 0 <= i < |f| ==>
          f[i].consumedTail == Wrap(f[i].position) && s.reclaimed <= f[i].position <= s.acked)
    && (forall i, j :: 0 <= i <= j < |f| ==> f[i].position <= f[j].position)
    && (s.bridge.Validating? ==> s.bridge.ack.position <= s.bridge.published)
  }

  function Injected(steps: seq<Step>): nat
  {
    if steps == [] then 0 else (if steps[0].Inject? then 1 else 0) + Injected(steps[1..])
  }

  /** Over any run every message is answered once: accepted, rejected, or still on its way. And only
      acceptance reclaims: while the count of accepted ACKs stands still, so does the tail. */
  lemma {:induction false} EveryAckIsAnswered(s: Shared, steps: seq<Step>)
    requires Shaped(s)
    ensures var t := DoAll(s, steps);
      && t.acknowledgements + t.invalidAcknowledgements + |InFlight(t)|
         == s.acknowledgements + s.invalidAcknowledgements + |InFlight(s)| + Injected(steps)
      && s.acknowledgements <= t.acknowledgements && s.invalidAcknowledgements <= t.invalidAcknowledgements
      && (t.acknowledgements == s.acknowledgements ==>
            t.tail == s.tail && t.reclaimed == s.reclaimed && t.recordsConsumed == s.recordsConsumed)
    decreases |steps|
  {
    if steps != [] {
      OneAnswer(s, steps[0]);
      EveryAckIsAnswered(Do(s, steps[0]), steps[1..]);
      hide Do, InFlight;
    }
  }

  lemma OneAnswer(s: Shared, step: Step)
    requires Shaped(s)
    ensures var t := Do(s, step);
      && t.acknowledgements + t.invalidAcknowledgements + |InFlight(t)|
         == s.acknowledgements + s.invalidAcknowledgements + |InFlight(s)| + Injected([step])
      && s.acknowledgements <= t.acknowledgements && s.invalidAcknowledgements <= t.invalidAcknowledgements
      && (t.acknowledgements == s.acknowledgements ==>
            t.tail == s.tail && t.reclaimed == s.reclaimed && t.recordsConsumed == s.recordsConsumed)
  {
    hide Wrap, And, SlotOf, LooksFull, Acceptable;
    assert [step][1..] == [];
    assert Injected([]) == 0;
  }

  /** Steps of the producer and the bridge alone. */
  predicate Internal(step: Step)
  {
    !step.Inject?
  }

  /** Without wrap trouble an ACK moves the tail to exactly the position it names; an ACK from a
      protocol-following consumer is accepted if and only if its generation is current and no
      multiple of 2^64 lies between the tail and the head the bridge loaded. */
  lemma AckAcceptedExactly(s: Shared)
    requires Bounded(s) && Chained(s) && s.bridge.Validating?
    ensures Acceptable(s, s.bridge.ack, s.bridge.head) <==>
            s.bridge.ack.generation == s.generation && Epoch(s.reclaimed) == Epoch(s.bridge.published)
    ensures Acceptable(s, s.bridge.ack, s.bridge.head) ==>
            Do(s, Validate).reclaimed == s.bridge.ack.position
  {
    var p := s.bridge.ack.position;
    assert InFlight(s)[0] == s.bridge.ack;
    CapacityBelowWord(s.capacity);
    WordOrder(s.reclaimed, p);
    WordOrder(p, s.bridge.published);
    LastTestIsImplied(s);
  }

  lemma StepKeepsChained(s: Shared, step: Step)
    requires Bounded(s) && Chained(s) && Internal(step)
    ensures Chained(Do(s, step))
  {
    if step.Validate? {
      ValidateKeepsChained(s);
    } else {
      FlightUnchanged(s, step);
      if step.Receive? && s.bridge.Listening? && s.channel != [] {
        assert InFlight(s)[0] == s.channel[0];
      }
      hide Wrap, Sub64, And, SlotOf, InFlight, LooksFull, Acceptable;
    }
  }

  lemma FlightUnchanged(s: Shared, step: Step)
    requires Shaped(s) && Internal(step) && !step.Validate?
    ensures InFlight(Do(s, step)) == InFlight(s)
  {
    hide Wrap, Sub64, And, SlotOf, LooksFull, Acceptable;
  }

  lemma ValidateKeepsChained(s: Shared)
    requires Bounded(s) && Chained(s)
    ensures Chained(Do(s, Validate))
  {
    var t := Do(s, Validate);
    if s.bridge.Validating? {
      assert InFlight(t) == InFlight(s)[1..];
      assert InFlight(s)[0] == s.bridge.ack;
      AckAcceptedExactly(s);
      hide Wrap, Sub64, And, SlotOf, InFlight, Acceptable;
    }
  }

  // ---------- what the environment may do between two accesses of the consumer ----------

  ghost predicate Invariant(s: Shared)
  {
    RingInvariant(s) && Chained(s)
  }

  /** The change any number of producer and bridge steps can make, seen from the consumer. */
  ghost predicate Rely(s: Shared, t: Shared)
  {
    && t.capacity == s.capacity && t.acked == s.acked
    && s.history <= t.history && s.lossBefore <= t.lossBefore && s.losses <= t.losses
    && s.reclaimed <= t.reclaimed && Begun(s) <= Begun(t)
  }

  lemma InternalStepRely(s: Shared, step: Step)
    requires Invariant(s) && Internal(step)
    ensures Invariant(Do(s, step)) && Rely(s, Do(s, step))
  {
    StepKeepsRing(s, step);
    StepKeepsChained(s, step);
    StepIsForward(s, step);
    hide Wrap, Sub64, And, SlotOf;
  }

  /** No write, not even a half-finished one, touches a slot at or above the acknowledged tail:
      every such position below the head holds its history record before and after the step. */
  lemma StepNeverOverwrites(s: Shared, step: Step, position: nat)
    requires Invariant(s) && Internal(step)
    requires s.acked <= position < |s.history|
    ensures At(s, position) == s.history[position] == At(Do(s, step), position)
  {
    InternalStepRely(s, step);
  }

  /** The slot under the producer's pen is not that of any unreclaimed published position. */
  lemma PenIsElsewhere(s: Shared, position: nat)
    requires RingInvariant(s) && (s.producer.Writing? || s.producer.Written?)
    requires s.reclaimed <= position < |s.history|
    ensures SlotOf(s.capacity, s.head) != SlotOf(s.capacity, Wrap(position))
  {
    SlotsDistinct(s.capacity, position, |s.history|);
  }

  /** The consumer's only effect on the others: an ACK for a position it has read. */
  function SendAck(s: Shared, generation: nat, word: U64, position: nat): Shared
  {
    s.(channel := s.channel + [Ack(generation, word, position)], acked := position)
  }

  lemma SendKeepsInvariant(s: Shared, generation: nat, position: nat)
    requires Invariant(s) && s.acked <= position <= |s.history|
    ensures Invariant(SendAck(s, generation, Wrap(position), position))
  {
    var t := SendAck(s, generation, Wrap(position), position);
    assert InFlight(t) == InFlight(s) + [Ack(generation, Wrap(position), position)];
  }

  // ---------- runs without a reconnect ----------

  ghost predicate CurrentGeneration(s: Shared)
  {
    forall a :: a in InFlight(s) ==> a.generation == s.generation
  }

  /** Without a reconnect and before the head passes 2^64, validating an in-flight ACK always
      succeeds and leaves the tail at exactly the position delivered. */
  lemma EveryAckAccepted(s: Shared)
    requires Invariant(s) && CurrentGeneration(s) && s.bridge.Validating? && |s.history| < TWO64
    ensures var t := Do(s, Validate);
      && t.reclaimed == s.bridge.ack.position && t.tail == s.bridge.ack.consumedTail
      && t.acknowledgements == s.acknowledgements + 1
      && t.invalidAcknowledgements == s.invalidAcknowledgements
  {
    assert InFlight(s)[0] == s.bridge.ack;
    AckAcceptedExactly(s);
  }

  lemma StepKeepsGeneration(s: Shared, step: Step)
    requires Shaped(s) && CurrentGeneration(s) && Internal(step) && !step.Reconnect?
    ensures CurrentGeneration(Do(s, step))
  {
    if step.Validate? {
      if s.bridge.Validating? { assert InFlight(Do(s, Validate)) == InFlight(s)[1..]; }
    } else {
      FlightUnchanged(s, step);
      hide Wrap, Sub64, And, SlotOf, InFlight, LooksFull, Acceptable;
    }
  }

  /** The newest ACK in flight, if any, names the acknowledged tail; otherwise the shared tail is
      already there. True from the start for a consumer that begins at the shared tail; for one
      that begins at the head, from the first ACK it sends. */
  ghost predicate Settled(s: Shared)
  {
    var f := InFlight(s);
    if f == [] then s.reclaimed == s.acked else f[|f| - 1].position == s.acked
  }

  lemma SendSettles(s: Shared, generation: nat, word: U64, position: nat)
    ensures Settled(SendAck(s, generation, word, position))
  {
    var t := SendAck(s, generation, word, position);
    assert InFlight(t) == InFlight(s) + [Ack(generation, word, position)];
  }

  lemma StepKeepsSettled(s: Shared, step: Step)
    requires Invariant(s) && CurrentGeneration(s) && |s.history| < TWO64
    requires Settled(s) && Internal(step)
    ensures Settled(Do(s, step))
  {
    if step.Validate? {
      if s.bridge.Validating? {
        EveryAckAccepted(s);
        assert InFlight(Do(s, Validate)) == InFlight(s)[1..];
        assert InFlight(s)[0] == s.bridge.ack;
      }
    } else {
      FlightUnchanged(s, step);
      hide Wrap, Sub64, And, SlotOf, InFlight, LooksFull, Acceptable;
    }
  }

  /** Delivering everything in the channel: the bridge alone, one message after another. */
  function Deliver(count: nat): seq<Step>
  {
    if count == 0 then [] else [Receive, Validate] + Deliver(count - 1)
  }

  /** When the producer and the consumer pause, the bridge catches up: every ACK in the channel is
      accepted and the shared tail reaches the acknowledged tail. */
  lemma {:induction false} ReclamationCatchesUp(s: Shared)
    requires Invariant(s) && CurrentGeneration(s) && Settled(s) && |s.history| < TWO64
    requires s.bridge.Listening?
    ensures var t := DoAll(s, Deliver(|s.channel|));
      && t.channel == [] && t.reclaimed == s.acked && t.tail == Wrap(s.acked)
      && t.acknowledgements == s.acknowledgements + |s.channel|
      && t.invalidAcknowledgements == s.invalidAcknowledgements
      && t.history == s.history
    decreases |s.channel|
  {
    if s.channel == [] {
      hide Wrap, Invariant, CurrentGeneration;
      NothingToDeliver(s);
    } else {
      hide *;
      var v := DeliversFirst(s);
      ReclamationCatchesUp(v);
    }
  }

  lemma NothingToDeliver(s: Shared)
    requires Invariant(s) && Settled(s) && s.bridge.Listening? && s.channel == []
    ensures s.reclaimed == s.acked && s.tail == Wrap(s.acked)
    ensures Shaped(s) && DoAll(s, Deliver(0)) == s
  {
    hide Wrap, And, SlotOf;
  }

  /** Receiving and accepting the first ACK in the channel. */
  lemma DeliversFirst(s: Shared) returns (v: Shared)
    requires Invariant(s) && CurrentGeneration(s) && Settled(s) && |s.history| < TWO64
    requires s.bridge.Listening? && s.channel != []
    ensures Shaped(s) && Shaped(v) && DoAll(s, Deliver(|s.channel|)) == DoAll(v, Deliver(|v.channel|))
    ensures Invariant(v) && CurrentGeneration(v) && Settled(v) && v.bridge.Listening?
    ensures |v.channel| == |s.channel| - 1 && v.acked == s.acked && v.history == s.history
    ensures v.acknowledgements == s.acknowledgements + 1 && v.invalidAcknowledgements == s.invalidAcknowledgements
  {
    assert Shaped(s);
    var u := Do(s, Receive);
    v := Do(u, Validate);
    ReceiveTouches(s);
    hide Wrap, And, SlotOf, Invariant, InFlight, Settled, CurrentGeneration, Acceptable, Do;
    InternalStepRely(s, Receive);
    StepKeepsGeneration(s, Receive);
    StepKeepsSettled(s, Receive);
    EveryAckAccepted(u);
    ValidateTouches(u);
    InternalStepRely(u, Validate);
    StepKeepsGeneration(u, Validate);
    StepKeepsSettled(u, Validate);
    DoTwo(s, Receive, Validate, Deliver(|v.channel|));
    assert Deliver(|s.channel|) == [Receive, Validate] + Deliver(|v.channel|);
  }

  lemma ReceiveTouches(s: Shared)
    requires Shaped(s) && s.bridge.Listening? && s.channel != []
    ensures var u := Do(s, Receive);
      && u.bridge.Validating? && u.channel == s.channel[1..] && u.acked == s.acked && u.history == s.history
      && u.acknowledgements == s.acknowledgements && u.invalidAcknowledgements == s.invalidAcknowledgements
  {
    hide Wrap, And, SlotOf;
  }

  lemma ValidateTouches(sh: Shared)
    requires Shaped(sh)
    ensures var t := Do(sh, Validate);
      && t.acked == sh.acked && t.history == sh.history && t.producer == sh.producer && t.losses == sh.losses
      && t.generation == sh.generation && t.channel == sh.channel && t.bridge.Listening?
  {
    hide Wrap, And, SlotOf, Acceptable;
  }

  lemma DoTwo(s: Shared, a: Step, b: Step, rest: seq<Step>)
    requires Shaped(s)
    ensures DoAll(s, [a, b] + rest) == DoAll(Do(Do(s, a), b), rest)
  {
    var steps := [a, b] + rest;
    assert steps[1..] == [b] + rest && steps[1..][1..] == rest;
  }
}
