/** Building runs: gluing them together, letting producer and bridge act alone, and publishing and
    consuming a given number of records. */
module Runs {
  import opened Words
  import opened Records
  import opened Protocol
  import opened Reclamation
  import opened Consumer

  lemma {:induction false} DoConcat(s: Shared, a: seq<Step>, b: seq<Step>)
    requires Shaped(s)
    ensures DoAll(s, a + b) == DoAll(DoAll(s, a), b)
    decreases |a|
  {
    if a == [] {
      assert a + b == b;
    } else {
      assert (a + b)[1..] == a[1..] + b;
      DoConcat(Do(s, a[0]), a[1..], b);
      hide Do;
    }
  }

  lemma {:induction false} ActConcat(s: System, a: seq<Move>, b: seq<Move>)
    requires Shaped(s.sh)
    ensures ActAll(s, a + b) == ActAll(ActAll(s, a), b)
    decreases |a|
  {
    if a == [] {
      assert a + b == b;
    } else {
      assert (a + b)[1..] == a[1..] + b;
      ActConcat(Act(s, a[0]), a[1..], b);
      hide Act;
    }
  }

  lemma ActOne(s: System, m: Move)
    requires Shaped(s.sh)
    ensures ActAll(s, [m]) == Act(s, m)
  {
    assert ActAll(Act(s, m), []) == Act(s, m);
    assert [m][1..] == [];
    hide Act;
  }

  /** Producer and bridge alone. */
  function Alone(steps: seq<Step>): (moves: seq<Move>)
    ensures |moves| == |steps|
    ensures forall m :: m in moves ==> m.Environment?
  {
    if steps == [] then [] else [Environment(steps[0])] + Alone(steps[1..])
  }

  lemma {:induction false} AloneRuns(s: System, steps: seq<Step>)
    requires Shaped(s.sh) && forall step :: step in steps ==> Internal(step)
    ensures ActAll(s, Alone(steps)) == s.(sh := DoAll(s.sh, steps))
    decreases |steps|
  {
    if steps != [] {
      var t := Act(s, Environment(steps[0]));
      AloneRuns(t, steps[1..]);
      assert Alone(steps)[1..] == Alone(steps[1..]);
      assert steps[0] in steps;
      hide Do;
    }
  }

  // ---------- the producer alone ----------

  predicate OfProducer(step: Step)
  {
    step.Take? || step.LoadTail? || step.Refuse? || step.Tear? || step.Write? || step.StoreHead?
  }

  /** What no producer step touches. */
  ghost predicate SameBridge(s: Shared, t: Shared)
  {
    && t.capacity == s.capacity && t.tail == s.tail && t.reclaimed == s.reclaimed && t.acked == s.acked
    && t.generation == s.generation && t.bridge == s.bridge && t.channel == s.channel
    && t.invalidAcknowledgements == s.invalidAcknowledgements
  }

  lemma ProducerStep(s: Shared, step: Step)
    requires Shaped(s) && OfProducer(step)
    ensures SameBridge(s, Do(s, step))
  {
    hide Wrap, And, SlotOf, LooksFull, PutAtHead;
  }

  lemma {:induction false} ProducerRun(s: Shared, steps: seq<Step>)
    requires Shaped(s) && forall step :: step in steps ==> OfProducer(step)
    ensures SameBridge(s, DoAll(s, steps))
    decreases |steps|
  {
    if steps != [] {
      assert steps[0] in steps;
      ProducerStep(s, steps[0]);
      ProducerRun(Do(s, steps[0]), steps[1..]);
      hide Do;
    }
  }

  /** Whatever the producer is in the middle of, these steps finish it. */
  function Finish(garbage: Record): seq<Step>
  {
    [LoadTail, Refuse, Tear(garbage), Write, StoreHead]
  }

  lemma Finishes(s: Shared, garbage: Record)
    requires Shaped(s)
    ensures var t := DoAll(s, Finish(garbage));
      && t.producer.Ready? && s.history <= t.history && |t.history| <= |s.history| + 1 && SameBridge(s, t)
      && |t.history| + t.losses <= |s.history| + s.losses + 1
      && (s.producer.Ready? ==> t.history == s.history)
  {
    var a := Do(s, LoadTail);
    var b := Do(a, Refuse);
    var c := Do(b, Tear(garbage));
    var d := Do(c, Write);
    ProducerRun(s, Finish(garbage));
    FiveSteps(s, garbage);
    hide Wrap, And, SlotOf, PutAtHead, DoAll, SameBridge;
  }

  lemma FiveSteps(s: Shared, garbage: Record)
    requires Shaped(s)
    ensures DoAll(s, Finish(garbage)) == Do(Do(Do(Do(Do(s, LoadTail), Refuse), Tear(garbage)), Write), StoreHead)
  {
    hide Do;
    var t2 := Do(s, LoadTail);
    var t3 := Do(t2, Refuse);
    var t4 := Do(t3, Tear(garbage));
    var t5 := Do(t4, Write);
    DoFirst(s, [LoadTail, Refuse, Tear(garbage), Write, StoreHead]);
    DoFirst(t2, [Refuse, Tear(garbage), Write, StoreHead]);
    DoFirst(t3, [Tear(garbage), Write, StoreHead]);
    DoFirst(t4, [Write, StoreHead]);
    DoFirst(t5, [StoreHead]);
    hide DoAll;
    TailsOfPublication(garbage, garbage);
  }

  /** n publications, one after another. */
  function Publish(n: nat, payload: Record): (steps: seq<Step>)
    ensures forall step :: step in steps ==> OfProducer(step)
  {
    if n == 0 then [] else Publication(payload, payload) + Publish(n - 1, payload)
  }

  /** While there is room, each of n publications appends one record. */
  lemma {:induction false} Publishes(s: Shared, n: nat, payload: Record)
    requires RingInvariant(s) && s.producer.Ready? && |s.history| + n <= s.reclaimed + s.capacity
    ensures Extended(s, DoAll(s, Publish(n, payload)), n, payload.timestamp)
    decreases n
  {
    assert Shaped(s);
    if n == 0 {
      hide RingInvariant;
    } else {
      hide *;
      OnePublication(s, payload);
      FirstPublication(s, n, payload);
      var u := DoAll(s, Publication(payload, payload));
      ExtendedTwice(s, u, DoAll(u, Publish(n - 1, payload)), n - 1, payload.timestamp);
      Publishes(u, n - 1, payload);
    }
  }

  lemma FirstPublication(s: Shared, n: nat, payload: Record)
    requires Shaped(s) && n > 0
    ensures DoAll(s, Publish(n, payload)) == DoAll(DoAll(s, Publication(payload, payload)), Publish(n - 1, payload))
  {
    hide Publication;
    DoConcat(s, Publication(payload, payload), Publish(n - 1, payload));
  }

  /** What n publications by a producer at rest leave behind. */
  ghost predicate Extended(s: Shared, t: Shared, n: nat, timestamp: U64)
  {
    && RingInvariant(t) && t.producer.Ready? && SameBridge(s, t)
    && |t.history| == |s.history| + n && s.history <= t.history && t.losses == s.losses
    && forall k :: |s.history| <= k < |t.history| ==> t.history[k].timestamp == timestamp
  }

  lemma ExtendedTwice(s: Shared, t: Shared, u: Shared, n: nat, timestamp: U64)
    requires Extended(s, t, 1, timestamp)
    ensures RingInvariant(t) && t.producer.Ready? && t.reclaimed == s.reclaimed && t.capacity == s.capacity
    ensures |t.history| == |s.history| + 1
    ensures Extended(t, u, n, timestamp) ==> Extended(s, u, n + 1, timestamp)
  {
    hide RingInvariant;
  }

  lemma OnePublication(s: Shared, payload: Record)
    requires RingInvariant(s) && s.producer.Ready? && |s.history| < s.reclaimed + s.capacity
    ensures Extended(s, DoAll(s, Publication(payload, payload)), 1, payload.timestamp)
  {
    assert Shaped(s);
    assert forall step :: step in Publication(payload, payload) ==> OfProducer(step);
    hide RingInvariant, Publication, DoAll, OfProducer;
    UndisturbedPublication(s, payload, payload);
    RunKeepsRing(s, Publication(payload, payload));
    ProducerRun(s, Publication(payload, payload));
  }

  // ---------- one record through the consumer ----------

  function ReadOne(maxRecords: nat): seq<Move>
  {
    [BeginSnapshot(maxRecords), CopySlot, CommitSnapshot]
  }

  /** With a record waiting, and before 2^64, a snapshot of one record moves the cursor over it. */
  lemma ReadsOne(s: System, maxRecords: nat)
    requires SystemInvariant(s) && s.reading.Idle? && s.position < |s.sh.history| < TWO64
    requires maxRecords == 1 || (maxRecords > 0 && |s.sh.history| == s.position + 1)
    ensures var t := ActAll(s, ReadOne(maxRecords));
      && SystemInvariant(t) && t.reading.Idle? && t.sh == s.sh && t.position == s.position + 1
      && t.generation == s.generation && t.origin == s.origin && t.acknowledgedTail == s.acknowledgedTail
      && t.localTail == Wrap(t.position)
    ensures var a := Act(s, BeginSnapshot(maxRecords));
      a.reading == Copying(1, []) && Act(a, CopySlot).reading.Copying? && |Act(a, CopySlot).reading.out| == 1
        && Act(a, CopySlot).reading.available == 1
    ensures ActAll(s, ReadOne(maxRecords)) == Act(Act(Act(s, BeginSnapshot(maxRecords)), CopySlot), CommitSnapshot)
  {
    hide Wrap, And, SlotOf, ActAll, Act, SystemInvariant, Invariant;
    EveryInterleavingKeeps(s, ReadOne(maxRecords));
    BeginsOne(s, maxRecords);
    var a := Act(s, BeginSnapshot(maxRecords));
    CopiesOne(a);
    CommitsOne(Act(a, CopySlot));
    WrapOfPosition(ActAll(s, ReadOne(maxRecords)));
    ThreeMoves(s, BeginSnapshot(maxRecords), CopySlot, CommitSnapshot);
  }

  lemma BeginsOne(s: System, maxRecords: nat)
    requires SystemInvariant(s) && s.reading.Idle? && s.position < |s.sh.history| < TWO64
    requires maxRecords == 1 || (maxRecords > 0 && |s.sh.history| == s.position + 1)
    ensures Act(s, BeginSnapshot(maxRecords)) == s.(reading := Copying(1, []))
  {
    SnapshotTestIsExact(s.sh, s.localTail, s.position);
    EpochBetween(s.position, |s.sh.history|, |s.sh.history|);
    hide Wrap, And, SlotOf, Invariant, Epoch, Rejects;
  }

  lemma CopiesOne(s: System)
    requires Shaped(s.sh) && s.reading == Copying(1, [])
    ensures var t := Act(s, CopySlot);
      t == s.(reading := t.reading) && t.reading.Copying? && t.reading.available == 1 && |t.reading.out| == 1
  {
    hide Wrap, And;
  }

  lemma CommitsOne(s: System)
    requires Shaped(s.sh) && s.reading.Copying? && s.reading.available == 1 == |s.reading.out|
    ensures var t := Act(s, CommitSnapshot);
      && t.reading.Idle? && t.sh == s.sh && t.position == s.position + 1 && t.generation == s.generation
      && t.origin == s.origin && t.acknowledgedTail == s.acknowledgedTail
  {
    hide Wrap;
  }

  lemma WrapOfPosition(s: System)
    requires SystemInvariant(s)
    ensures Attached(s) ==> s.localTail == Wrap(s.position)
  {
  }

  lemma ThreeMoves(s: System, a: Move, b: Move, c: Move)
    requires Shaped(s.sh)
    ensures ActAll(s, [a, b, c]) == Act(Act(Act(s, a), b), c)
  {
    assert [a, b, c] == [a] + ([b] + [c]);
    ActConcat(s, [a], [b] + [c]);
    ActOne(s, a);
    ActConcat(Act(s, a), [b], [c]);
    ActOne(Act(s, a), b);
    ActOne(Act(Act(s, a), b), c);
    hide *;
  }

  const ACKNOWLEDGE_AND_DELIVER: seq<Move> := [Acknowledge, Environment(Receive), Environment(Validate)]

  /** With nothing in flight, and before 2^64, an ACK of the current generation goes through and
      takes the shared tail to the cursor. */
  lemma AckGoesThrough(s: System)
    requires SystemInvariant(s) && s.reading.Idle? && InFlight(s.sh) == [] && s.sh.acked < s.position
    requires s.generation == s.sh.generation && |s.sh.history| < TWO64
    ensures var t := ActAll(s, ACKNOWLEDGE_AND_DELIVER);
      && SystemInvariant(t) && t.reading.Idle? && t.position == s.position && t.origin == s.origin
      && t.sh.reclaimed == t.sh.acked == s.position && InFlight(t.sh) == []
      && t.sh.history == s.sh.history && t.sh.producer == s.sh.producer && t.sh.losses == s.sh.losses
      && t.generation == s.generation && t.sh.generation == s.sh.generation
  {
    hide Wrap, And, SlotOf, SystemInvariant, Invariant, ActAll, InFlight, Do;
    SendIsSent(s);
    var a := Act(s, Acknowledge);
    MoveKeeps(s, Acknowledge);
    assert Invariant(a.sh) by { SystemHasInvariant(a); }
    DeliversOne(a.sh);
    EveryInterleavingKeeps(s, ACKNOWLEDGE_AND_DELIVER);
    ThreeMoves(s, Acknowledge, Environment(Receive), Environment(Validate));
  }

  lemma SystemHasInvariant(s: System)
    requires SystemInvariant(s)
    ensures Invariant(s.sh)
  {
  }

  lemma DeliversOne(sh: Shared)
    requires Invariant(sh) && |sh.history| < TWO64 && |InFlight(sh)| == |sh.channel| == 1
    requires sh.channel[0].generation == sh.generation
    ensures var t := Do(Do(sh, Receive), Validate);
      && t.reclaimed == sh.channel[0].position && t.acked == sh.acked && InFlight(t) == []
      && t.history == sh.history && t.producer == sh.producer && t.losses == sh.losses && t.generation == sh.generation
  {
    var u := Do(sh, Receive);
    InternalStepRely(sh, Receive);
    FlightUnchanged(sh, Receive);
    assert sh.bridge.Listening?;
    assert InFlight(u) == [u.bridge.ack];
    EveryAckAccepted(u);
    ValidateTouches(u);
    hide Wrap, And, SlotOf, Invariant, Acceptable;
    assert InFlight(Do(u, Validate)) == [];
  }

  lemma SendIsSent(s: System)
    requires SystemInvariant(s) && s.reading.Idle? && InFlight(s.sh) == [] && s.sh.acked < s.position
    requires |s.sh.history| < TWO64
    ensures var t := Act(s, Acknowledge);
      && t == s.(sh := SendAck(s.sh, s.generation, s.localTail, s.position), acknowledgedTail := s.localTail)
      && InFlight(t.sh) == t.sh.channel == [Ack(s.generation, s.localTail, s.position)]
  {
  }

  // ---------- attaching to the empty ring ----------

  lemma Attaches(capacity: nat, slots: seq<Record>, generation: nat) returns (s: System)
    requires ValidCapacity(capacity) && |slots| == capacity
    ensures s == ActAll(Start(Initial(capacity, slots, generation)), [AttachLoadHead, AttachLoadTail(false)])
    ensures SystemInvariant(s) && s.sh == Initial(capacity, slots, generation)
    ensures s.reading.Idle? && s.generation == generation && s.position == 0 && s.delivered == []
  {
    var start := Start(Initial(capacity, slots, generation));
    StartInvariant(capacity, slots, generation);
    s := AttachedOn(start);
    assert Shaped(start.sh) && InFlight(start.sh) == [];
    hide ActAll, Act, SystemInvariant, Wrap, And, SlotOf, ValidCapacity;
    EveryInterleavingKeeps(start, [AttachLoadHead, AttachLoadTail(false)]);
    ActConcat(start, [AttachLoadHead], [AttachLoadTail(false)]);
    ActOne(start, AttachLoadHead);
    ActOne(Act(start, AttachLoadHead), AttachLoadTail(false));
    assert [AttachLoadHead, AttachLoadTail(false)] == [AttachLoadHead] + [AttachLoadTail(false)];
  }

  lemma AttachedOn(start: System) returns (s: System)
    requires Shaped(start.sh) && start.reading.Detached? && start.sh.reclaimed == start.sh.acked == 0
    ensures s == Act(Act(start, AttachLoadHead), AttachLoadTail(false))
    ensures s.sh == start.sh && s.reading.Idle? && s.generation == start.generation
    ensures s.position == 0 && s.delivered == []
  {
    s := Act(Act(start, AttachLoadHead), AttachLoadTail(false));
    hide Wrap, And, SlotOf;
  }

  // ---------- many records through the consumer ----------

  /** The same, shorter: what one record read leaves behind. */
  ghost predicate Reads(s: System, t: System, n: nat)
  {
    && SystemInvariant(t) && t.reading.Idle? && t.sh == s.sh && t.position == s.position + n
    && t.generation == s.generation
  }

  lemma ReadsNext(s: System)
    requires SystemInvariant(s) && s.reading.Idle? && s.position < |s.sh.history| < TWO64
    ensures Reads(s, ActAll(s, ReadOne(1)), 1)
  {
    ReadsOne(s, 1);
    hide Act, ActAll, SystemInvariant, ReadOne, Wrap;
  }

  function ReadMany(n: nat): seq<Move>
  {
    if n == 0 then [] else ReadOne(1) + ReadMany(n - 1)
  }

  /** With n records waiting, n snapshots of one record move the cursor over all of them. */
  lemma {:induction false} ReadsMany(s: System, n: nat)
    requires SystemInvariant(s) && s.reading.Idle? && s.position + n <= |s.sh.history| < TWO64
    ensures Reads(s, ActAll(s, ReadMany(n)), n)
    decreases n
  {
    hide *;
    ShapedSystem(s);
    if n == 0 {
      NothingRead(s);
    } else {
      ReadsNext(s);
      FirstRead(s, n);
      var t := ActAll(s, ReadOne(1));
      ReadsCompose(s, t, ActAll(t, ReadMany(n - 1)), n - 1);
      ReadsMany(t, n - 1);
    }
  }

  lemma ShapedSystem(s: System)
    requires SystemInvariant(s)
    ensures Shaped(s.sh)
  {
  }

  lemma NothingRead(s: System)
    requires SystemInvariant(s) && s.reading.Idle?
    ensures Reads(s, ActAll(s, ReadMany(0)), 0)
  {
    hide SystemInvariant;
  }

  lemma FirstRead(s: System, n: nat)
    requires Shaped(s.sh) && n > 0
    ensures ActAll(s, ReadMany(n)) == ActAll(ActAll(s, ReadOne(1)), ReadMany(n - 1))
  {
    hide ReadOne;
    ActConcat(s, ReadOne(1), ReadMany(n - 1));
  }

  lemma ReadsCompose(s: System, t: System, u: System, n: nat)
    requires Reads(s, t, 1)
    ensures SystemInvariant(t) && t.reading.Idle? && t.sh == s.sh && t.position == s.position + 1
    ensures Reads(t, u, n) ==> Reads(s, u, n + 1)
  {
    hide SystemInvariant;
  }
}
