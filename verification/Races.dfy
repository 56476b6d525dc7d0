/** Two loads with the world moving in between: a run from the initial mapping on which the depth of the
    ring comes out wrong. */
module Races {
  import opened Words
  import opened Records
  import opened Protocol
  import opened Reclamation
  import opened Consumer
  import opened Runs
  import opened ClientThreads
  import Accounting
  import LatencyClient

  /** Attached on the empty ring, then one record published. */
  function AttachAndPublish(payload: Record): seq<Move>
  {
    [AttachLoadHead, AttachLoadTail(false)] + Alone(Publish(1, payload))
  }

  /** The state after AttachAndPublish. */
  ghost predicate OneWaiting(s: System)
  {
    && SystemInvariant(s) && s.reading.Idle? && InFlight(s.sh) == [] && s.generation == s.sh.generation
    && s.position == 0 && s.sh.acked == 0 && s.sh.reclaimed == 0
    && |s.sh.history| == 1 && s.sh.losses == 0 && s.sh.producer.Ready?
  }

  lemma PublishesFirst(s: System, payload: Record)
    requires SystemInvariant(s) && s.reading.Idle? && s.position == 0 && s.delivered == []
    requires s.sh == Initial(s.sh.capacity, s.sh.slots, s.sh.generation) && s.generation == s.sh.generation
    ensures var t := ActAll(s, Alone(Publish(1, payload)));
      OneWaiting(t) && t == s.(sh := DoAll(s.sh, Publish(1, payload)))
  {
    CapacityOfInitial(s);
    hide Wrap, And, SlotOf, ActAll, DoAll, RingInvariant, SystemInvariant, InFlight, ValidCapacity;
    var steps := Publish(1, payload);
    SystemHasRing(s);
    Publishes(s.sh, 1, payload);
    var t := DoAll(s.sh, steps);
    SameFlight(s.sh, t);
    AloneRuns(s, steps);
    EveryInterleavingKeeps(s, Alone(steps));
  }

  lemma CapacityOfInitial(s: System)
    requires SystemInvariant(s) && s.sh == Initial(s.sh.capacity, s.sh.slots, s.sh.generation)
    ensures Shaped(s.sh) && s.sh.capacity > 0 && InFlight(s.sh) == []
  {
  }

  lemma SameFlight(s: Shared, t: Shared)
    requires SameBridge(s, t)
    ensures InFlight(t) == InFlight(s)
  {
  }

  lemma SystemHasRing(s: System)
    requires SystemInvariant(s)
    ensures RingInvariant(s.sh)
  {
  }

  // ---------- the ring depth ----------

  function AloneEvents(steps: seq<Step>): (events: seq<Event>)
  {
    if steps == [] then [] else [Background(steps[0])] + AloneEvents(steps[1..])
  }

  lemma {:induction false} AdvanceConcat(c: Client, a: seq<Event>, b: seq<Event>)
    requires Shaped(c.sys.sh)
    ensures AdvanceAll(c, a + b) == AdvanceAll(AdvanceAll(c, a), b)
    decreases |a|
  {
    if a == [] {
      assert a + b == b;
    } else {
      assert (a + b)[1..] == a[1..] + b;
      AdvanceConcat(Advance(c, a[0]), a[1..], b);
      hide Advance;
    }
  }

  lemma {:induction false} AloneAdvances(c: Client, steps: seq<Step>)
    requires Shaped(c.sys.sh)
    ensures AdvanceAll(c, AloneEvents(steps)) == c.(sys := ActAll(c.sys, Alone(steps)))
    decreases |steps|
  {
    if steps != [] {
      AloneAdvances(Advance(c, Background(steps[0])), steps[1..]);
      assert AloneEvents(steps)[1..] == AloneEvents(steps[1..]);
      assert Alone(steps)[1..] == Alone(steps[1..]);
      hide Act;
    }
  }

  const URGENT_DRAIN: seq<Event> :=
    [LockToDrain(Urgent, true), Snapshot, Copy, Commit, AccountBuffer, Push, AcknowledgeOrNot, Unlock]

  lemma AdvanceFirst(c: Client, events: seq<Event>)
    requires Shaped(c.sys.sh) && events != []
    ensures AdvanceAll(c, events) == AdvanceAll(Advance(c, events[0]), events[1..])
    ensures |events| == 1 ==> AdvanceAll(c, events) == Advance(c, events[0])
  {
  }

  lemma FourSteps(c: Client, a: Event, b: Event, d: Event, e: Event)
    requires Shaped(c.sys.sh)
    ensures AdvanceAll(c, [a, b, d, e]) == Advance(Advance(Advance(Advance(c, a), b), d), e)
  {
    hide Advance;
    var c1 := Advance(c, a);
    var c2 := Advance(c1, b);
    var c3 := Advance(c2, d);
    AdvanceFirst(c, [a, b, d, e]);
    AdvanceFirst(c1, [b, d, e]);
    AdvanceFirst(c2, [d, e]);
    AdvanceFirst(c3, [e]);
    hide AdvanceAll;
    assert [a, b, d, e][1..] == [b, d, e] && [b, d, e][1..] == [d, e] && [d, e][1..] == [e];
  }

  lemma AfterLocking(c: Client)
    requires Shaped(c.sys.sh) && c.mutex.Free?
    ensures Advance(c, LockToDrain(Urgent, true)) == c.(mutex := Held(Urgent, true, Checking))
  {
    hide Act;
  }

  lemma AfterSnapshot(c: Client)
    requires Shaped(c.sys.sh) && c.mutex.Held? && c.mutex.stage == Checking
    requires Act(c.sys, BeginSnapshot(LatencyClient.BATCH)).reading.Copying?
    ensures var d := Advance(c, Snapshot);
      d.sys == Act(c.sys, BeginSnapshot(LatencyClient.BATCH)) && d.mutex == c.mutex.(stage := Reading)
  {
    hide Act;
  }

  lemma AfterCopy(c: Client)
    requires Shaped(c.sys.sh) && c.mutex.Held? && c.mutex.stage == Reading
    ensures Advance(c, Copy) == c.(sys := Act(c.sys, CopySlot))
  {
    hide Act;
  }

  lemma AfterCommit(c: Client)
    requires Shaped(c.sys.sh) && c.mutex.Held? && c.mutex.stage == Reading && c.sys.reading.Copying?
    requires c.sys.reading.available == |c.sys.reading.out| > 0
    ensures var d := Advance(c, Commit);
      d.sys == Act(c.sys, CommitSnapshot) && d.mutex == c.mutex.(stage := Got(c.sys.reading.out))
  {
    hide Act;
  }

  /** The first half of a drain by the urgent thread: one record read into the buffer. */
  lemma UrgentReads(c: Client)
    requires SystemInvariant(c.sys) && c.sys.reading.Idle? && c.mutex.Free?
    requires |c.sys.sh.history| == c.sys.position + 1 < TWO64
    ensures var d := AdvanceAll(c, [LockToDrain(Urgent, true), Snapshot, Copy, Commit]);
      && d.mutex.Held? && d.mutex.holder == Urgent && d.mutex.acknowledge
      && d.mutex.stage.Got? && |d.mutex.stage.buffer| == 1
      && d.sys == ActAll(c.sys, ReadOne(LatencyClient.BATCH))
  {
    hide SystemInvariant, ActAll, AdvanceAll, Act, Advance;
    ReadsOne(c.sys, LatencyClient.BATCH);
    FourSteps(c, LockToDrain(Urgent, true), Snapshot, Copy, Commit);
    AfterLocking(c);
    var c1 := Advance(c, LockToDrain(Urgent, true));
    AfterSnapshot(c1);
    var c2 := Advance(c1, Snapshot);
    AfterCopy(c2);
    AfterCommit(Advance(c2, Copy));
  }

  lemma AfterAccounting(c: Client)
    requires Shaped(c.sys.sh) && c.mutex.Held? && c.mutex.stage.Got?
    ensures var d := Advance(c, AccountBuffer);
      d.sys == c.sys && d.mutex == c.mutex.(stage := Accounted(c.mutex.stage.buffer))
  {
    hide Act, Accounting.AccountAll;
  }

  lemma AfterPush(c: Client)
    requires Shaped(c.sys.sh) && c.mutex.Held?
    requires c.mutex.stage.Accounted? && |c.mutex.stage.buffer| < LatencyClient.BATCH
    ensures var d := Advance(c, Push); d.sys == c.sys && d.mutex == c.mutex.(stage := Done)
  {
    hide Act, Accounting.AccountAll;
  }

  lemma AfterAcknowledging(c: Client)
    requires Shaped(c.sys.sh) && c.mutex.Held? && c.mutex.stage == Done && c.mutex.acknowledge
    ensures var d := Advance(c, AcknowledgeOrNot);
      d.sys == Act(c.sys, Consumer.Move.Acknowledge) && d.mutex == c.mutex.(stage := Leaving)
  {
    hide Act, Accounting.AccountAll;
  }

  lemma AfterUnlocking(c: Client)
    requires Shaped(c.sys.sh) && c.mutex.Held? && c.mutex.stage == Leaving
    ensures var d := Advance(c, Unlock); d.sys == c.sys && d.mutex.Free?
  {
    hide Act, Accounting.AccountAll;
  }

  /** The second half: account, queue, acknowledge, unlock. */
  lemma UrgentKeeps(c: Client)
    requires Shaped(c.sys.sh) && c.mutex.Held? && c.mutex.acknowledge
    requires c.mutex.stage.Got? && |c.mutex.stage.buffer| == 1
    ensures var d := AdvanceAll(c, [AccountBuffer, Push, AcknowledgeOrNot, Unlock]);
      d.mutex.Free? && d.sys == Act(c.sys, Consumer.Move.Acknowledge)
  {
    hide Act, Advance, AdvanceAll;
    FourSteps(c, AccountBuffer, Push, AcknowledgeOrNot, Unlock);
    AfterAccounting(c);
    var c1 := Advance(c, AccountBuffer);
    AfterPush(c1);
    var c2 := Advance(c1, Push);
    AfterAcknowledging(c2);
    AfterUnlocking(Advance(c2, AcknowledgeOrNot));
  }

  /** The urgent thread drains the one record waiting, queues it and acknowledges it. */
  lemma UrgentDrains(c: Client)
    requires SystemInvariant(c.sys) && c.sys.reading.Idle? && c.mutex.Free?
    requires |c.sys.sh.history| == c.sys.position + 1 < TWO64
    ensures var d := AdvanceAll(c, URGENT_DRAIN);
      d.mutex.Free? && d.sys == Act(ActAll(c.sys, ReadOne(LatencyClient.BATCH)), Consumer.Move.Acknowledge)
  {
    assert Shaped(c.sys.sh);
    hide SystemInvariant, ActAll, AdvanceAll, Act, Advance, ReadOne, Shaped;
    var first := [LockToDrain(Urgent, true), Snapshot, Copy, Commit];
    var second := [AccountBuffer, Push, AcknowledgeOrNot, Unlock];
    UrgentReads(c);
    UrgentKeeps(AdvanceAll(c, first));
    AdvanceConcat(c, first, second);
    assert URGENT_DRAIN == first + second;
  }

  /** hfior_ring_depth is called by the frame thread outside the mutex. For every capacity, on a
      schedule from the initial mapping that loads the head, lets the producer publish, the urgent
      thread drain and acknowledge and the bridge accept, and only then loads the tail, the tail has
      overtaken the head: the depth computed is 2^64 - 1. */
  lemma DepthCanWrap(capacity: nat, slots: seq<Record>, generation: nat, payload: Record)
    returns (sys: System, between: seq<Event>)
    requires ValidCapacity(capacity) && |slots| == capacity
    ensures sys == ActAll(Start(Initial(capacity, slots, generation)), [AttachLoadHead, AttachLoadTail(false)])
    ensures var c := AdvanceAll(Begin(sys), between);
      && sys.sh.head == 0 && c.sys.sh.tail == 1 && c.mutex.Free?
      && Sub64(sys.sh.head, c.sys.sh.tail) == 0xFFFF_FFFF_FFFF_FFFF > capacity
  {
    sys := Attaches(capacity, slots, generation);
    PublishesFirst(sys, payload);
    CapacityBelowWord(capacity);
    hide ActAll, AdvanceAll, Act, Wrap, And, SlotOf, SystemInvariant, RingInvariant;
    var publish := Publish(1, payload);
    var c0 := Begin(sys);
    AloneAdvances(c0, publish);
    var c1 := AdvanceAll(c0, AloneEvents(publish));
    UrgentDrains(c1);
    ReadsOne(c1.sys, LatencyClient.BATCH);
    var c2 := AdvanceAll(c1, URGENT_DRAIN);
    AloneAdvances(c2, [Receive, Validate]);
    var c3 := AdvanceAll(c2, AloneEvents([Receive, Validate]));
    ReadAndReclaimed(ActAll(c1.sys, ReadOne(LatencyClient.BATCH)));
    between := AloneEvents(publish) + (URGENT_DRAIN + AloneEvents([Receive, Validate]));
    AdvanceConcat(c0, AloneEvents(publish), URGENT_DRAIN + AloneEvents([Receive, Validate]));
    AdvanceConcat(c1, URGENT_DRAIN, AloneEvents([Receive, Validate]));
    assert Sub64(0, 1) == 0xFFFF_FFFF_FFFF_FFFF by { ZeroMinusOne(); }
  }

  lemma ZeroMinusOne()
    ensures Sub64(0, 1) == 0xFFFF_FFFF_FFFF_FFFF
  {
  }

  lemma ReadAndReclaimed(s: System)
    requires SystemInvariant(s) && s.reading.Idle? && InFlight(s.sh) == [] && s.generation == s.sh.generation
    requires s.position == 1 && s.sh.acked == 0 && |s.sh.history| == 1
    ensures ActAll(Act(s, Consumer.Move.Acknowledge), Alone([Receive, Validate])).sh.tail == 1
  {
    AckGoesThrough(s);
    assert Alone([Receive, Validate]) == [Environment(Receive), Environment(Validate)] by {
      assert Alone([Validate]) == [Environment(Validate)] + Alone([]);
      assert [Receive, Validate][1..] == [Validate];
    }
    ActConcat(s, [Consumer.Move.Acknowledge], [Environment(Receive), Environment(Validate)]);
    ActOne(s, Consumer.Move.Acknowledge);
    assert ACKNOWLEDGE_AND_DELIVER == [Consumer.Move.Acknowledge] + [Environment(Receive), Environment(Validate)];
    var t := ActAll(s, ACKNOWLEDGE_AND_DELIVER);
    SystemHasRing(t);
    TailWord(t.sh);
    hide ActAll, Act, SystemInvariant, RingInvariant;
  }

  lemma TailWord(sh: Shared)
    requires RingInvariant(sh)
    ensures sh.reclaimed == 1 ==> sh.tail == 1
  {
    WrapOfSmall(1);
    hide Wrap, And, SlotOf;
  }
}
