/** The latency client's two threads: the urgent thread and the frame thread both drain the ring
    under one mutex into a pending queue that only the frame thread empties. */
module ClientThreads {
  import opened Words
  import opened Records
  import opened Protocol
  import opened Reclamation
  import opened Consumer
  import opened Accounting
  import LatencyClient


  datatype Thread = Urgent | Frame

  /** Where the thread that holds ring_drain_mutex stands inside drain_ring. */
  datatype Stage =
    | Checking                           // about to take a snapshot
    | Reading                            // copying slots
    | Got(buffer: seq<Record>)           // snapshot returned, private tail advanced
    | Accounted(buffer: seq<Record>)     // sequence numbers accounted, not yet queued
    | Done                               // loop left
    | Leaving                            // ACK sent or skipped, mutex still held

  datatype Mutex = Free | Held(holder: Thread, acknowledge: bool, stage: Stage)

  datatype Client = Client(
    sys: System,
    mutex: Mutex,
    pending: seq<Record>,
    taken: seq<Record>,      // everything take_pending has returned, in order
    tally: Tally,
    ringRecords: nat)

  datatype Event =
    | Background(step: Step)
    | NewGeneration(generation: nat)
    | LockToDrain(holder: Thread, acknowledge: bool)
    | LockToAcknowledge(holder: Thread)
    | Snapshot
    | Copy
    | Commit
    | AccountBuffer
    | Push
    | AcknowledgeOrNot
    | Unlock
    | TakePending            // frame thread; needs only the queue's own mutex

  function SetStage(c: Client, stage: Stage): Client
  {
    c.(mutex := match c.mutex case Free => Free case Held(who, a, _) => Held(who, a, stage))
  }

  predicate InStage(c: Client, stage: Stage)
  {
    c.mutex.Held? && c.mutex.stage == stage
  }

  function Advance(c: Client, e: Event): (d: Client)
    requires Shaped(c.sys.sh)
    ensures Shaped(d.sys.sh)
  {
    match e
    case Background(step) => c.(sys := Act(c.sys, Environment(step)))
    case NewGeneration(g) => c.(sys := Act(c.sys, LearnGeneration(g)))
    case LockToDrain(who, a) => if !c.mutex.Free? then c else c.(mutex := Held(who, a, Checking))
    case LockToAcknowledge(who) => if !c.mutex.Free? then c else c.(mutex := Held(who, true, Done))
    case Snapshot =>
      if !InStage(c, Checking) then c else
      var sys := Act(c.sys, BeginSnapshot(LatencyClient.BATCH));
      if !sys.reading.Copying? then c   // rejected: the client exits, nothing more happens
      else SetStage(c.(sys := sys), Reading)
    case Copy => if !InStage(c, Reading) then c else c.(sys := Act(c.sys, CopySlot))
    case Commit =>
      if !InStage(c, Reading) || !c.sys.reading.Copying? || |c.sys.reading.out| < c.sys.reading.available then c else
      var buffer := c.sys.reading.out;
      SetStage(c.(sys := Act(c.sys, CommitSnapshot)), if buffer == [] then Done else Got(buffer))
    case AccountBuffer =>
      if !c.mutex.Held? || !c.mutex.stage.Got? then c else
      SetStage(c.(tally := AccountAll(c.tally, c.mutex.stage.buffer)), Accounted(c.mutex.stage.buffer))
    case Push =>
      if !c.mutex.Held? || !c.mutex.stage.Accounted? then c else
      var b := c.mutex.stage.buffer;
      SetStage(c.(pending := c.pending + b, ringRecords := c.ringRecords + |b|),
               if |b| < LatencyClient.BATCH then Done else Checking)
    case AcknowledgeOrNot =>
      if !InStage(c, Done) then c else
      SetStage(if c.mutex.acknowledge then c.(sys := Act(c.sys, Acknowledge)) else c, Leaving)
    case Unlock => if !InStage(c, Leaving) then c else c.(mutex := Free)
    case TakePending =>
      if c.mutex.Held? && c.mutex.holder == Frame then c else
      c.(taken := c.taken + c.pending, pending := [])
  }

  function AdvanceAll(c: Client, events: seq<Event>): (d: Client)
    requires Shaped(c.sys.sh)
    ensures Shaped(d.sys.sh)
    decreases |events|
  {
    if events == [] then c else AdvanceAll(Advance(c, events[0]), events[1..])
  }

  /** A freshly attached client. */
  function Begin(sys: System): Client
  {
    Client(sys, Free, [], [], ZERO_TALLY, 0)
  }

  function Unaccounted(c: Client): seq<Record>
  {
    if c.mutex.Held? && c.mutex.stage.Got? then c.mutex.stage.buffer else []
  }

  function Unqueued(c: Client): seq<Record>
  {
    if c.mutex.Held? && (c.mutex.stage.Got? || c.mutex.stage.Accounted?) then c.mutex.stage.buffer else []
  }

  function Received(c: Client): seq<Record>
  {
    c.taken + c.pending
  }

  ghost predicate Books(c: Client)
    requires Shaped(c.sys.sh)
  {
    && c.sys.delivered == Received(c) + Unqueued(c)
    && c.tally == AccountAll(ZERO_TALLY, Received(c) + if Unaccounted(c) == [] then Unqueued(c) else [])
    && c.ringRecords == |Received(c)|
    && c.sys.sh.acked <= c.sys.origin + |Received(c)|
    && c.sys.position == c.sys.origin + |c.sys.delivered|
    && (c.mutex.Held? && c.mutex.stage == Leaving && c.mutex.acknowledge ==> c.sys.sh.acked == c.sys.position)
  }

  ghost predicate Stages(c: Client)
  {
    && (InStage(c, Reading) <==> c.sys.reading.Copying?)
    && (!InStage(c, Reading) ==> c.sys.reading.Idle?)
    && (c.mutex.Held? && (c.mutex.stage.Got? || c.mutex.stage.Accounted?) ==> c.mutex.stage.buffer != [])
  }

  ghost predicate ClientInvariant(c: Client)
  {
    Shaped(c.sys.sh) && SystemInvariant(c.sys) && Attached(c.sys) && Stages(c) && Books(c)
  }

  lemma BeginInvariant(sys: System)
    requires SystemInvariant(sys) && sys.reading.Idle? && sys.delivered == []
    ensures ClientInvariant(Begin(sys))
  {
  }

  lemma RingEventKeeps(c: Client, e: Event)
    requires ClientInvariant(c)
    requires e.Background? || e.NewGeneration? || e.Copy? || e.Snapshot?
    ensures ClientInvariant(Advance(c, e))
  {
    match e {
      case Background(step) => MoveKeeps(c.sys, Environment(step));
      case NewGeneration(g) => MoveKeeps(c.sys, LearnGeneration(g));
      case Copy => MoveKeeps(c.sys, CopySlot);
      case Snapshot => MoveKeeps(c.sys, BeginSnapshot(LatencyClient.BATCH));
    }
    BackgroundFrame(c, e);
    hide Wrap, And, SlotOf, Do, Act, SystemInvariant, AccountAll;
  }

  lemma BackgroundFrame(c: Client, e: Event)
    requires ClientInvariant(c)
    requires e.Background? || e.NewGeneration? || e.Copy? || e.Snapshot?
    ensures var d := Advance(c, e);
      && d.sys.delivered == c.sys.delivered && d.sys.origin == c.sys.origin && d.sys.position == c.sys.position
      && d.sys.sh.acked == c.sys.sh.acked && Stages(d) && Attached(d.sys)
      && d.taken == c.taken && d.pending == c.pending && d.tally == c.tally && d.ringRecords == c.ringRecords
      && Unqueued(d) == Unqueued(c) && Unaccounted(d) == Unaccounted(c)
  {
    if e.Background? && Internal(e.step) { InternalStepRely(c.sys.sh, e.step); }
    hide Wrap, And, SlotOf, Do, SystemInvariant, AccountAll, Rejects, Books;
  }

  lemma CommitEventKeeps(c: Client)
    requires ClientInvariant(c)
    ensures ClientInvariant(Advance(c, Commit))
  {
    hide SystemInvariant, AccountAll, Act, Books, Stages;
    ReadingBound(c.sys);
    MoveKeeps(c.sys, CommitSnapshot);
    if Advance(c, Commit) != c {
      CommitFrame(c.sys);
      CommitBooks(c, Advance(c, Commit));
    }
  }

  lemma ReadingBound(s: System)
    requires SystemInvariant(s)
    ensures s.reading.Copying? ==> |s.reading.out| <= s.reading.available
  {
    hide Invariant, Act;
  }

  lemma CommitBooks(c: Client, d: Client)
    requires Shaped(c.sys.sh) && Books(c) && InStage(c, Reading) && c.sys.reading.Copying?
    requires var b := c.sys.reading.out;
      && d.sys.reading.Idle? && d.sys.sh == c.sys.sh && d.sys.origin == c.sys.origin
      && d.sys.position == c.sys.position + |b| && d.sys.delivered == c.sys.delivered + b
      && d == c.(sys := d.sys, mutex := c.mutex.(stage := if b == [] then Done else Got(b)))
    ensures Books(d) && Stages(d)
  {
    hide AccountAll;
    assert Received(c) + Unqueued(c) == Received(c);
    assert Received(d) + Unqueued(d) == c.sys.delivered + c.sys.reading.out;
  }

  lemma CommitFrame(s: System)
    requires Shaped(s.sh) && s.reading.Copying? && |s.reading.out| == s.reading.available
    ensures var t := Act(s, CommitSnapshot);
      && t.reading.Idle? && t.sh == s.sh && t.origin == s.origin
      && t.position == s.position + |s.reading.out| && t.delivered == s.delivered + s.reading.out
  {
    hide Wrap;
  }

  lemma AccountKeepsBooks(c: Client)
    requires ClientInvariant(c)
    ensures ClientInvariant(Advance(c, AccountBuffer))
  {
    hide Act, SystemInvariant, AccountAll;
    if c.mutex.Held? && c.mutex.stage.Got? {
      assert Received(c) + [] == Received(c);
      BatchesDoNotMatter(ZERO_TALLY, Received(c), c.mutex.stage.buffer);
    }
  }

  lemma PushKeepsBooks(c: Client)
    requires ClientInvariant(c)
    ensures ClientInvariant(Advance(c, Push))
  {
    hide Act, SystemInvariant, AccountAll;
    if c.mutex.Held? && c.mutex.stage.Accounted? {
      var d := Advance(c, Push);
      assert Received(d) == Received(c) + Unqueued(c);
      assert Received(d) + [] == Received(d);
    }
  }

  lemma TakeKeepsBooks(c: Client)
    requires ClientInvariant(c)
    ensures ClientInvariant(Advance(c, TakePending))
  {
    hide Act, SystemInvariant, AccountAll;
    assert Received(Advance(c, TakePending)) == Received(c);
  }

  lemma AcknowledgeFrame(s: System)
    requires Shaped(s.sh)
    ensures var t := Act(s, Consumer.Move.Acknowledge);
      && t.delivered == s.delivered && t.origin == s.origin && t.position == s.position && t.reading == s.reading
      && (t.sh.acked == s.sh.acked || t.sh.acked == s.position)
    ensures SystemInvariant(s) && s.reading.Idle? ==> Act(s, Consumer.Move.Acknowledge).sh.acked == s.position
  {
    if SystemInvariant(s) && s.reading.Idle? && s.localTail == s.acknowledgedTail {
      SameWordHere(s);
    }
  }

  lemma SameWordHere(s: System)
    requires SystemInvariant(s) && s.reading.Idle? && s.localTail == s.acknowledgedTail
    ensures s.sh.acked == s.position
  {
    CapacityBelowWord(s.sh.capacity);
    SameWord(s.sh.acked, s.position);
    hide Wrap, And, SlotOf;
  }

  lemma AcknowledgeKeepsBooks(c: Client)
    requires ClientInvariant(c)
    ensures ClientInvariant(Advance(c, AcknowledgeOrNot))
  {
    hide Act, SystemInvariant, AccountAll, Stages, Received, Unqueued, Unaccounted;
    var d := Advance(c, AcknowledgeOrNot);
    MoveKeeps(c.sys, Consumer.Move.Acknowledge);
    AcknowledgeFrame(c.sys);
    if d != c {
      AcknowledgeStage(c);
    }
  }

  lemma AcknowledgeStage(c: Client)
    requires Shaped(c.sys.sh) && InStage(c, Done) && Stages(c)
    ensures var d := Advance(c, AcknowledgeOrNot);
      && Stages(d) && Received(d) == Received(c)
      && Unqueued(d) == Unqueued(c) == [] && Unaccounted(d) == Unaccounted(c) == []
      && d.tally == c.tally && d.ringRecords == c.ringRecords
      && d.mutex == c.mutex.(stage := Leaving) && c.sys.reading.Idle?
      && d.sys == if c.mutex.acknowledge then Act(c.sys, Consumer.Move.Acknowledge) else c.sys
  {
    AcknowledgeFrame(c.sys);
    hide Act;
  }

  lemma MutexEventKeeps(c: Client, e: Event)
    requires ClientInvariant(c)
    requires e.LockToDrain? || e.LockToAcknowledge? || e.Unlock?
    ensures ClientInvariant(Advance(c, e))
  {
    hide Act, SystemInvariant, AccountAll;
  }

  lemma EventKeeps(c: Client, e: Event)
    requires ClientInvariant(c)
    ensures ClientInvariant(Advance(c, e))
  {
    if e.Background? || e.NewGeneration? || e.Copy? || e.Snapshot? {
      RingEventKeeps(c, e);
    } else if e.Commit? {
      CommitEventKeeps(c);
    } else if e.AccountBuffer? {
      AccountKeepsBooks(c);
    } else if e.Push? {
      PushKeepsBooks(c);
    } else if e.TakePending? {
      TakeKeepsBooks(c);
    } else if e.AcknowledgeOrNot? {
      AcknowledgeKeepsBooks(c);
    } else {
      MutexEventKeeps(c, e);
    }
  }

  lemma {:induction false} EveryScheduleKeeps(c: Client, events: seq<Event>)
    requires ClientInvariant(c)
    ensures ClientInvariant(AdvanceAll(c, events))
    decreases |events|
  {
    if events != [] {
      EventKeeps(c, events[0]);
      EveryScheduleKeeps(Advance(c, events[0]), events[1..]);
    }
  }

  /** Under every schedule of the two threads, the producer and the bridge: whenever the mutex is
      free, what the frame thread has taken followed by the pending queue is history from the
      starting point to the private tail, each record once and in order, and fully accounted; at no
      moment does an ACK cover a record that is not yet in the queue or taken; and a thread that locked
      to acknowledge leaves everything read acknowledged. */
  lemma EverySchedule(sys: System, events: seq<Event>)
    requires SystemInvariant(sys) && sys.reading.Idle? && sys.delivered == []
    ensures var c := AdvanceAll(Begin(sys), events);
      && c.sys.origin <= c.sys.position <= |c.sys.sh.history|
      && c.sys.sh.acked <= c.sys.origin + |Received(c)| <= c.sys.position
      && Received(c) <= c.sys.sh.history[c.sys.origin..]
      && (c.mutex.Free? ==>
            && Received(c) == c.sys.sh.history[c.sys.origin..c.sys.position]
            && c.ringRecords == c.sys.position - c.sys.origin
            && c.tally == AccountAll(ZERO_TALLY, Received(c)))
      && (c.mutex.Held? && c.mutex.stage == Leaving && c.mutex.acknowledge ==> c.sys.sh.acked == c.sys.position)
  {
    hide Wrap, And, SlotOf, Advance, AdvanceAll, Invariant, AccountAll;
    BeginInvariant(sys);
    EveryScheduleKeeps(Begin(sys), events);
    var c := AdvanceAll(Begin(sys), events);
    ReceivedInOrder(c);
    assert Received(c) + [] == Received(c);
  }

  // ---------- who acknowledges ----------

  /** Whether this event locks the mutex in order to acknowledge. */
  predicate LocksToAcknowledge(e: Event)
  {
    e.LockToAcknowledge? || (e.LockToDrain? && e.acknowledge)
  }

  ghost predicate NotAcknowledging(c: Client)
  {
    c.mutex.Held? ==> !c.mutex.acknowledge
  }

  lemma SilentEvent(c: Client, e: Event)
    requires ClientInvariant(c) && NotAcknowledging(c) && !LocksToAcknowledge(e)
    ensures NotAcknowledging(Advance(c, e)) && Advance(c, e).sys.sh.acked == c.sys.sh.acked
  {
    if e.Background? || e.NewGeneration? || e.Copy? || e.Snapshot? {
      BackgroundFrame(c, e);
    } else if e.Commit? {
      hide Wrap, And, SlotOf, SystemInvariant, AccountAll, Books;
    }
    hide Act, SystemInvariant, AccountAll, Books;
  }

  /** Only a thread that locked in order to acknowledge ever sends an ACK: on a schedule without such a
      lock the acknowledged tail stands still. */
  lemma {:induction false} NobodyElseAcknowledges(c: Client, events: seq<Event>)
    requires ClientInvariant(c) && NotAcknowledging(c)
    requires forall e :: e in events ==> !LocksToAcknowledge(e)
    ensures AdvanceAll(c, events).sys.sh.acked == c.sys.sh.acked
    decreases |events|
  {
    if events != [] {
      assert events[0] in events && forall e :: e in events[1..] ==> e in events;
      EventKeeps(c, events[0]);
      SilentEvent(c, events[0]);
      hide Advance, ClientInvariant, NotAcknowledging;
      NobodyElseAcknowledges(Advance(c, events[0]), events[1..]);
    }
  }

  // ---------- how fresh a frame's records are ----------

  /** Everything below this position has been queued or taken, or the frame thread holds the mutex in
      a drain that will not end before it has been. */
  ghost predicate Reaching(c: Client, mark: nat)
  {
    || mark <= c.sys.origin + |Received(c)|
    || (c.mutex.Held? && c.mutex.holder == Frame && StageReaches(c, c.mutex.stage, mark))
  }

  ghost predicate StageReaches(c: Client, stage: Stage, mark: nat)
  {
    match stage
    case Checking => mark <= |c.sys.sh.history|
    case Reading =>
      && c.sys.reading.Copying? && mark <= |c.sys.sh.history|
      && (c.sys.reading.available < LatencyClient.BATCH ==> mark <= c.sys.position + c.sys.reading.available)
    case Got(buffer) => mark <= |c.sys.sh.history| && (|buffer| < LatencyClient.BATCH ==> mark <= c.sys.position)
    case Accounted(buffer) => mark <= |c.sys.sh.history| && (|buffer| < LatencyClient.BATCH ==> mark <= c.sys.position)
    case Done => mark <= c.sys.position
    case Leaving => mark <= c.sys.position
  }

  lemma EventKeepsReaching(c: Client, e: Event, mark: nat)
    requires ClientInvariant(c) && Reaching(c, mark)
    ensures Reaching(Advance(c, e), mark) && Advance(c, e).sys.origin == c.sys.origin
  {
    hide Act, SystemInvariant, AccountAll, Advance, Reaching, Stages, Books, Unqueued, Unaccounted;
    if e.Background? || e.NewGeneration? || e.Copy? {
      RingEventReaches(c, e, mark);
    } else if e.Snapshot? {
      SnapshotReaches(c, mark);
    } else if e.Commit? {
      CommitReaches(c, mark);
    } else if e.AcknowledgeOrNot? {
      AcknowledgeReaches(c, mark);
    } else {
      ThreadEventReaches(c, e, mark);
    }
  }

  lemma AcknowledgeReaches(c: Client, mark: nat)
    requires ClientInvariant(c) && Reaching(c, mark)
    ensures Reaching(Advance(c, AcknowledgeOrNot), mark) && Advance(c, AcknowledgeOrNot).sys.origin == c.sys.origin
  {
    AcknowledgeFrame(c.sys);
    hide Act, SystemInvariant, AccountAll, Books, Stages;
  }

  lemma ThreadEventReaches(c: Client, e: Event, mark: nat)
    requires ClientInvariant(c) && Reaching(c, mark)
    requires e.LockToDrain? || e.LockToAcknowledge? || e.AccountBuffer? || e.Push? || e.Unlock? || e.TakePending?
    ensures Reaching(Advance(c, e), mark) && Advance(c, e).sys.origin == c.sys.origin
  {
    assert |Received(Advance(c, e))| >= |Received(c)| by { hide Act, SystemInvariant, AccountAll, Stages, Books; }
    assert c.sys.position == c.sys.origin + |Received(c)| + |Unqueued(c)|;
    hide Act, SystemInvariant, AccountAll, Stages, Books;
  }

  lemma RingEventReaches(c: Client, e: Event, mark: nat)
    requires ClientInvariant(c) && Reaching(c, mark)
    requires e.Background? || e.NewGeneration? || e.Copy?
    ensures Reaching(Advance(c, e), mark) && Advance(c, e).sys.origin == c.sys.origin
  {
    BackgroundFrame(c, e);
    if e.Background? && Internal(e.step) { InternalStepRely(c.sys.sh, e.step); }
    hide Wrap, And, SlotOf, Do, SystemInvariant, AccountAll, Books;
  }

  lemma SnapshotReaches(c: Client, mark: nat)
    requires ClientInvariant(c) && Reaching(c, mark)
    ensures Reaching(Advance(c, Snapshot), mark) && Advance(c, Snapshot).sys.origin == c.sys.origin
  {
    BackgroundFrame(c, Snapshot);
    if InStage(c, Checking) {
      assert c.sys.reading.Idle?;
      SnapshotTestIsExact(c.sys.sh, c.sys.localTail, c.sys.position);
    }
    hide Wrap, And, SlotOf, SystemInvariant, AccountAll, Rejects, Epoch, Books;
  }

  lemma CommitReaches(c: Client, mark: nat)
    requires ClientInvariant(c) && Reaching(c, mark)
    ensures Reaching(Advance(c, Commit), mark) && Advance(c, Commit).sys.origin == c.sys.origin
  {
    hide Wrap, And, SlotOf, SystemInvariant, AccountAll, Books;
  }

  lemma {:induction false} RunKeepsReaching(c: Client, events: seq<Event>, mark: nat)
    requires ClientInvariant(c) && Reaching(c, mark)
    ensures Reaching(AdvanceAll(c, events), mark) && AdvanceAll(c, events).sys.origin == c.sys.origin
    decreases |events|
  {
    if events != [] {
      EventKeeps(c, events[0]);
      EventKeepsReaching(c, events[0], mark);
      hide Advance, Reaching, ClientInvariant;
      RunKeepsReaching(Advance(c, events[0]), events[1..], mark);
    }
  }

  /** A frame never misses a record published before its drain began. From the moment the frame thread
      takes the mutex to drain, under every schedule of both threads, producer and bridge: once it has
      let go again, taking the pending queue leaves it with every record published before that moment,
      in order, whatever the urgent thread did meanwhile, even if it is in the middle of a drain. */
  lemma FrameMissesNothing(c: Client, events: seq<Event>)
    requires ClientInvariant(c) && c.mutex.Held? && c.mutex.holder == Frame && c.mutex.stage == Checking
    requires var d := AdvanceAll(c, events); !(d.mutex.Held? && d.mutex.holder == Frame)
    ensures var d := Advance(AdvanceAll(c, events), TakePending);
      && d.sys.origin == c.sys.origin <= |c.sys.sh.history| && d.sys.origin <= |d.sys.sh.history|
      && |c.sys.sh.history| - c.sys.origin <= |d.taken| && d.pending == []
      && d.taken <= d.sys.sh.history[d.sys.origin..]
  {
    assert Shaped(c.sys.sh);
    hide ClientInvariant, SystemInvariant, Advance, AdvanceAll, Reaching, Received, Shaped;
    var mark, d := |c.sys.sh.history|, AdvanceAll(c, events);
    StartsReaching(c);
    RunKeepsReaching(c, events, mark);
    EveryScheduleKeeps(c, events);
    Reached(d, mark);
    EventKeeps(d, TakePending);
    TakesEverything(d);
    ReceivedInOrder(Advance(d, TakePending));
  }

  lemma Reached(c: Client, mark: nat)
    requires Reaching(c, mark) && !(c.mutex.Held? && c.mutex.holder == Frame)
    ensures mark <= c.sys.origin + |Received(c)|
  {
  }

  lemma StartsReaching(c: Client)
    requires ClientInvariant(c)
    ensures c.sys.origin <= |c.sys.sh.history|
    ensures c.mutex.Held? && c.mutex.holder == Frame && c.mutex.stage == Checking ==> Reaching(c, |c.sys.sh.history|)
  {
  }

  lemma TakesEverything(c: Client)
    requires Shaped(c.sys.sh) && !(c.mutex.Held? && c.mutex.holder == Frame)
    ensures var d := Advance(c, TakePending);
      d.taken == Received(c) == Received(d) && d.pending == [] && d.sys == c.sys
  {
    hide Act;
  }

  lemma ReceivedInOrder(c: Client)
    requires ClientInvariant(c)
    ensures c.sys.origin <= |c.sys.sh.history| && Received(c) <= c.sys.sh.history[c.sys.origin..]
  {
    assert Received(c) <= c.sys.delivered;
    hide And, SlotOf, Wrap, Invariant, AccountAll;
  }

  // ---------- losses, across producer and client ----------

  /** Whole-run loss accounting across producer and client: while fewer than 2^64 records have been
      attempted, whenever the mutex is free nothing counts as duplicated or reordered, and the gap
      count is exactly the number of records the producer dropped between the first and the last
      record received. */
  lemma GapsAreExactlyTheDrops(c: Client)
    requires ClientInvariant(c) && c.mutex.Free? && Received(c) != []
    requires |c.sys.sh.history| + c.sys.sh.losses < TWO64
    ensures |c.sys.sh.lossBefore| == |c.sys.sh.history| && c.sys.origin < c.sys.position <= |c.sys.sh.history|
    ensures c.tally.duplicates == 0
    ensures c.tally.gaps == c.sys.sh.lossBefore[c.sys.position - 1] - c.sys.sh.lossBefore[c.sys.origin]
    ensures c.tally.first == 1 + c.sys.origin + c.sys.sh.lossBefore[c.sys.origin]
    ensures c.tally.last == c.sys.position + c.sys.sh.lossBefore[c.sys.position - 1]
  {
    var h, l := c.sys.sh.history, c.sys.sh.lossBefore;
    var o, p := c.sys.origin, c.sys.position;
    assert Received(c) + [] == Received(c);
    assert Received(c) == h[o..p];
    NumbersDoNotWrap(c.sys.sh);
    hide Wrap, And, SlotOf, AccountAll, Invariant, Act;
    assert InOrder(h[o..p], o, l[o..p]);
    GapsAreLosses(h[o..p], o, l[o..p]);
  }

  /** The same for whole runs, under every schedule. */
  lemma EveryGapIsADrop(sys: System, events: seq<Event>)
    requires SystemInvariant(sys) && sys.reading.Idle? && sys.delivered == []
    requires var c := AdvanceAll(Begin(sys), events);
      c.mutex.Free? && Received(c) != [] && |c.sys.sh.history| + c.sys.sh.losses < TWO64
    ensures var c := AdvanceAll(Begin(sys), events);
      && |c.sys.sh.lossBefore| == |c.sys.sh.history| && c.sys.origin < c.sys.position <= |c.sys.sh.history|
      && c.tally.duplicates == 0
      && c.tally.gaps + c.sys.sh.lossBefore[c.sys.origin] == c.sys.sh.lossBefore[c.sys.position - 1]
  {
    BeginInvariant(sys);
    EveryScheduleKeeps(Begin(sys), events);
    hide AdvanceAll, ClientInvariant, SystemInvariant;
    GapsAreExactlyTheDrops(AdvanceAll(Begin(sys), events));
  }

  lemma NumbersDoNotWrap(sh: Shared)
    requires RingInvariant(sh) && |sh.history| + sh.losses < TWO64
    ensures |sh.lossBefore| == |sh.history|
    ensures forall i :: 0 <= i < |sh.history| ==> sh.history[i].sequence == 1 + i + sh.lossBefore[i]
    ensures forall i, j :: 0 <= i <= j < |sh.history| ==> sh.lossBefore[i] <= sh.lossBefore[j]
  {
  }
}
