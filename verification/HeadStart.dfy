/** Starting at the head: a consumer that takes the current head as already acknowledged. On a ring
    with room the shared tail catches up after the first new record; on a full ring nothing ever
    moves again. */
module HeadStart {
  import opened Words
  import opened Records
  import opened Protocol
  import opened Reclamation
  import opened Consumer
  import opened AckRuns
  import opened Runs

  // ---------- a full ring: nothing moves again ----------

  /** Full, with everything published counted as acknowledged, and no ACK on its way that the bridge
      could still accept. */
  ghost predicate Stuck(s: System)
  {
    && SystemInvariant(s) && Attached(s) && AllOutdated(s.sh)
    && |s.sh.history| == s.sh.reclaimed + s.sh.capacity && s.sh.acked == |s.sh.history|
  }

  ghost predicate AllOutdated(sh: Shared)
  {
    forall a :: a in InFlight(sh) ==> a.generation < sh.generation
  }

  /** On a full ring with only outdated ACKs in flight, producer and bridge can only count drops and
      rejections. */
  lemma FullStays(sh: Shared, step: Step)
    requires Bounded(sh) && AllOutdated(sh) && |sh.history| == sh.reclaimed + sh.capacity && Internal(step)
    ensures var t := Do(sh, step);
      && t.history == sh.history && t.reclaimed == sh.reclaimed && t.capacity == sh.capacity
      && t.acked == sh.acked && AllOutdated(t) && (InFlight(sh) == [] ==> InFlight(t) == [])
  {
    if sh.producer.Admitted? { TailTestIsExact(sh); }
    if step.Validate? {
      if sh.bridge.Validating? {
        assert InFlight(sh)[0] == sh.bridge.ack;
        assert InFlight(Do(sh, Validate)) == InFlight(sh)[1..];
      }
    } else {
      FlightUnchanged(sh, step);
      hide Wrap, And, SlotOf, LooksFull, Acceptable, InFlight;
    }
  }

  lemma StuckStays(s: System, m: Move)
    requires Stuck(s)
    ensures var t := Act(s, m);
      && Stuck(t) && t.sh.history == s.sh.history && t.sh.reclaimed == s.sh.reclaimed && t.sh.capacity == s.sh.capacity
      && t.delivered == s.delivered && (InFlight(s.sh) == [] ==> InFlight(t.sh) == [])
  {
    MoveKeeps(s, m);
    if m.Environment? {
      if Internal(m.step) { FullStays(s.sh, m.step); }
      hide Do, SystemInvariant, AllOutdated;
    } else {
      assert s.position == |s.sh.history|;
      hide And, SlotOf, Invariant, SystemInvariant, Rejects, AllOutdated;
    }
  }

  lemma {:induction false} StuckForever(s: System, moves: seq<Move>)
    requires Stuck(s)
    ensures var t := ActAll(s, moves);
      && Stuck(t) && t.sh.history == s.sh.history && t.sh.reclaimed == s.sh.reclaimed && t.delivered == s.delivered
      && (InFlight(s.sh) == [] ==> InFlight(t.sh) == [])
    decreases |moves|
  {
    if moves != [] {
      StuckStays(s, moves[0]);
      hide Stuck, Act, InFlight;
      StuckForever(Act(s, moves[0]), moves[1..]);
    }
  }

  /** The head and tail words that the attaching consumer loads show a full ring. */
  predicate LoadsFull(s: System)
    requires s.reading.Attaching?
  {
    Sub64(s.reading.head, s.sh.tail) >= s.sh.capacity
  }

  lemma LoadsFullIsExact(s: System)
    requires SystemInvariant(s) && s.reading.Attaching?
    ensures LoadsFull(s) <==> s.reading.published == s.sh.reclaimed + s.sh.capacity
  {
    CapacityBelowWord(s.sh.capacity);
    SubOfWraps(s.reading.published, s.sh.reclaimed);
  }

  /** Attached at the head of a full ring, under every interleaving for ever after: no record is
      published, none is read, no ACK is sent, and no slot is reclaimed. */
  lemma HeadAttachDeadlocks(s: System, moves: seq<Move>)
    requires SystemInvariant(s) && s.reading.Attaching? && LoadsFull(s)
    ensures var t := ActAll(Act(s, AttachLoadTail(true)), moves);
      && t.sh.history == s.sh.history && t.sh.reclaimed == s.sh.reclaimed < t.sh.acked
      && t.delivered == [] && InFlight(t.sh) == []
  {
    LoadsFullIsExact(s);
    MoveKeeps(s, AttachLoadTail(true));
    CapacityBelowWord(s.sh.capacity);
    var a := Act(s, AttachLoadTail(true));
    assert InFlight(a.sh) == InFlight(s.sh);
    StuckForever(a, moves);
    hide Wrap, And, SlotOf, Invariant, ActAll, Act;
  }

  // ---------- a ring with room: it recovers ----------

  ghost predicate Recovered(s: System)
  {
    Attached(s) && s.sh.reclaimed == s.sh.acked
  }

  /** Some run of a consumer that keeps its generation recovers. */
  ghost predicate CanRecover(s: System)
    requires Shaped(s.sh)
  {
    exists moves: seq<Move> :: Unlearning(moves) && Recovered(ActAll(s, moves))
  }

  /** Some run of a consumer that may also take up a new generation recovers. */
  ghost predicate CanRecoverLearning(s: System)
    requires Shaped(s.sh)
  {
    exists moves: seq<Move> :: Recovered(ActAll(s, moves))
  }

  const FILLER: Record := Record(0, 0, 0, 0, 0, 0, 0, 0)

  /** Unless the ring is full, the producer can always supply a record the consumer has not read. */
  lemma Supplies(s: System) returns (moves: seq<Move>)
    requires SystemInvariant(s) && s.reading.Idle? && InFlight(s.sh) == []
    requires s.position < s.sh.reclaimed + s.sh.capacity && |s.sh.history| + 1 < TWO64
    ensures var t := ActAll(s, moves);
      && t == s.(sh := t.sh) && SystemInvariant(t) && SameBridge(s.sh, t.sh)
      && s.position < |t.sh.history| < TWO64 && Unlearning(moves)
  {
    hide Wrap, And, SlotOf, RingInvariant, ActAll, DoAll, InFlight, Do;
    assert RingInvariant(s.sh) by { HasRing(s); }
    if s.position < |s.sh.history| {
      moves := [];
      assert ActAll(s, []) == s by { NoMoves(s); }
    } else {
      var steps := Finish(FILLER);
      Finishes(s.sh, FILLER);
      RunKeepsRing(s.sh, steps);
      var u := DoAll(s.sh, steps);
      if |u.history| == |s.sh.history| {
        Publishes(u, 1, FILLER);
        DoConcat(s.sh, steps, Publish(1, FILLER));
        steps := steps + Publish(1, FILLER);
      }
      AloneRuns(s, steps);
      moves := Alone(steps);
      EveryInterleavingKeeps(s, moves);
    }
  }

  lemma HasRing(s: System)
    requires SystemInvariant(s)
    ensures RingInvariant(s.sh)
    ensures s.reading.Idle? ==> s.position <= |s.sh.history|
  {
  }

  lemma NoMoves(s: System)
    requires Shaped(s.sh)
    ensures ActAll(s, []) == s
  {
  }

  function Reconnects(n: nat): (steps: seq<Step>)
    ensures forall step :: step in steps ==> step.Reconnect?
  {
    if n == 0 then [] else [Reconnect] + Reconnects(n - 1)
  }

  lemma {:induction false} ReconnectsRun(s: Shared, n: nat)
    requires Shaped(s)
    ensures DoAll(s, Reconnects(n)) == s.(generation := s.generation + n)
    decreases n
  {
    if n > 0 {
      assert Reconnects(n)[1..] == Reconnects(n - 1);
      ReconnectsRun(Do(s, Reconnect), n - 1);
    }
  }

  /** Reconnects bring the bridge to a generation that is ahead of it; a current one needs none. */
  lemma CatchesUp(s: System) returns (moves: seq<Move>)
    requires SystemInvariant(s) && s.generation >= s.sh.generation
    ensures var t := ActAll(s, moves);
      Unlearning(moves) && SystemInvariant(t) && t == s.(sh := s.sh.(generation := s.generation))
  {
    assert Shaped(s.sh);
    hide ActAll, DoAll, SystemInvariant, Do;
    var steps := Reconnects(s.generation - s.sh.generation);
    moves := Alone(steps);
    AloneRuns(s, steps);
    ReconnectsRun(s.sh, s.generation - s.sh.generation);
    EveryInterleavingKeeps(s, moves);
  }

  /** With nothing in flight, room beyond the cursor and a generation not behind the bridge's, some run
      brings the shared tail all the way to the acknowledged tail. */
  lemma RoomRecovers(s: System) returns (moves: seq<Move>)
    requires SystemInvariant(s) && s.reading.Idle? && InFlight(s.sh) == [] && s.generation >= s.sh.generation
    requires s.position < s.sh.reclaimed + s.sh.capacity && |s.sh.history| + 1 < TWO64
    ensures Unlearning(moves) && Recovered(ActAll(s, moves))
  {
    assert Shaped(s.sh);
    hide SystemInvariant, ActAll, Recovered, SameBridge;
    var supply := Supplies(s);
    var a := ActAll(s, supply);
    Undisturbed(s, a);
    var catchUp := CatchesUp(a);
    var b := ActAll(a, catchUp);
    assert InFlight(b.sh) == [];
    OneRecordRecovers(b);
    ActConcat(a, catchUp, READ_AND_RECLAIM);
    ActConcat(s, supply, catchUp + READ_AND_RECLAIM);
    moves := supply + (catchUp + READ_AND_RECLAIM);
  }

  lemma Undisturbed(s: System, a: System)
    requires SameBridge(s.sh, a.sh)
    ensures InFlight(a.sh) == InFlight(s.sh) && a.sh.generation == s.sh.generation
  {
  }

  const READ_AND_RECLAIM: seq<Move> := ReadOne(1) + ACKNOWLEDGE_AND_DELIVER

  /** One record read, acknowledged and accepted. */
  lemma OneRecordRecovers(s: System)
    requires SystemInvariant(s) && s.reading.Idle? && InFlight(s.sh) == [] && s.generation == s.sh.generation
    requires s.position < |s.sh.history| < TWO64
    ensures Unlearning(READ_AND_RECLAIM) && Recovered(ActAll(s, READ_AND_RECLAIM))
  {
    assert Shaped(s.sh);
    AckedBehind(s);
    hide SystemInvariant, ActAll, Wrap;
    ReadsNext(s);
    AckGoesThrough(ActAll(s, ReadOne(1)));
    ActConcat(s, ReadOne(1), ACKNOWLEDGE_AND_DELIVER);
  }

  lemma AckedBehind(s: System)
    requires SystemInvariant(s) && s.reading.Idle?
    ensures s.sh.acked <= s.position
  {
  }

  /** The exact condition, on what the attaching consumer has at hand: before 2^64, the shared tail can
      still reach the acknowledged tail if and only if nothing lies between the two loaded words, or
      they do not show a full ring and the generation is current. (The bridge issues generations, so
      one that is not behind its own is its own.) */
  lemma HeadAttachRecoversExactly(s: System)
    requires SystemInvariant(s) && s.reading.Attaching? && |s.sh.history| + 1 < TWO64
    ensures CanRecover(Act(s, AttachLoadTail(true))) <==>
            s.reading.head == s.sh.tail || (!LoadsFull(s) && s.generation >= s.sh.generation)
  {
    var a := Act(s, AttachLoadTail(true));
    LoadsFullIsExact(s);
    SameWords(s);
    MoveKeeps(s, AttachLoadTail(true));
    AttachedAtHead(s);
    hide Act, ActAll, SystemInvariant, LoadsFull, InFlight;
    if s.reading.published == s.sh.reclaimed {
      NoMoves(a);
      assert Unlearning([]) && Recovered(ActAll(a, []));
    } else if LoadsFull(s) {
      forall moves: seq<Move> ensures !Recovered(ActAll(a, moves)) {
        HeadAttachDeadlocks(s, moves);
      }
    } else if s.generation < s.sh.generation {
      forall moves: seq<Move> | Unlearning(moves) ensures !Recovered(ActAll(a, moves)) {
        OutdatedAttachNeverRecovers(s, moves);
      }
    } else {
      var moves := RoomRecovers(a);
    }
  }

  lemma SameWords(s: System)
    requires SystemInvariant(s) && s.reading.Attaching?
    ensures s.reading.head == s.sh.tail <==> s.reading.published == s.sh.reclaimed
  {
    CapacityBelowWord(s.sh.capacity);
    if s.reading.head == s.sh.tail {
      SameWord(s.sh.reclaimed, s.reading.published);
    }
  }

  lemma OutdatedAttachNeverRecovers(s: System, moves: seq<Move>)
    requires SystemInvariant(s) && s.reading.Attaching? && s.sh.reclaimed < s.reading.published
    requires s.generation < s.sh.generation && Unlearning(moves)
    ensures !Recovered(ActAll(Act(s, AttachLoadTail(true)), moves))
  {
    var a := Act(s, AttachLoadTail(true));
    MoveKeeps(s, AttachLoadTail(true));
    AttachedAtHead(s);
    assert Outdated(a) && a.origin == s.reading.published;
    hide Act, ActAll, InFlight, Invariant, Outdated;
    OutdatedForever(a, moves);
    EveryInterleavingKeeps(a, moves);
    AckedStaysAbove(a, moves);
  }

  lemma {:induction false} AckedStaysAbove(s: System, moves: seq<Move>)
    requires SystemInvariant(s) && Attached(s)
    ensures ActAll(s, moves).sh.acked >= s.origin
    decreases |moves|
  {
    if moves != [] {
      MoveKeeps(s, moves[0]);
      OriginStays(s, moves[0]);
      StaysAttached(s, moves[0]);
      hide Act, SystemInvariant;
      AckedStaysAbove(Act(s, moves[0]), moves[1..]);
    }
  }

  lemma StaysAttached(s: System, m: Move)
    requires Shaped(s.sh) && Attached(s)
    ensures Attached(Act(s, m))
  {
    hide Wrap, And, SlotOf, Rejects, Do;
  }

  /** A consumer that does take up a new generation recovers exactly when the ring was not full. */
  lemma HeadAttachRecoversLearning(s: System)
    requires SystemInvariant(s) && s.reading.Attaching? && |s.sh.history| + 1 < TWO64
    ensures CanRecoverLearning(Act(s, AttachLoadTail(true))) <==> !LoadsFull(s)
  {
    var a := Act(s, AttachLoadTail(true));
    LoadsFullIsExact(s);
    MoveKeeps(s, AttachLoadTail(true));
    AttachedAtHead(s);
    hide Act, ActAll, SystemInvariant, LoadsFull, InFlight;
    if LoadsFull(s) {
      forall moves: seq<Move> ensures !Recovered(ActAll(a, moves)) {
        HeadAttachDeadlocks(s, moves);
      }
    } else {
      var learn := LearnGeneration(a.sh.generation);
      Learns(a);
      MoveKeeps(a, learn);
      var moves := RoomRecovers(Act(a, learn));
      ActOne(a, learn);
      ActConcat(a, [learn], moves);
    }
  }

  lemma Learns(s: System)
    requires Shaped(s.sh)
    ensures Act(s, LearnGeneration(s.sh.generation)) == s.(generation := s.sh.generation)
  {
  }

  lemma AttachedAtHead(s: System)
    requires SystemInvariant(s) && s.reading.Attaching?
    ensures var a := Act(s, AttachLoadTail(true));
      && a.reading.Idle? && InFlight(a.sh) == [] && a.position == a.sh.acked == s.reading.published
      && a.sh.history == s.sh.history && a.sh.reclaimed == s.sh.reclaimed && a.sh.capacity == s.sh.capacity
      && s.reading.published <= s.sh.reclaimed + s.sh.capacity
  {
    assert InFlight(Act(s, AttachLoadTail(true)).sh) == InFlight(s.sh);
    hide Wrap, And, SlotOf;
  }

  // ---------- the full ring is reachable ----------

  /** For every capacity, a producer that fills the ring before the consumer attaches leads to the
      deadlock. */
  lemma FullAttachIsReachable(capacity: nat, slots: seq<Record>, generation: nat, payload: Record)
    returns (moves: seq<Move>)
    requires ValidCapacity(capacity) && |slots| == capacity
    ensures var s := ActAll(Start(Initial(capacity, slots, generation)), moves);
      SystemInvariant(s) && s.reading.Attaching? && LoadsFull(s) && |s.sh.history| == capacity
  {
    var s := Start(Initial(capacity, slots, generation));
    StartInvariant(capacity, slots, generation);
    var steps := Publish(capacity, payload);
    assert RingInvariant(s.sh);
    hide Wrap, And, SlotOf, ActAll, DoAll, RingInvariant, InFlight;
    Publishes(s.sh, capacity, payload);
    AloneRuns(s, steps);
    EveryInterleavingKeeps(s, Alone(steps));
    var a := ActAll(s, Alone(steps));
    MoveKeeps(a, AttachLoadHead);
    ActOne(a, AttachLoadHead);
    moves := Alone(steps) + [AttachLoadHead];
    ActConcat(s, Alone(steps), [AttachLoadHead]);
    LoadsFullIsExact(Act(a, AttachLoadHead));
  }
}
