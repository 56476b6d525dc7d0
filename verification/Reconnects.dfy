/** What one device reconnect does to reclamation: the ACKs on their way become worthless, and a consumer
    that has nothing more to acknowledge never sends another. */
module Reconnects {
  import opened Words
  import opened Records
  import opened Protocol
  import opened Reclamation
  import opened Consumer
  import opened AckRuns
  import opened Runs
  import opened HeadStart

  /** The ring is full, the consumer has read and acknowledged everything, and the ACKs that would
      empty it are on their way, of the present generation or an older one. */
  ghost predicate OnlyAcksMissing(s: System)
  {
    && SystemInvariant(s) && Attached(s)
    && |s.sh.history| == s.sh.reclaimed + s.sh.capacity && s.sh.acked == |s.sh.history|
    && forall a :: a in InFlight(s.sh) ==> a.generation <= s.sh.generation
  }

  /** A reconnect at that moment stops the stream for good, under every interleaving, even if the
      consumer takes up the new generation: no record is ever published, read or reclaimed again. */
  lemma ReconnectStopsTheStream(s: System, moves: seq<Move>)
    requires OnlyAcksMissing(s)
    ensures var t := ActAll(Act(s, Environment(Reconnect)), moves);
      && t.sh.history == s.sh.history && t.sh.reclaimed == s.sh.reclaimed < t.sh.acked && t.delivered == s.delivered
  {
    var a := Act(s, Environment(Reconnect));
    MoveKeeps(s, Environment(Reconnect));
    FlightUnchanged(s.sh, Reconnect);
    CapacityBelowWord(s.sh.capacity);
    hide SystemInvariant, InFlight, ActAll;
    assert Stuck(a);
    StuckForever(a, moves);
  }

  /** Without the reconnect the same state recovers: the bridge alone empties the ring. */
  lemma WithoutItTheBridgeRecovers(s: System)
    requires OnlyAcksMissing(s) && CurrentGeneration(s.sh) && Settled(s.sh)
    requires s.sh.bridge.Listening? && |s.sh.history| < TWO64
    ensures DoAll(s.sh, Deliver(|s.sh.channel|)).reclaimed == |s.sh.history|
  {
    ReclamationCatchesUp(s.sh);
  }

  /** For every capacity such a state is reached from the initial mapping: attach at the shared tail,
      let the ring fill, read everything, acknowledge it. */
  lemma OnlyAcksMissingIsReachable(capacity: nat, slots: seq<Record>, generation: nat, payload: Record)
    returns (moves: seq<Move>)
    requires ValidCapacity(capacity) && |slots| == capacity
    ensures var s := ActAll(Start(Initial(capacity, slots, generation)), moves);
      && OnlyAcksMissing(s) && CurrentGeneration(s.sh) && Settled(s.sh) && s.sh.bridge.Listening?
      && s.generation == s.sh.generation && |s.sh.history| == s.sh.capacity == capacity
      && s.sh.producer.Ready? && s.sh.losses == 0
      && (forall k :: 0 <= k < capacity ==> s.sh.history[k].timestamp == payload.timestamp)
  {
    var start := Start(Initial(capacity, slots, generation));
    CapacityBelowWord(capacity);
    var a := Attaches(capacity, slots, generation);
    var b := Fills(a, payload);
    hide ActAll, SystemInvariant, Wrap, And, SlotOf, Invariant;
    ReadsMany(b, capacity);
    var c := ActAll(b, ReadMany(capacity));
    LastAck(c);
    ActOne(c, Acknowledge);
    ActConcat(b, ReadMany(capacity), [Acknowledge]);
    ActConcat(a, Alone(Publish(capacity, payload)), ReadMany(capacity) + [Acknowledge]);
    moves := [AttachLoadHead, AttachLoadTail(false)]
      + (Alone(Publish(capacity, payload)) + (ReadMany(capacity) + [Acknowledge]));
    ActConcat(start, [AttachLoadHead, AttachLoadTail(false)],
      Alone(Publish(capacity, payload)) + (ReadMany(capacity) + [Acknowledge]));
  }

  lemma Fills(s: System, payload: Record) returns (t: System)
    requires SystemInvariant(s) && s.sh == Initial(s.sh.capacity, s.sh.slots, s.sh.generation)
    requires s.reading.Idle? && s.position == 0
    ensures t == ActAll(s, Alone(Publish(s.sh.capacity, payload)))
    ensures SystemInvariant(t) && t.reading.Idle? && t.position == 0 && t.generation == s.generation
    ensures SameBridge(s.sh, t.sh) && InFlight(t.sh) == [] && t.sh.bridge.Listening?
    ensures |t.sh.history| == t.sh.capacity && t.sh.reclaimed == 0 && t.sh.acked == 0
    ensures t.sh.producer.Ready? && t.sh.losses == 0
    ensures forall k :: 0 <= k < |t.sh.history| ==> t.sh.history[k].timestamp == payload.timestamp
  {
    var n := s.sh.capacity;
    assert InFlight(s.sh) == [] && Shaped(s.sh);
    assert RingInvariant(s.sh);
    hide ActAll, DoAll, SystemInvariant, RingInvariant, Wrap, And, SlotOf;
    Publishes(s.sh, n, payload);
    AloneRuns(s, Publish(n, payload));
    EveryInterleavingKeeps(s, Alone(Publish(n, payload)));
    t := ActAll(s, Alone(Publish(n, payload)));
  }

  /** A full ring, read to the end: the one ACK covers it all. */
  lemma LastAck(s: System)
    requires SystemInvariant(s) && s.reading.Idle? && InFlight(s.sh) == [] && s.generation == s.sh.generation
    requires s.sh.reclaimed == s.sh.acked == 0 < s.position == |s.sh.history| == s.sh.capacity < TWO64
    ensures var t := Act(s, Acknowledge);
      && OnlyAcksMissing(t) && CurrentGeneration(t.sh) && Settled(t.sh) && t.sh.bridge.Listening?
      && t.generation == t.sh.generation && t.sh.history == s.sh.history && t.sh.capacity == s.sh.capacity
      && t.sh.producer == s.sh.producer && t.sh.losses == s.sh.losses
  {
    MoveKeeps(s, Acknowledge);
    SendIsSent(s);
    SendSettles(s.sh, s.generation, s.localTail, s.position);
    hide SystemInvariant, Wrap, And, SlotOf, Settled;
  }

  // ---------- a consumer that keeps its generation ----------

  /** No generation in use is ahead of the bridge's. */
  ghost predicate Issued(s: System)
  {
    s.generation <= s.sh.generation && forall a :: a in InFlight(s.sh) ==> a.generation <= s.sh.generation
  }

  lemma MoveKeepsIssued(s: System, m: Move)
    requires Shaped(s.sh) && Issued(s) && !m.LearnGeneration?
    ensures Issued(Act(s, m))
  {
    if m.Environment? {
      if Internal(m.step) { StepKeepsIssued(s, m.step); }
    } else if m.Acknowledge? {
      assert InFlight(SendAck(s.sh, s.generation, s.localTail, s.position))
          == InFlight(s.sh) + [Ack(s.generation, s.localTail, s.position)];
    } else {
      QuietMove(s, m);
      hide Act;
    }
  }

  lemma StepKeepsIssued(s: System, step: Step)
    requires Shaped(s.sh) && Issued(s) && Internal(step)
    ensures Issued(Act(s, Environment(step)))
  {
    if step.Validate? {
      if s.sh.bridge.Validating? {
        assert InFlight(Do(s.sh, Validate)) == InFlight(s.sh)[1..];
      }
    } else {
      FlightUnchanged(s.sh, step);
      hide Wrap, Sub64, And, SlotOf, InFlight, LooksFull, Acceptable;
    }
  }

  lemma {:induction false} RunKeepsIssued(s: System, moves: seq<Move>)
    requires Shaped(s.sh) && Issued(s) && Unlearning(moves)
    ensures Issued(ActAll(s, moves))
    decreases |moves|
  {
    if moves != [] {
      assert moves[0] in moves && forall m :: m in moves[1..] ==> m in moves;
      MoveKeepsIssued(s, moves[0]);
      hide Act, Issued;
      RunKeepsIssued(Act(s, moves[0]), moves[1..]);
    }
  }

  /** For a consumer that never takes up a new generation, the first reconnect is the end of
      reclamation: whatever happened before it and whatever happens after it, the shared tail stays
      where the reconnect found it, and at most the room left in the ring is ever published. */
  lemma ReconnectEndsReclamation(capacity: nat, slots: seq<Record>, generation: nat,
                                 before: seq<Move>, after: seq<Move>)
    requires ValidCapacity(capacity) && |slots| == capacity && Unlearning(before) && Unlearning(after)
    ensures var s := ActAll(Start(Initial(capacity, slots, generation)), before);
      var t := ActAll(Act(s, Environment(Reconnect)), after);
      t.sh.reclaimed == s.sh.reclaimed && t.sh.tail == s.sh.tail && |t.sh.history| <= s.sh.reclaimed + s.sh.capacity
  {
    StartInvariant(capacity, slots, generation);
    var start := Start(Initial(capacity, slots, generation));
    assert InFlight(start.sh) == [];
    hide ActAll, SystemInvariant, InFlight, ValidCapacity;
    EveryInterleavingKeeps(start, before);
    RunKeepsIssued(start, before);
    var s := ActAll(start, before);
    MoveKeeps(s, Environment(Reconnect));
    FlightUnchanged(s.sh, Reconnect);
    assert Outdated(Act(s, Environment(Reconnect)));
    OutdatedForever(Act(s, Environment(Reconnect)), after);
  }
}
