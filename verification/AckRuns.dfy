/** Whole runs of a protocol-following consumer without a device reconnect: no ACK is ever
    rejected, and the shared tail follows the acknowledged tail. */
module AckRuns {
  import opened Words
  import opened Records
  import opened Protocol
  import opened Reclamation
  import opened Consumer

  /** A move of a run in which the device never reconnects. */
  predicate Steady(m: Move)
  {
    !m.LearnGeneration? && !(m.Environment? && m.step.Reconnect?)
  }

  /** Consumer, bridge and every ACK agree on the generation, and none was ever rejected. */
  ghost predicate Agreed(s: System)
  {
    s.generation == s.sh.generation && CurrentGeneration(s.sh) && s.sh.invalidAcknowledgements == 0
  }

  lemma StepKeepsAgreed(s: System, step: Step)
    requires SystemInvariant(s) && Agreed(s) && Internal(step) && !step.Reconnect? && |s.sh.history| < TWO64
    ensures Agreed(Act(s, Environment(step)))
  {
    hide Wrap, And, SlotOf, Invariant, CurrentGeneration;
    StepKeepsGeneration(s.sh, step);
    if step.Validate? && s.sh.bridge.Validating? {
      EveryAckAccepted(s.sh);
    }
    StepTouches(s.sh, step);
    hide Do;
  }

  lemma StepTouches(sh: Shared, step: Step)
    requires Shaped(sh) && Internal(step) && !step.Reconnect?
    ensures Do(sh, step).generation == sh.generation
    ensures !(step.Validate? && sh.bridge.Validating?) ==>
      Do(sh, step).invalidAcknowledgements == sh.invalidAcknowledgements
  {
    hide Wrap, And, SlotOf, LooksFull, Acceptable;
  }

  lemma SendKeepsGeneration(sh: Shared, word: U64, position: nat)
    requires CurrentGeneration(sh)
    ensures CurrentGeneration(SendAck(sh, sh.generation, word, position))
  {
    assert InFlight(SendAck(sh, sh.generation, word, position))
        == InFlight(sh) + [Ack(sh.generation, word, position)];
  }

  lemma MoveKeepsAgreed(s: System, m: Move)
    requires SystemInvariant(s) && Agreed(s) && Steady(m) && |s.sh.history| < TWO64
    ensures Agreed(Act(s, m))
  {
    if m.Environment? {
      if Internal(m.step) { StepKeepsAgreed(s, m.step); }
    } else if m.Acknowledge? {
      SendKeepsGeneration(s.sh, s.localTail, s.position);
      hide Wrap, And, SlotOf, CurrentGeneration, Invariant;
    } else {
      QuietMove(s, m);
    }
  }

  /** The other moves send nothing. */
  lemma QuietMove(s: System, m: Move)
    requires Shaped(s.sh) && !m.Environment? && !m.Acknowledge? && Steady(m)
    ensures var t := Act(s, m);
      && t.generation == s.generation && t.sh.generation == s.sh.generation
      && t.sh.invalidAcknowledgements == s.sh.invalidAcknowledgements && InFlight(t.sh) == InFlight(s.sh)
  {
    hide Wrap, And, SlotOf, Rejects;
  }

  lemma MoveGrowsHistory(s: System, m: Move)
    requires SystemInvariant(s)
    ensures s.sh.history <= Act(s, m).sh.history
  {
    if m.Environment? && Internal(m.step) { InternalStepRely(s.sh, m.step); }
    hide Wrap, And, SlotOf, Rejects, Do, SystemInvariant;
  }

  lemma {:induction false} RunGrowsHistory(s: System, moves: seq<Move>)
    requires SystemInvariant(s)
    ensures s.sh.history <= ActAll(s, moves).sh.history
    decreases |moves|
  {
    if moves != [] {
      MoveKeeps(s, moves[0]);
      MoveGrowsHistory(s, moves[0]);
      RunGrowsHistory(Act(s, moves[0]), moves[1..]);
    }
  }

  /** In a run without a reconnect that publishes fewer than 2^64 records, the bridge rejects no
      ACK, under every interleaving. */
  lemma {:induction false} NoAckIsRejected(s: System, moves: seq<Move>)
    requires SystemInvariant(s) && Agreed(s)
    requires forall m :: m in moves ==> Steady(m)
    requires |ActAll(s, moves).sh.history| < TWO64
    ensures Agreed(ActAll(s, moves))
    decreases |moves|
  {
    if moves != [] {
      var t := Act(s, moves[0]);
      RunGrowsHistory(s, moves);
      MoveKeeps(s, moves[0]);
      MoveKeepsAgreed(s, moves[0]);
      hide Act, SystemInvariant, Agreed, Steady;
      NoAckIsRejected(t, moves[1..]);
    }
  }

  lemma NoAckIsEverRejected(capacity: nat, slots: seq<Record>, generation: nat, moves: seq<Move>)
    requires ValidCapacity(capacity) && |slots| == capacity
    requires forall m :: m in moves ==> Steady(m)
    requires |ActAll(Start(Initial(capacity, slots, generation)), moves).sh.history| < TWO64
    ensures ActAll(Start(Initial(capacity, slots, generation)), moves).sh.invalidAcknowledgements == 0
  {
    StartInvariant(capacity, slots, generation);
    NoAckIsRejected(Start(Initial(capacity, slots, generation)), moves);
  }

  // ---------- where the tail ends up ----------

  /** Settled is kept by every move of such a run, and an ACK establishes it; so a consumer that
      began at the shared tail is settled throughout, one that began at the head from its first ACK. */
  lemma MoveKeepsSettled(s: System, m: Move)
    requires SystemInvariant(s) && Agreed(s) && Steady(m) && |s.sh.history| < TWO64
    requires Settled(s.sh) && Attached(s)
    ensures Settled(Act(s, m).sh) && Attached(Act(s, m))
  {
    if m.Environment? {
      if Internal(m.step) {
        StepKeepsSettled(s.sh, m.step);
        hide Do, Settled, Invariant;
      }
    } else if m.Acknowledge? {
      SendSettles(s.sh, s.generation, s.localTail, s.position);
      hide Wrap, And, SlotOf, Settled, Invariant;
    } else {
      QuietMove(s, m);
      AttachedMove(s, m);
      hide Act, SystemInvariant;
    }
  }

  /** Either no ACK has been sent since the consumer attached, or the newest one is still on its way
      or has been acted on. */
  ghost predicate Progressing(s: System)
  {
    Attached(s) && (s.sh.acked == s.origin || Settled(s.sh))
  }

  lemma MoveKeepsProgressing(s: System, m: Move)
    requires SystemInvariant(s) && Agreed(s) && Steady(m) && |s.sh.history| < TWO64
    requires Progressing(s)
    ensures Progressing(Act(s, m)) && Act(s, m).origin == s.origin
  {
    if Settled(s.sh) {
      MoveKeepsSettled(s, m);
      OriginStays(s, m);
      hide Act, SystemInvariant, Settled;
    } else if m.Acknowledge? {
      SendSettles(s.sh, s.generation, s.localTail, s.position);
      hide And, SlotOf, Settled, Invariant;
    } else {
      if m.Environment? && Internal(m.step) { InternalStepRely(s.sh, m.step); }
      hide Wrap, And, SlotOf, Settled, Invariant, Rejects, Do;
    }
  }

  lemma OriginStays(s: System, m: Move)
    requires Shaped(s.sh) && Attached(s)
    ensures Act(s, m).origin == s.origin
  {
    hide Wrap, And, SlotOf, Rejects, Do;
  }

  lemma {:induction false} RunKeepsProgressing(s: System, moves: seq<Move>)
    requires SystemInvariant(s) && Agreed(s) && Progressing(s)
    requires forall m :: m in moves ==> Steady(m)
    requires |ActAll(s, moves).sh.history| < TWO64
    ensures Progressing(ActAll(s, moves)) && ActAll(s, moves).origin == s.origin
    decreases |moves|
  {
    if moves != [] {
      var t := Act(s, moves[0]);
      RunGrowsHistory(s, moves);
      MoveKeeps(s, moves[0]);
      MoveKeepsAgreed(s, moves[0]);
      MoveKeepsProgressing(s, moves[0]);
      hide Act, SystemInvariant, Agreed, Steady, Progressing;
      RunKeepsProgressing(t, moves[1..]);
    }
  }

  /** Reclamation makes progress, wherever the consumer attached: after any such run in which it has
      acknowledged something, or after a start at the shared tail, the bridge on its own works off the
      channel, accepting everything, and the shared tail reaches the last position acknowledged. */
  lemma TailReachesTheLastAck(s: System, atHead: bool, moves: seq<Move>)
    requires SystemInvariant(s) && Agreed(s) && s.reading.Attaching?
    requires forall m :: m in moves ==> Steady(m)
    requires var t := ActAll(Act(s, AttachLoadTail(atHead)), moves); t.sh.bridge.Listening? && |t.sh.history| < TWO64
    ensures var t := ActAll(Act(s, AttachLoadTail(atHead)), moves);
      var u := DoAll(t.sh, Deliver(|t.sh.channel|));
      t.sh.acked > t.origin || !atHead ==>
        u.channel == [] && u.reclaimed == t.sh.acked && u.tail == Wrap(t.sh.acked) && u.invalidAcknowledgements == 0
  {
    var a := Act(s, AttachLoadTail(atHead));
    MoveKeeps(s, AttachLoadTail(atHead));
    RunGrowsHistory(a, moves);
    AttachGrows(s, atHead);
    MoveKeepsAgreed(s, AttachLoadTail(atHead));
    AttachSettles(s, atHead);
    hide Act, ActAll, Wrap, And, SlotOf, Settled, CurrentGeneration, Invariant, Steady, Deliver, DoAll;
    RunKeepsProgressing(a, moves);
    NoAckIsRejected(a, moves);
    EveryInterleavingKeeps(a, moves);
    var t := ActAll(a, moves);
    if !atHead && t.sh.acked == t.origin {
      RunKeepsSettled(a, moves);
    }
    if Settled(t.sh) {
      ReclamationCatchesUp(t.sh);
    }
  }

  lemma AttachGrows(s: System, atHead: bool)
    requires SystemInvariant(s) && s.reading.Attaching?
    ensures var a := Act(s, AttachLoadTail(atHead));
      a.sh.history == s.sh.history && Attached(a) && a.sh.acked == a.origin
  {
    hide Wrap, And, SlotOf;
  }

  lemma {:induction false} RunKeepsSettled(s: System, moves: seq<Move>)
    requires SystemInvariant(s) && Agreed(s) && Settled(s.sh) && Attached(s)
    requires forall m :: m in moves ==> Steady(m)
    requires |ActAll(s, moves).sh.history| < TWO64
    ensures Settled(ActAll(s, moves).sh)
    decreases |moves|
  {
    if moves != [] {
      var t := Act(s, moves[0]);
      RunGrowsHistory(s, moves);
      MoveKeeps(s, moves[0]);
      MoveKeepsAgreed(s, moves[0]);
      MoveKeepsSettled(s, moves[0]);
      hide Act, SystemInvariant, Agreed, Steady, Settled, Attached;
      RunKeepsSettled(t, moves[1..]);
    }
  }

  lemma AttachedMove(s: System, m: Move)
    requires Shaped(s.sh) && Attached(s) && !m.Environment? && !m.Acknowledge?
    ensures var t := Act(s, m); Attached(t) && t.sh == s.sh
  {
    hide Wrap, And, SlotOf, Rejects;
  }

  /** Attaching at the shared tail is settled at once; attaching at the head is settled at once
      exactly if the head was not ahead of the tail. */
  lemma AttachSettles(s: System, atHead: bool)
    requires SystemInvariant(s) && s.reading.Attaching?
    ensures Settled(Act(s, AttachLoadTail(atHead)).sh) <==> !atHead || s.reading.published == s.sh.reclaimed
  {
    var t := Act(s, AttachLoadTail(atHead));
    assert InFlight(t.sh) == InFlight(s.sh);
  }

  // ---------- an outdated generation ----------

  /** The consumer's generation, and that of every ACK on its way, is behind the bridge's. */
  ghost predicate Outdated(s: System)
  {
    s.generation < s.sh.generation && forall a :: a in InFlight(s.sh) ==> a.generation < s.sh.generation
  }

  /** A run in which the consumer never takes up a new generation. */
  predicate Unlearning(moves: seq<Move>)
  {
    forall m :: m in moves ==> !m.LearnGeneration?
  }

  lemma StepKeepsOutdated(s: System, step: Step)
    requires Shaped(s.sh) && Outdated(s) && Internal(step)
    ensures var t := Act(s, Environment(step));
      Outdated(t) && t.sh.reclaimed == s.sh.reclaimed && t.sh.tail == s.sh.tail && t.sh.capacity == s.sh.capacity
  {
    if step.Validate? {
      if s.sh.bridge.Validating? {
        assert InFlight(s.sh)[0] == s.sh.bridge.ack;
        assert InFlight(Do(s.sh, Validate)) == InFlight(s.sh)[1..];
      }
    } else {
      FlightUnchanged(s.sh, step);
      hide Wrap, Sub64, And, SlotOf, InFlight, LooksFull, Acceptable;
    }
  }

  lemma MoveKeepsOutdated(s: System, m: Move)
    requires Shaped(s.sh) && Outdated(s) && !m.LearnGeneration?
    ensures var t := Act(s, m);
      Outdated(t) && t.sh.reclaimed == s.sh.reclaimed && t.sh.tail == s.sh.tail && t.sh.capacity == s.sh.capacity
  {
    if m.Environment? {
      if Internal(m.step) { StepKeepsOutdated(s, m.step); }
    } else if m.Acknowledge? {
      assert InFlight(SendAck(s.sh, s.generation, s.localTail, s.position))
          == InFlight(s.sh) + [Ack(s.generation, s.localTail, s.position)];
    } else {
      QuietMove(s, m);
      TailStays(s, m);
      hide Act;
    }
  }

  lemma TailStays(s: System, m: Move)
    requires Shaped(s.sh) && !m.Environment?
    ensures var t := Act(s, m);
      t.sh.reclaimed == s.sh.reclaimed && t.sh.tail == s.sh.tail && t.sh.capacity == s.sh.capacity
  {
    hide Wrap, And, SlotOf, Rejects;
  }

  /** Once the bridge's generation has moved ahead, a consumer that never takes up the new one has no
      ACK accepted ever again, under every interleaving: the shared tail stands still for good, and at
      most the room left in the ring is ever published. */
  lemma {:induction false} OutdatedForever(s: System, moves: seq<Move>)
    requires SystemInvariant(s) && Outdated(s) && Unlearning(moves)
    ensures var t := ActAll(s, moves);
      && Outdated(t) && t.sh.reclaimed == s.sh.reclaimed && t.sh.tail == s.sh.tail
      && |t.sh.history| <= s.sh.reclaimed + s.sh.capacity
    decreases |moves|
  {
    if moves == [] {
      InvariantOf(s);
    } else {
      assert moves[0] in moves && forall m :: m in moves[1..] ==> m in moves;
      MoveKeeps(s, moves[0]);
      MoveKeepsOutdated(s, moves[0]);
      hide Act, SystemInvariant, Outdated;
      OutdatedForever(Act(s, moves[0]), moves[1..]);
    }
  }

  lemma InvariantOf(s: System)
    requires SystemInvariant(s)
    ensures |s.sh.history| <= s.sh.reclaimed + s.sh.capacity
  {
  }
}
