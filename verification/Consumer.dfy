/** The read-only consumer, its private cursor, and every interleaving with producer and bridge.

    The consumer never writes shared memory. It attaches, takes snapshots slot by slot, commits
    its private tail, and sends ACKs; between any two of its moves the producer and the bridge
    may take any number of steps. */
module Consumer {
  import opened Words
  import opened Records
  import opened Protocol
  import opened Reclamation

  datatype Reading =
    | Detached
    | Attaching(head: U64, published: nat)           // head loaded, tail not yet
    | Idle
    | Copying(available: nat, out: seq<Record>)      // head loaded and tested, |out| slots copied

  datatype System = System(
    sh: Shared,
    generation: nat,
    localTail: U64,
    acknowledgedTail: U64,
    reading: Reading,
    origin: nat,
    position: nat,
    delivered: seq<Record>)

  datatype Move =
    | Environment(step: Step)
    | AttachLoadHead
    | AttachLoadTail(beginAtCurrentHead: bool)
    | BeginSnapshot(maxRecords: nat)
    | CopySlot
    | CommitSnapshot
    | Acknowledge
    | LearnGeneration(generation: nat)

  /** The sanity test on a loaded head; rejecting it changes nothing. */
  predicate Rejects(localTail: U64, head: U64, capacity: nat)
  {
    localTail > head || head - localTail > capacity
  }

  function Act(s: System, m: Move): (t: System)
    requires Shaped(s.sh)
    ensures Shaped(t.sh)
  {
    match m
    case Environment(step) =>
      if !Internal(step) then s else s.(sh := Do(s.sh, step))
    case AttachLoadHead =>
      if !s.reading.Detached? then s else s.(reading := Attaching(s.sh.head, |s.sh.history|))
    case AttachLoadTail(atHead) =>
      if !s.reading.Attaching? then s else
      var word := if atHead then s.reading.head else s.sh.tail;
      var start := if atHead then s.reading.published else s.sh.reclaimed;
      s.(reading := Idle, localTail := word, acknowledgedTail := word,
         origin := start, position := start, delivered := [], sh := s.sh.(acked := start))
    case BeginSnapshot(maxRecords) =>
      if !s.reading.Idle? || Rejects(s.localTail, s.sh.head, s.sh.capacity) then s else
      s.(reading := Copying(Min(s.sh.head - s.localTail, maxRecords), []))
    case CopySlot =>
      if !s.reading.Copying? || |s.reading.out| >= s.reading.available then s else
      var word := Wrap(s.localTail + |s.reading.out|);
      s.(reading := s.reading.(out := s.reading.out + [s.sh.slots[SlotOf(s.sh.capacity, word)]]))
    case CommitSnapshot =>
      if !s.reading.Copying? || |s.reading.out| < s.reading.available then s else
      s.(reading := Idle,
         localTail := Wrap(s.localTail + s.reading.available),
         position := s.position + s.reading.available,
         delivered := s.delivered + s.reading.out)
    case Acknowledge =>
      if !s.reading.Idle? || s.localTail == s.acknowledgedTail then s else
      s.(sh := SendAck(s.sh, s.generation, s.localTail, s.position), acknowledgedTail := s.localTail)
    case LearnGeneration(g) =>
      s.(generation := g)
  }

  function ActAll(s: System, moves: seq<Move>): (t: System)
    requires Shaped(s.sh)
    ensures Shaped(t.sh)
    decreases |moves|
  {
    if moves == [] then s else ActAll(Act(s, moves[0]), moves[1..])
  }

  function Start(sh: Shared): System
  {
    System(sh, sh.generation, 0, 0, Detached, 0, 0, [])
  }

  predicate Attached(s: System)
  {
    s.reading.Idle? || s.reading.Copying?
  }

  ghost predicate CursorInvariant(s: System)
    requires Shaped(s.sh)
  {
    var h := s.sh.history;
    && s.localTail == Wrap(s.position) && s.acknowledgedTail == Wrap(s.sh.acked)
    && s.origin <= s.sh.acked <= s.position <= |h|
    && s.delivered == h[s.origin..s.position]
    && (s.reading.Copying? ==>
          && |s.reading.out| <= s.reading.available
          && s.position + s.reading.available <= |h|
          && s.reading.out == h[s.position..s.position + |s.reading.out|])
  }

  ghost predicate SystemInvariant(s: System)
  {
    && Shaped(s.sh) && Invariant(s.sh)
    && (Attached(s) ==> CursorInvariant(s))
    && (!Attached(s) ==> InFlight(s.sh) == [] && s.sh.acked == s.sh.reclaimed)
    && (s.reading.Attaching? ==>
          s.reading.head == Wrap(s.reading.published) && s.sh.reclaimed <= s.reading.published <= |s.sh.history|)
  }

  lemma StartInvariant(capacity: nat, slots: seq<Record>, generation: nat)
    requires ValidCapacity(capacity) && |slots| == capacity
    ensures SystemInvariant(Start(Initial(capacity, slots, generation)))
  {
    InitialRing(capacity, slots, generation);
  }

  /** The snapshot test passes exactly when no multiple of 2^64 lies between the cursor and the
      head; then the words give the true number of unread records. */
  lemma SnapshotTestIsExact(sh: Shared, localTail: U64, position: nat)
    requires Bounded(sh) && localTail == Wrap(position)
    requires sh.reclaimed <= position <= |sh.history|
    ensures Rejects(localTail, sh.head, sh.capacity) <==> Epoch(position) != Epoch(|sh.history|)
    ensures !Rejects(localTail, sh.head, sh.capacity) ==> sh.head - localTail == |sh.history| - position
  {
    CapacityBelowWord(sh.capacity);
    WordOrder(position, |sh.history|);
  }

  /** Slots at or above the acknowledged tail hold their history, even while being overwritten elsewhere. */
  lemma PinnedSlot(sh: Shared, position: nat)
    requires Invariant(sh) && sh.acked <= position < |sh.history|
    ensures At(sh, position) == sh.history[position]
  {
  }

  lemma EnvironmentKeeps(s: System, step: Step)
    requires SystemInvariant(s) && Internal(step)
    ensures SystemInvariant(Act(s, Environment(step)))
  {
    hide Wrap, And, SlotOf, Do, Invariant, InFlight;
    InternalStepRely(s.sh, step);
    if !Attached(s) {
      assert Shaped(s.sh);
      EmptyFlightStays(s.sh, step);
    }
  }

  lemma EmptyFlightStays(sh: Shared, step: Step)
    requires Shaped(sh) && Internal(step) && InFlight(sh) == []
    ensures InFlight(Do(sh, step)) == [] && Do(sh, step).reclaimed == sh.reclaimed
  {
    hide Wrap, And, SlotOf, LooksFull, Acceptable;
  }

  lemma AttachKeeps(s: System, atHead: bool)
    requires SystemInvariant(s) && s.reading.Attaching?
    ensures SystemInvariant(Act(s, AttachLoadTail(atHead)))
  {
    var start := if atHead then s.reading.published else s.sh.reclaimed;
    var t := s.sh.(acked := start);
    assert InFlight(t) == [];
    assert RingInvariant(t) by { RetagKeepsRing(s.sh, start); }
    hide Wrap, And, SlotOf, RingInvariant;
  }

  lemma RetagKeepsRing(sh: Shared, start: nat)
    requires RingInvariant(sh)
    ensures RingInvariant(sh.(acked := start))
  {
  }

  lemma CopyKeeps(s: System)
    requires SystemInvariant(s)
    ensures SystemInvariant(Act(s, CopySlot))
  {
    hide Wrap, And, SlotOf, Invariant, InFlight;
    if s.reading.Copying? && |s.reading.out| < s.reading.available {
      var k := |s.reading.out|;
      WrapOfSum(s.position, k);
      PinnedSlot(s.sh, s.position + k);
    }
  }

  lemma BeginKeeps(s: System, maxRecords: nat)
    requires SystemInvariant(s)
    ensures SystemInvariant(Act(s, BeginSnapshot(maxRecords)))
  {
    if s.reading.Idle? {
      SnapshotTestIsExact(s.sh, s.localTail, s.position);
    }
    hide Wrap, And, SlotOf, Invariant, Rejects, InFlight;
  }

  lemma CommitKeeps(s: System)
    requires SystemInvariant(s)
    ensures SystemInvariant(Act(s, CommitSnapshot))
  {
    hide Wrap, And, SlotOf, Invariant, Rejects, InFlight;
    if s.reading.Copying? { WrapOfSum(s.position, s.reading.available); }
  }

  lemma AcknowledgeKeeps(s: System)
    requires SystemInvariant(s)
    ensures SystemInvariant(Act(s, Acknowledge))
  {
    hide Wrap, And, SlotOf, Invariant, Rejects, InFlight;
    if s.reading.Idle? { SendKeepsInvariant(s.sh, s.generation, s.position); }
  }

  lemma MoveKeeps(s: System, m: Move)
    requires SystemInvariant(s)
    ensures SystemInvariant(Act(s, m))
  {
    if m.Environment? {
      if Internal(m.step) { EnvironmentKeeps(s, m.step); }
    } else if m.AttachLoadTail? {
      if s.reading.Attaching? { AttachKeeps(s, m.beginAtCurrentHead); }
    } else if m.CopySlot? {
      CopyKeeps(s);
    } else if m.AttachLoadHead? || m.LearnGeneration? {
      hide Wrap, And, SlotOf, InFlight;
    } else if m.BeginSnapshot? {
      BeginKeeps(s, m.maxRecords);
    } else if m.CommitSnapshot? {
      CommitKeeps(s);
    } else {
      AcknowledgeKeeps(s);
    }
  }

  lemma {:induction false} EveryInterleavingKeeps(s: System, moves: seq<Move>)
    requires SystemInvariant(s)
    ensures SystemInvariant(ActAll(s, moves))
    decreases |moves|
  {
    if moves != [] {
      MoveKeeps(s, moves[0]);
      EveryInterleavingKeeps(Act(s, moves[0]), moves[1..]);
    }
  }

  /** In every reachable state, under every interleaving: the positions lag one another in order,
      every unreclaimed slot still holds its record, a half-copied snapshot is already right, and
      what the consumer has received is history itself, each record once and in order. */
  lemma ReachableStates(capacity: nat, slots: seq<Record>, generation: nat, moves: seq<Move>)
    requires ValidCapacity(capacity) && |slots| == capacity
    ensures var s := ActAll(Start(Initial(capacity, slots, generation)), moves);
      var f := InFlight(s.sh);
      && |s.sh.history| <= s.sh.reclaimed + s.sh.capacity
      && (forall i: nat :: s.sh.reclaimed <= i < |s.sh.history| ==> At(s.sh, i) == s.sh.history[i])
      && (Attached(s) ==>
            && s.sh.reclaimed <= s.sh.acked <= s.position <= |s.sh.history| && s.origin <= s.sh.acked
            && (forall i :: 0 <= i < |f| ==> s.sh.reclaimed <= f[i].position <= s.sh.acked)
            && (forall i, j :: 0 <= i <= j < |f| ==> f[i].position <= f[j].position)
            && s.delivered == s.sh.history[s.origin..s.position]
            && (s.reading.Copying? ==> s.delivered + s.reading.out <= s.sh.history[s.origin..]))
  {
    StartInvariant(capacity, slots, generation);
    var s0 := Start(Initial(capacity, slots, generation));
    assert Shaped(s0.sh);
    hide ActAll, SystemInvariant, InFlight, At;
    EveryInterleavingKeeps(s0, moves);
    var s := ActAll(s0, moves);
    RingOf(s);
    ChainOf(s);
    if Attached(s) { CursorOf(s); }
  }

  lemma RingOf(s: System)
    requires SystemInvariant(s)
    ensures |s.sh.history| <= s.sh.reclaimed + s.sh.capacity
    ensures forall i: nat :: s.sh.reclaimed <= i < |s.sh.history| ==> At(s.sh, i) == s.sh.history[i]
  {
    hide Wrap, And, SlotOf, Chained, CursorInvariant, Numbered, InFlight, At;
  }

  lemma ChainOf(s: System)
    requires SystemInvariant(s)
    ensures var f := InFlight(s.sh);
      && s.sh.reclaimed <= s.sh.acked <= |s.sh.history|
      && (forall i :: 0 <= i < |f| ==> s.sh.reclaimed <= f[i].position <= s.sh.acked)
      && (forall i, j :: 0 <= i <= j < |f| ==> f[i].position <= f[j].position)
  {
    hide RingInvariant, CursorInvariant, InFlight;
  }

  lemma CursorOf(s: System)
    requires SystemInvariant(s) && Attached(s)
    ensures s.origin <= s.sh.acked <= s.position <= |s.sh.history| && s.delivered == s.sh.history[s.origin..s.position]
    ensures s.reading.Copying? ==> s.delivered + s.reading.out <= s.sh.history[s.origin..]
  {
    hide Invariant, InFlight;
    if s.reading.Copying? {
      var h, n := s.sh.history, s.position + |s.reading.out|;
      assert h[s.origin..s.position] + h[s.position..n] == h[s.origin..n];
    }
  }

  // ---------- reading a slot nothing pins ----------

  /** The producer is in the middle of writing the slot of this position. */
  predicate Rewriting(s: Shared, position: nat)
    requires s.capacity > 0
  {
    (s.producer.Writing? || s.producer.Written?) && SlotOf(s.capacity, s.head) == SlotOf(s.capacity, Wrap(position))
  }

  /** What an unpinned slot holds: the record of the newest published position that shares it, so
      the position asked for exactly when less than a capacity was published since. */
  lemma ShownAt(s: Shared, position: nat) returns (shown: nat)
    requires RingInvariant(s) && position < |s.history|
    ensures !Rewriting(s, position) ==> position <= shown < |s.history| && At(s, position) == s.history[shown]
    ensures !Rewriting(s, position) ==> (shown == position <==> |s.history| <= position + s.capacity)
    ensures Begun(s) <= position + s.capacity ==> At(s, position) == s.history[position]
  {
    var n := |s.history|;
    var laps := LastLap(n, position, s.capacity);
    shown := position + laps * s.capacity;
    SlotsRepeat(s.capacity, position, laps);
    if shown == n - s.capacity {
      SlotsRepeat(s.capacity, shown, 1);
    }
    hide Wrap, And, SlotOf;
    if !Rewriting(s, position) {
      assert Begun(s) - s.capacity <= shown;
    }
  }

  lemma LastLap(n: nat, p: nat, c: nat) returns (k: nat)
    requires p < n && c > 0
    ensures n - c <= p + k * c < n
    ensures k * c >= 0
    ensures p + k * c == p <==> n <= p + c
  {
    k := (n - 1 - p) / c;
    DivideInto(n - 1 - p, c);
    MultipleBounds(k, c);
  }
}
