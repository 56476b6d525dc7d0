/** The publication and acknowledged-reclamation protocol as a step system.

    One producer publishes records into the shared ring; the bridge receives ACK messages from a
    FIFO channel and only after validating one moves the shared tail. Every memory access is a
    step of its own: a loaded tail or head may be stale by the time it is used, and a record
    being copied into its slot may be seen half written. Guards read only what the program can
    see: 64-bit words, slots, and its own locals. The unbounded positions beside them (history,
    losses, reclaimed, acked and the position fields) only record what happened. */
module Protocol {
  import opened Words
  import opened Records

  /** An ACK message: device generation and the consumer's tail word. `position` records the
      unbounded position a protocol-following consumer meant by that word. */
  datatype Ack = Ack(generation: nat, consumedTail: U64, position: nat)

  datatype Producer =
    | Ready
    | Offered(record: Record)                             // sequence number taken
    | Admitted(record: Record, tail: U64, reclaimed: nat) // tail loaded
    | Writing(record: Record)                             // slot contents undefined
    | Written(record: Record)                             // slot filled, head not stored

  datatype Bridge =
    | Listening
    | Validating(ack: Ack, head: U64, published: nat)     // message received, head loaded

  datatype Shared = Shared(
    capacity: nat,
    slots: seq<Record>,
    head: U64,
    tail: U64,
    nextSequence: U64,
    droppedNewest: U64,
    recordsConsumed: U64,
    generation: nat,
    producer: Producer,
    bridge: Bridge,
    channel: seq<Ack>,
    acknowledgements: nat,
    invalidAcknowledgements: nat,
    history: seq<Record>,
    lossBefore: seq<nat>,
    losses: nat,
    reclaimed: nat,
    acked: nat)

  datatype Step =
    | Take(payload: Record)
    | LoadTail
    | Refuse
    | Tear(garbage: Record)
    | Write
    | StoreHead
    | Receive
    | Validate
    | Reconnect
    | Inject(ack: Ack)   // a message from a peer that need not follow the protocol

  predicate Shaped(s: Shared)
  {
    0 < s.capacity == |s.slots|
  }

  function Initial(capacity: nat, slots: seq<Record>, generation: nat): Shared
  {
    Shared(capacity, slots, 0, 0, 1, 0, 0, generation, Ready, Listening, [], 0, 0, [], [], 0, 0, 0)
  }

  function PutAtHead(s: Shared, r: Record): seq<Record>
    requires Shaped(s)
  {
    s.slots[SlotOf(s.capacity, s.head) := r]
  }

  /** The publisher's capacity test on its own head and a tail loaded earlier. */
  predicate LooksFull(s: Shared, tail: U64)
  {
    Sub64(s.head, tail) >= s.capacity
  }

  /** The bridge's four tests on a received ACK. */
  predicate Acceptable(s: Shared, ack: Ack, head: U64)
  {
    && ack.generation == s.generation
    && !(ack.consumedTail < s.tail)
    && !(ack.consumedTail > head)
    && !(head - ack.consumedTail > s.capacity)
  }

  /** One step; a step whose guard is false changes nothing. */
  function Do(s: Shared, step: Step): (t: Shared)
    requires Shaped(s)
    ensures Shaped(t)
  {
    match step
    case Take(payload) =>
      if !s.producer.Ready? then s else
      s.(producer := Offered(payload.(sequence := s.nextSequence)),
         nextSequence := Wrap(s.nextSequence + 1))
    case LoadTail =>
      if !s.producer.Offered? then s else
      s.(producer := Admitted(s.producer.record, s.tail, s.reclaimed))
    case Refuse =>
      if !s.producer.Admitted? || !LooksFull(s, s.producer.tail) then s else
      s.(producer := Ready, droppedNewest := Wrap(s.droppedNewest + 1), losses := s.losses + 1)
    case Tear(garbage) =>
      if s.producer.Writing? || (s.producer.Admitted? && !LooksFull(s, s.producer.tail)) then
        s.(producer := Writing(s.producer.record), slots := PutAtHead(s, garbage))
      else s
    case Write =>
      if !s.producer.Writing? then s else
      s.(producer := Written(s.producer.record), slots := PutAtHead(s, s.producer.record))
    case StoreHead =>
      if !s.producer.Written? then s else
      s.(producer := Ready, head := Wrap(s.head + 1),
         history := s.history + [s.producer.record], lossBefore := s.lossBefore + [s.losses])
    case Receive =>
      if !s.bridge.Listening? || s.channel == [] then s else
      s.(bridge := Validating(s.channel[0], s.head, |s.history|), channel := s.channel[1..])
    case Validate =>
      if !s.bridge.Validating? then s
      else if !Acceptable(s, s.bridge.ack, s.bridge.head) then
        s.(bridge := Listening, invalidAcknowledgements := s.invalidAcknowledgements + 1)
      else
        var consumed := s.bridge.ack.consumedTail - s.tail;
        s.(bridge := Listening, tail := s.bridge.ack.consumedTail,
           recordsConsumed := Wrap(s.recordsConsumed + consumed),
           acknowledgements := s.acknowledgements + 1,
           reclaimed := s.reclaimed + consumed)
    case Reconnect =>
      s.(generation := s.generation + 1)
    case Inject(ack) =>
      s.(channel := s.channel + [ack])
  }

  function DoAll(s: Shared, steps: seq<Step>): (t: Shared)
    requires Shaped(s)
    ensures Shaped(t)
    decreases |steps|
  {
    if steps == [] then s else DoAll(Do(s, steps[0]), steps[1..])
  }

  // ---------- what every step keeps, whatever the peer sends ----------

  /** Positions the producer has published or started to write. */
  function Begun(s: Shared): nat
  {
    |s.history| + if s.producer.Writing? || s.producer.Written? then 1 else 0
  }

  /** Words are the wrapped positions, and published lies between reclaimed and reclaimed + capacity. */
  ghost predicate Bounded(s: Shared)
  {
    && ValidCapacity(s.capacity) && Shaped(s)
    && s.head == Wrap(|s.history|) && s.tail == Wrap(s.reclaimed)
    && s.recordsConsumed == s.tail
    && s.reclaimed <= |s.history| && Begun(s) <= s.reclaimed + s.capacity
    && (s.producer.Admitted? ==>
          && s.producer.tail == Wrap(s.producer.reclaimed)
          && s.producer.reclaimed <= s.reclaimed
          && |s.history| <= s.producer.reclaimed + s.capacity)
    && (s.bridge.Validating? ==>
          && s.bridge.head == Wrap(s.bridge.published)
          && s.reclaimed <= s.bridge.published <= |s.history|)
  }

  /** The slot of a position. */
  function At(s: Shared, position: nat): Record
    requires Shaped(s)
  {
    s.slots[SlotOf(s.capacity, Wrap(position))]
  }

  /** The array is the modulo-capacity window of history, except for the slot being written. */
  ghost predicate Windowed(s: Shared)
    requires Shaped(s)
  {
    && (forall i: nat :: Begun(s) - s.capacity <= i < |s.history| ==> At(s, i) == s.history[i])
    && (s.producer.Written? ==> At(s, |s.history|) == s.producer.record)
  }

  function Attempts(s: Shared): nat
  {
    |s.history| + s.losses + if s.producer.Ready? then 0 else 1
  }

  /** Exact loss accounting: each record's number is one plus its position plus the losses before it. */
  ghost predicate Numbered(s: Shared)
  {
    && |s.lossBefore| == |s.history|
    && s.nextSequence == Wrap(1 + Attempts(s))
    && s.droppedNewest == Wrap(s.losses)
    && (!s.producer.Ready? ==> s.producer.record.sequence == Wrap(1 + |s.history| + s.losses))
    && (forall i :: 0 <= i < |s.history| ==> s.history[i].sequence == Wrap(1 + i + s.lossBefore[i]))
    && (forall i :: 0 <= i < |s.history| ==> s.lossBefore[i] <= s.losses)
    && (forall i, j :: 0 <= i <= j < |s.history| ==> s.lossBefore[i] <= s.lossBefore[j])
  }

  ghost predicate RingInvariant(s: Shared)
  {
    Bounded(s) && Windowed(s) && Numbered(s)
  }

  lemma InitialRing(capacity: nat, slots: seq<Record>, generation: nat)
    requires ValidCapacity(capacity) && |slots| == capacity
    ensures RingInvariant(Initial(capacity, slots, generation))
  {
  }

  lemma TailTestIsExact(s: Shared)
    requires Bounded(s) && s.producer.Admitted?
    ensures LooksFull(s, s.producer.tail) <==> |s.history| - s.producer.reclaimed >= s.capacity
  {
    CapacityBelowWord(s.capacity);
    SubOfWraps(|s.history|, s.producer.reclaimed);
  }

  lemma CapacityBelowWord(capacity: nat)
    requires ValidCapacity(capacity)
    ensures 0 < capacity < TWO64
  {
  }

  /** With the first three tests passed, an ACK lies in the unreclaimed window, whatever it is. */
  lemma AcceptedInWindow(s: Shared)
    requires Bounded(s) && s.bridge.Validating?
    requires s.tail <= s.bridge.ack.consumedTail <= s.bridge.head
    ensures s.reclaimed + (s.bridge.ack.consumedTail - s.tail) <= s.bridge.published
    ensures s.bridge.head - s.bridge.ack.consumedTail <= s.capacity
  {
    CapacityBelowWord(s.capacity);
    WordOrder(s.reclaimed, s.bridge.published);
  }

  /** The bridge's last bounds test can never fail once the others have passed. */
  lemma LastTestIsImplied(s: Shared)
    requires Bounded(s) && s.bridge.Validating?
    ensures var a, h := s.bridge.ack, s.bridge.head;
      Acceptable(s, a, h) <==> a.generation == s.generation && s.tail <= a.consumedTail <= h
  {
    if s.tail <= s.bridge.ack.consumedTail <= s.bridge.head {
      AcceptedInWindow(s);
    }
  }

  lemma StepKeepsBounded(s: Shared, step: Step)
    requires Bounded(s)
    ensures Bounded(Do(s, step))
  {
    CapacityBelowWord(s.capacity);
    if s.producer.Admitted? { TailTestIsExact(s); }
    if step.Validate? && s.bridge.Validating? && Acceptable(s, s.bridge.ack, s.bridge.head) {
      AcceptedInWindow(s);
      WrapOfSum(s.reclaimed, s.bridge.ack.consumedTail - s.tail);
    }
    WrapOfSum(|s.history|, 1);
    hide Wrap, Sub64, And, SlotOf, ValidCapacity;
  }

  lemma StepKeepsWindowed(s: Shared, step: Step)
    requires Bounded(s) && Windowed(s)
    ensures Windowed(Do(s, step))
  {
    StepKeepsBounded(s, step);
    hide Wrap, Sub64, And, LooksFull, Acceptable, ValidCapacity;
    var t := Do(s, step);
    forall i: nat | Begun(t) - s.capacity <= i < |s.history|
      ensures At(t, i) == s.history[i]
    {
      if step.Tear? || step.Write? {
        if t != s { SlotsDistinct(s.capacity, i, |s.history|); }
      }
    }
  }

  lemma StepKeepsNumbered(s: Shared, step: Step)
    requires Shaped(s) && Numbered(s)
    ensures Numbered(Do(s, step))
  {
    WrapOfSum(1 + Attempts(s), 1);
    WrapOfSum(s.losses, 1);
    hide Wrap, And, SlotOf, LooksFull, Acceptable;
  }

  lemma StepKeepsRing(s: Shared, step: Step)
    requires RingInvariant(s)
    ensures RingInvariant(Do(s, step))
  {
    StepKeepsBounded(s, step);
    StepKeepsWindowed(s, step);
    StepKeepsNumbered(s, step);
  }

  // ---------- loss accounting over whole runs ----------

  lemma {:induction false} RunKeepsRing(s: Shared, steps: seq<Step>)
    requires RingInvariant(s)
    ensures RingInvariant(DoAll(s, steps))
    decreases |steps|
  {
    if steps != [] {
      StepKeepsRing(s, steps[0]);
      RunKeepsRing(Do(s, steps[0]), steps[1..]);
    }
  }

  /** After any run from the initial mapping: between publications the next number is one plus the
      published plus the dropped records, record i carries one plus i plus the drops before it, and
      while fewer than 2^64 records were attempted the numbers strictly increase, so every drop
      leaves a visible gap and nothing else does. */
  lemma LossesAreExact(capacity: nat, slots: seq<Record>, generation: nat, steps: seq<Step>)
    requires ValidCapacity(capacity) && |slots| == capacity
    ensures var s := DoAll(Initial(capacity, slots, generation), steps);
      && |s.lossBefore| == |s.history|
      && (s.producer.Ready? ==> s.nextSequence == Wrap(1 + |s.history| + s.losses))
      && s.head == Wrap(|s.history|) && s.droppedNewest == Wrap(s.losses)
      && (forall i :: 0 <= i < |s.history| ==> s.history[i].sequence == Wrap(1 + i + s.lossBefore[i]))
      && (|s.history| + s.losses < TWO64 ==>
            forall i, j :: 0 <= i < j < |s.history| ==>
              s.history[i].sequence < s.history[j].sequence
                && s.history[j].sequence + i + s.lossBefore[i] == s.history[i].sequence + j + s.lossBefore[j])
  {
    InitialRing(capacity, slots, generation);
    RunKeepsRing(Initial(capacity, slots, generation), steps);
    NumbersSpread(DoAll(Initial(capacity, slots, generation), steps));
  }

  lemma NumbersSpread(s: Shared)
    requires RingInvariant(s)
    ensures |s.lossBefore| == |s.history|
    ensures |s.history| + s.losses < TWO64 ==>
      forall i, j :: 0 <= i < j < |s.history| ==>
        s.history[i].sequence < s.history[j].sequence
          && s.history[j].sequence + i + s.lossBefore[i] == s.history[i].sequence + j + s.lossBefore[j]
  {
    if |s.history| + s.losses < TWO64 {
      forall i | 0 <= i < |s.history| ensures s.history[i].sequence == 1 + i + s.lossBefore[i] {}
    }
  }

  // ---------- one publication, undisturbed ----------

  /** The steps of one publication, with any half-written slot contents in between. */
  function Publication(payload: Record, garbage: Record): seq<Step>
  {
    [Take(payload), LoadTail, Refuse, Tear(garbage), Write, StoreHead]
  }

  /** Run without interruption these steps are one offer to a bounded drop-newest queue: the record,
      numbered, joins the published history exactly when the window has room, and is counted as
      dropped exactly when it has none. */
  lemma UndisturbedPublication(s: Shared, payload: Record, garbage: Record)
    requires RingInvariant(s) && s.producer.Ready?
    ensures var t := DoAll(s, Publication(payload, garbage));
      && t.producer.Ready? && t.reclaimed == s.reclaimed
      && (if |s.history| - s.reclaimed < s.capacity
          then t.history == s.history + [payload.(sequence := s.nextSequence)] && t.losses == s.losses
          else t.history == s.history && t.losses == s.losses + 1 && t.slots == s.slots)
  {
    var a := Do(s, Take(payload));
    var b := Do(a, LoadTail);
    StepKeepsBounded(s, Take(payload));
    StepKeepsBounded(a, LoadTail);
    TailTestIsExact(b);
    var c := Do(b, Refuse);
    var d := Do(c, Tear(garbage));
    var e := Do(d, Write);
    SixSteps(s, payload, garbage);
    hide Wrap, Sub64, And, SlotOf, Bounded, Windowed, Numbered, DoAll;
  }

  lemma SixSteps(s: Shared, payload: Record, garbage: Record)
    requires Shaped(s)
    ensures DoAll(s, Publication(payload, garbage))
         == Do(Do(Do(Do(Do(Do(s, Take(payload)), LoadTail), Refuse), Tear(garbage)), Write), StoreHead)
  {
    hide Do;
    var t1 := Do(s, Take(payload));
    var t2 := Do(t1, LoadTail);
    var t3 := Do(t2, Refuse);
    var t4 := Do(t3, Tear(garbage));
    var t5 := Do(t4, Write);
    DoFirst(s, Publication(payload, garbage));
    DoFirst(t1, [LoadTail, Refuse, Tear(garbage), Write, StoreHead]);
    DoFirst(t2, [Refuse, Tear(garbage), Write, StoreHead]);
    DoFirst(t3, [Tear(garbage), Write, StoreHead]);
    DoFirst(t4, [Write, StoreHead]);
    DoFirst(t5, [StoreHead]);
    hide DoAll;
    TailsOfPublication(payload, garbage);
  }

  lemma DoFirst(s: Shared, steps: seq<Step>)
    requires Shaped(s) && steps != []
    ensures DoAll(s, steps) == DoAll(Do(s, steps[0]), steps[1..])
    ensures |steps| == 1 ==> DoAll(s, steps) == Do(s, steps[0])
  {
  }

  lemma TailsOfPublication(payload: Record, garbage: Record)
    ensures Publication(payload, garbage)[1..] == [LoadTail, Refuse, Tear(garbage), Write, StoreHead]
    ensures [LoadTail, Refuse, Tear(garbage), Write, StoreHead][1..] == [Refuse, Tear(garbage), Write, StoreHead]
    ensures [Refuse, Tear(garbage), Write, StoreHead][1..] == [Tear(garbage), Write, StoreHead]
    ensures [Tear(garbage), Write, StoreHead][1..] == [Write, StoreHead]
    ensures [Write, StoreHead][1..] == [StoreHead]
  {
  }
}
