/** The frame thread's latching policies: when within a frame the ring is drained, when the pending
    queue is taken, and when the records read are acknowledged, with the urgent thread free to drain
    and acknowledge all the while.

    Both threads drain under ring_drain_mutex; taking the queue needs only the queue's own mutex. So
    before a drain or an ACK of the frame thread the urgent thread has let go of the mutex, but a take
    may come in the middle of an urgent drain, between two of its batches. A take between the snapshot
    and the push of one batch has the effect of a take before it. */
module FramePolicy {
  import opened Words
  import opened Records
  import opened Reclamation
  import opened SharedMapping
  import opened Accounting
  import opened Freshness
  import LatencyClient
  import RecordQueue
  import Protocol

  datatype Policy =
    | Late                                    // also the critical-ACK and spinning variants
    | Multi(checks: nat)
    | LateLatch(checks: nat, rechecks: nat)
    | TwoStage

  datatype Placement = Critical | PostUse | PostFrame

  const MAX_TIME: U64 := 0xFFFF_FFFF_FFFF_FFFF
  const UNKNOWN_SUMMARY: Summary := Summary(0, 0, MAX_TIME, 0)

  function Some(count: nat): nat {
    if count > 0 then 1 else 0
  }

  /** Ring checks one frame makes; a check count of 0 means 1. */
  function Checks(policy: Policy): nat
  {
    match policy
    case Late => 1
    case Multi(checks) => if checks == 0 then 1 else checks
    case LateLatch(checks, rechecks) => (if checks == 0 then 1 else checks) + 1 + rechecks
    case TwoStage => 2
  }

  /** Reading on from this position with this many records queued, a drain may die. */
  predicate DeathExplained(from: nat, published: nat, queued: nat)
  {
    || Epoch(from) != Epoch(published)
    || queued + published + 0x1_0000_0000 + LatencyClient.BATCH > RecordQueue.SIZE_MAX / 2 + from
  }

  // ---------- what a frame does, in order ----------

  /** A drain, acknowledging at its end or not; a take; or an ACK on its own. */
  datatype Kind = Drains(acknowledging: bool) | Takes | Acknowledges

  /** One action of the frame thread. `mark` is, for a drain, how much was published when it was called,
      and, for a take, how many records the frame has used after it. */
  datatype Action = Action(kind: Kind, mark: nat)

  function Kinds(trace: seq<Action>): seq<Kind>
  {
    if trace == [] then [] else Kinds(trace[..|trace| - 1]) + [trace[|trace| - 1].kind]
  }

  function EarlyDrains(n: nat): seq<Kind>
  {
    if n == 0 then [] else EarlyDrains(n - 1) + [Drains(false)]
  }

  /** The first n of the rechecks; with critical placement the last of them all acknowledges. */
  function Rechecks(n: nat, rechecks: nat, critical: bool): seq<Kind>
  {
    if n == 0 then [] else Rechecks(n - 1, rechecks, critical) + [Drains(critical && n == rechecks), Takes]
  }

  /** The schedule of each policy, with the ACK placed inside the latch or outside it. */
  function LatchSchedule(policy: Policy, critical: bool): seq<Kind>
  {
    match policy
    case Late => [Drains(critical), Takes]
    case Multi(checks) =>
      EarlyDrains(if checks == 0 then 1 else checks) + [Takes] + if critical then [Acknowledges] else []
    case LateLatch(checks, rechecks) =>
      EarlyDrains(if checks == 0 then 1 else checks) + [Takes] + [Drains(critical), Takes]
        + Rechecks(rechecks, rechecks, critical)
    case TwoStage => [Drains(false), Takes] + [Drains(critical), Takes]
  }

  function Schedule(policy: Policy, placement: Placement): seq<Kind>
  {
    LatchSchedule(policy, placement == Critical) + if placement == PostUse then [Acknowledges] else []
  }

  function DrainsIn(kinds: seq<Kind>): nat
  {
    if kinds == [] then 0 else DrainsIn(kinds[..|kinds| - 1]) + if kinds[|kinds| - 1].Drains? then 1 else 0
  }

  function TakesIn(kinds: seq<Kind>): nat
  {
    if kinds == [] then 0 else TakesIn(kinds[..|kinds| - 1]) + if kinds[|kinds| - 1].Takes? then 1 else 0
  }

  lemma {:induction false} CountsAdd(a: seq<Kind>, b: seq<Kind>)
    ensures DrainsIn(a + b) == DrainsIn(a) + DrainsIn(b) && TakesIn(a + b) == TakesIn(a) + TakesIn(b)
    decreases |b|
  {
    if b == [] {
      assert a + b == a;
    } else {
      assert (a + b)[..|a + b| - 1] == a + b[..|b| - 1];
      CountsAdd(a, b[..|b| - 1]);
    }
  }

  /** A frame drains as often as it makes checks; the late-latch policy takes once before its final latch
      and once after each of that latch's drains, the two-stage policy twice, the others once. */
  lemma ScheduleCounts(policy: Policy, critical: bool)
    ensures DrainsIn(LatchSchedule(policy, critical)) == Checks(policy)
    ensures TakesIn(LatchSchedule(policy, critical))
      == if policy.LateLatch? then 2 + policy.rechecks else if policy.TwoStage? then 2 else 1
  {
    match policy {
      case Late => Singles(critical);
      case TwoStage => TwoStageCounts(critical);
      case Multi(checks) => MultiCounts(if checks == 0 then 1 else checks, critical);
      case LateLatch(checks, rechecks) => LateLatchCounts(if checks == 0 then 1 else checks, rechecks, critical);
    }
  }

  lemma TwoStageCounts(critical: bool)
    ensures var kinds := [Drains(false), Takes] + [Drains(critical), Takes];
      DrainsIn(kinds) == TakesIn(kinds) == 2
  {
    Singles(critical);
    hide DrainsIn, TakesIn;
    CountsAdd([Drains(false), Takes], [Drains(critical), Takes]);
  }

  lemma MultiCounts(n: nat, critical: bool)
    ensures var kinds := EarlyDrains(n) + [Takes] + if critical then [Acknowledges] else [];
      DrainsIn(kinds) == n && TakesIn(kinds) == 1
  {
    Singles(critical);
    EarlyCounts(n);
    hide DrainsIn, TakesIn, EarlyDrains;
    CountsAdd(EarlyDrains(n), [Takes]);
    CountsAdd(EarlyDrains(n) + [Takes], if critical then [Acknowledges] else []);
  }

  lemma LateLatchCounts(n: nat, rechecks: nat, critical: bool)
    ensures var kinds := EarlyDrains(n) + [Takes] + [Drains(critical), Takes] + Rechecks(rechecks, rechecks, critical);
      DrainsIn(kinds) == n + 1 + rechecks && TakesIn(kinds) == 2 + rechecks
  {
    Singles(critical);
    EarlyCounts(n);
    RecheckCounts(rechecks, rechecks, critical);
    hide DrainsIn, TakesIn, EarlyDrains, Rechecks;
    CountsAdd(EarlyDrains(n), [Takes]);
    CountsAdd(EarlyDrains(n) + [Takes], [Drains(critical), Takes]);
    CountsAdd(EarlyDrains(n) + [Takes] + [Drains(critical), Takes], Rechecks(rechecks, rechecks, critical));
  }

  lemma Singles(flag: bool)
    ensures DrainsIn([Takes]) == 0 && TakesIn([Takes]) == 1 && DrainsIn([Acknowledges]) == TakesIn([Acknowledges]) == 0
    ensures DrainsIn([]) == TakesIn([]) == 0 && DrainsIn([Drains(flag)]) == 1 && TakesIn([Drains(flag)]) == 0
    ensures DrainsIn([Drains(flag), Takes]) == 1 && TakesIn([Drains(flag), Takes]) == 1
    ensures DrainsIn([Drains(false), Takes]) == 1 && TakesIn([Drains(false), Takes]) == 1
  {
    assert [Drains(flag), Takes] == [Drains(flag)] + [Takes] && [Drains(false), Takes] == [Drains(false)] + [Takes];
    CountsAdd([Drains(flag)], [Takes]);
    CountsAdd([Drains(false)], [Takes]);
  }

  lemma {:induction false} EarlyCounts(n: nat)
    ensures DrainsIn(EarlyDrains(n)) == n && TakesIn(EarlyDrains(n)) == 0
  {
    if n > 0 {
      EarlyCounts(n - 1);
      CountsAdd(EarlyDrains(n - 1), [Drains(false)]);
      Singles(false);
    }
  }

  lemma {:induction false} RecheckCounts(n: nat, rechecks: nat, critical: bool)
    ensures DrainsIn(Rechecks(n, rechecks, critical)) == n == TakesIn(Rechecks(n, rechecks, critical))
  {
    if n > 0 {
      RecheckCounts(n - 1, rechecks, critical);
      CountsAdd(Rechecks(n - 1, rechecks, critical), [Drains(critical && n == rechecks), Takes]);
      Singles(critical && n == rechecks);
    }
  }

  /** How many records the first take left used; -1 before any take. */
  function FirstUsed(trace: seq<Action>): (first: int)
    ensures first >= -1
  {
    if trace == [] then -1
    else
      var earlier := FirstUsed(trace[..|trace| - 1]);
      var last := trace[|trace| - 1];
      if earlier >= 0 then earlier else if last.kind.Takes? then last.mark else -1
  }

  function LastUsed(trace: seq<Action>): nat
  {
    if trace == [] then 0
    else if trace[|trace| - 1].kind.Takes? then trace[|trace| - 1].mark
    else LastUsed(trace[..|trace| - 1])
  }

  /** Every take uses everything published before any drain ahead of it was called; no drain was called
      before the frame began. */
  ghost predicate Fresh(trace: seq<Action>, from: nat, queued: nat, began: nat)
  {
    && (forall i :: 0 <= i < |trace| && trace[i].kind.Drains? ==> began <= trace[i].mark)
    && (forall i, j :: 0 <= i < j < |trace| && trace[i].kind.Drains? && trace[j].kind.Takes? ==>
          queued + trace[i].mark <= trace[j].mark + from)
  }

  /** The trace agrees with the cursor and with what has been used. */
  ghost predicate Traced(trace: seq<Action>, from: nat, queued: nat, began: nat, position: nat, used: nat)
  {
    && Fresh(trace, from, queued, began) && LastUsed(trace) == used
    && (forall i :: 0 <= i < |trace| && trace[i].kind.Drains? ==> trace[i].mark <= position)
    && (forall i :: 0 <= i < |trace| && trace[i].kind.Takes? ==> trace[i].mark <= used)
  }

  lemma TraceMore(trace: seq<Action>, a: Action)
    ensures Kinds(trace + [a]) == Kinds(trace) + [a.kind]
    ensures LastUsed(trace + [a]) == if a.kind.Takes? then a.mark else LastUsed(trace)
    ensures FirstUsed(trace + [a])
      == if FirstUsed(trace) >= 0 then FirstUsed(trace) else if a.kind.Takes? then a.mark else -1
  {
    assert (trace + [a])[..|trace|] == trace;
  }

  lemma NoneYet()
    ensures Kinds([]) == [] && FirstUsed([]) == -1
  {
  }

  lemma DrainTraced(trace: seq<Action>, from: nat, queued: nat, began: nat, before: nat, position: nat, used: nat,
                    acknowledge: bool, published: nat)
    requires Traced(trace, from, queued, began, before, used) && began <= published <= position && before <= position
    ensures Traced(trace + [Action(Drains(acknowledge), published)], from, queued, began, position, used)
  {
    TraceMore(trace, Action(Drains(acknowledge), published));
    hide LastUsed;
  }

  lemma TakeTraced(trace: seq<Action>, from: nat, queued: nat, began: nat, position: nat, before: nat, used: nat)
    requires Traced(trace, from, queued, began, position, before) && before <= used && queued + position <= used + from
    ensures Traced(trace + [Action(Takes, used)], from, queued, began, position, used)
  {
    TraceMore(trace, Action(Takes, used));
    hide LastUsed;
  }

  lemma DeathOf(from: nat, before: nat, position: nat, published: nat, queued: nat, used: nat, waiting: nat)
    requires from <= before <= position <= published && used + waiting == queued + before - from
    ensures Epoch(before) != Epoch(published) || Epoch(position) != Epoch(published)
            || waiting + 0xFFFF_FFFF + LatencyClient.BATCH > RecordQueue.SIZE_MAX / 2 ==>
      DeathExplained(from, published, queued)
  {
    EpochBetween(from, before, published);
    EpochBetween(from, position, published);
  }

  lemma {:induction false} TakenOrNot(trace: seq<Action>)
    ensures FirstUsed(trace) >= 0 <==> exists i :: 0 <= i < |trace| && trace[i].kind.Takes?
  {
    if trace != [] {
      var n := |trace| - 1;
      TakenOrNot(trace[..n]);
      if i :| 0 <= i < n && trace[..n][i].kind.Takes? { assert trace[i].kind.Takes?; }
    }
  }

  class FrameThread {
    const client: LatencyClient.Client
    var summary: Summary
    var expensiveActions: nat
    var lateLatchActions: nat
    var lateLatchRecords: nat

    // Auxiliary: whether the urgent thread is in the middle of a drain, and how many it has begun.
    var urgentHolds: bool
    var urgentChecks: nat

    // Since the frame began: where, with what queued and tallied, and what has been used.
    ghost var from: nat
    ghost var queued: seq<Record>
    ghost var tallied: Tally
    ghost var used: seq<Record>
    ghost var began: nat            // how much was published then
    ghost var trace: seq<Action>    // the frame thread's actions

    constructor (client: LatencyClient.Client)
      ensures this.client == client && expensiveActions == lateLatchActions == lateLatchRecords == 0
      ensures !urgentHolds && urgentChecks == 0
    {
      this.client, summary := client, UNKNOWN_SUMMARY;
      expensiveActions, lateLatchActions, lateLatchRecords := 0, 0, 0;
      urgentHolds, urgentChecks := false, 0;
    }

    /** Used and queued records together are the ones queued at the start and history since. */
    ghost predicate Running()
      reads `from, `queued, `tallied, `used, `summary, `began, `trace
      reads client, client.mapping, client.pending, client.pending.records, client.sequences
    {
      && client.Valid() && from <= client.position
      && used + client.pending.Contents() == queued + client.mapping.st.history[from..client.position]
      && client.sequences.View() == AccountAll(tallied, client.mapping.st.history[from..client.position])
      && summary == NoteAll(UNKNOWN_SUMMARY, used)
      && began <= |client.mapping.st.history| && Traced(trace, from, |queued|, began, client.position, |used|)
    }

    /** Everything read is acknowledged, unless the urgent thread is about to do it. */
    ghost predicate Covered()
      reads this`urgentHolds, client, client.mapping
    {
      urgentHolds || client.mapping.st.acked == client.position
    }

    method Begin()
      requires client.Valid()
      modifies this`summary, this`from, this`queued, this`tallied, this`used, this`began, this`trace
      ensures Running() && used == [] && trace == [] && began == |client.mapping.st.history|
      ensures from == client.position && queued == client.pending.Contents() && tallied == client.sequences.View()
    {
      summary := UNKNOWN_SUMMARY;
      from, queued, tallied, used := client.position, client.pending.Contents(), client.sequences.View(), [];
      began, trace := |client.mapping.st.history|, [];
      assert client.mapping.st.history[from..from] == [];
    }

    /** Why the process may have died: a 2^64 lap, or a queue that had to hold nearly 2^63 records. */
    ghost predicate Doomed()
      reads `from, `queued, client, client.mapping
    {
      DeathExplained(from, |client.mapping.st.history|, |queued|)
    }

    // ---------- the urgent thread ----------

    /** One batch of an urgent drain. */
    method UrgentRound() returns (died: bool)
      requires Running()
      modifies client, client.mapping, client.pending, client.pending.records, client.sequences
      ensures old(client.mapping.st.history) <= client.mapping.st.history
      ensures died ==> Doomed()
      ensures client.pending.records == old(client.pending.records) || fresh(client.pending.records)
      ensures client.ringChecks == old(client.ringChecks)
      ensures !died ==> Running() && client.position >= old(client.position)
      ensures !died ==> client.mapping.st.acked == old(client.mapping.st.acked)
    {
      hide Wrap, Invariant, Epoch, AccountAll, NoteAll;
      ghost var h, middle, waiting := client.mapping.st.history, client.position, client.pending.Contents();
      var buffer := new Record[LatencyClient.BATCH](_ => Record(0, 0, 0, 0, 0, 0, 0, 0));
      var count := client.Round(buffer, false);
      died := count == -1;
      DeathOf(from, middle, client.position, |client.mapping.st.history|, |queued|, |used|, |waiting|);
      if !died {
        BasicsOf(client.mapping.st);
        Extends(used, waiting, queued, h, client.mapping.st.history, from, middle, client.position, tallied);
      }
    }

    lemma BasicsOf(s: Protocol.Shared)
      requires Invariant(s)
      ensures s.acked <= |s.history| && s.capacity <= 0xFFFF_FFFF
    {
      ChainBasics(s);
    }

    /** The urgent thread begins a drain, reads a batch, or acknowledges and lets go. */
    method UrgentStep() returns (died: bool)
      requires Running()
      modifies this`urgentHolds, this`urgentChecks
      modifies client, client.mapping, client.pending, client.pending.records, client.sequences
      ensures old(client.mapping.st.history) <= client.mapping.st.history
      ensures died ==> Doomed()
      ensures client.pending.records == old(client.pending.records) || fresh(client.pending.records)
      ensures urgentChecks >= old(urgentChecks) && (urgentChecks == old(urgentChecks) ==> old(urgentHolds))
      ensures client.ringChecks == old(client.ringChecks) + (urgentChecks - old(urgentChecks))
      ensures !died ==> Running() && client.position >= old(client.position)
      ensures !died ==> client.mapping.st.acked >= old(client.mapping.st.acked)
      ensures !died && old(Covered()) ==> Covered()
    {
      died := false;
      if !urgentHolds {
        urgentHolds, urgentChecks := true, urgentChecks + 1;
        client.ringChecks := client.ringChecks + 1;
      } else {
        var leaves: bool := *;
        if leaves {
          LetGo();
        } else {
          died := UrgentRound();
        }
      }
    }

    method LetGo()
      requires Running()
      modifies this`urgentHolds, client`lastAckedTail, client`acknowledgementsSent, client.mapping
      ensures Running() && !urgentHolds && client.mapping.st.acked == client.position >= old(client.mapping.st.acked)
      ensures client.mapping.st.history == old(client.mapping.st.history)
    {
      hide Wrap, Invariant, AccountAll, NoteAll;
      client.SendAckIfNeeded();
      urgentHolds := false;
    }

    /** What the urgent thread may do between two actions of the frame thread: anything, for any
        length of time. */
    method Urgent() returns (died: bool)
      requires Running()
      modifies this`urgentHolds, this`urgentChecks
      modifies client, client.mapping, client.pending, client.pending.records, client.sequences
      ensures old(client.mapping.st.history) <= client.mapping.st.history
      ensures died ==> Doomed()
      ensures client.pending.records == old(client.pending.records) || fresh(client.pending.records)
      ensures urgentChecks >= old(urgentChecks)
      ensures client.ringChecks == old(client.ringChecks) + (urgentChecks - old(urgentChecks))
      ensures !died ==> Running() && client.position >= old(client.position)
      ensures !died ==> client.mapping.st.acked >= old(client.mapping.st.acked)
      ensures !died && old(Covered()) ==> Covered()
      ensures !died && Silent(old(urgentHolds), old(urgentChecks)) ==>
        !urgentHolds && client.position == old(client.position) && client.pending.length == old(client.pending.length)
        && client.mapping.st.acked == old(client.mapping.st.acked)
    {
      hide Running;
      died := false;
      var n: nat := *;
      while n > 0
        invariant Running() && old(client.mapping.st.history) <= client.mapping.st.history
        invariant client.pending.records == old(client.pending.records) || fresh(client.pending.records)
        invariant urgentChecks >= old(urgentChecks)
        invariant client.ringChecks == old(client.ringChecks) + (urgentChecks - old(urgentChecks))
        invariant client.position >= old(client.position)
        invariant client.mapping.st.acked >= old(client.mapping.st.acked)
        invariant old(Covered()) ==> Covered()
        invariant Silent(old(urgentHolds), old(urgentChecks)) ==>
          !urgentHolds && client.position == old(client.position) && client.pending.length == old(client.pending.length)
          && client.mapping.st.acked == old(client.mapping.st.acked)
      {
        died := UrgentStep();
        if died {
          return;
        }
        n := n - 1;
      }
    }

    /** The urgent thread was idle then and has begun nothing since. */
    predicate Silent(held: bool, checks: nat)
      reads this`urgentChecks
    {
      !held && urgentChecks == checks
    }

    // ---------- the frame thread ----------

    /** drain_ring, once the urgent thread has let go of the mutex. */
    method Drain(acknowledge: bool) returns (died: bool)
      requires Running()
      modifies this`trace, this`urgentHolds, this`urgentChecks
      modifies client, client.mapping, client.pending, client.pending.records, client.sequences
      ensures old(client.mapping.st.history) <= client.mapping.st.history
      ensures died ==> Doomed()
      ensures !died ==> Kinds(trace) == Kinds(old(trace)) + [Drains(acknowledge)]
      ensures !died ==> FirstUsed(trace) == FirstUsed(old(trace))
      ensures client.pending.records == old(client.pending.records) || fresh(client.pending.records)
      ensures urgentChecks >= old(urgentChecks)
      ensures !died ==> client.ringChecks == old(client.ringChecks) + 1 + (urgentChecks - old(urgentChecks))
      ensures !died ==> Running() && !urgentHolds && client.position >= |old(client.mapping.st.history)|
      ensures !died && acknowledge ==> client.mapping.st.acked == client.position
      ensures !died ==> client.mapping.st.acked >= old(client.mapping.st.acked)
      ensures !died && !acknowledge && Silent(old(urgentHolds), old(urgentChecks)) ==>
        client.mapping.st.acked == old(client.mapping.st.acked)
    {
      hide Running, Kinds, FirstUsed, LastUsed;
      died := Urgent();
      if died {
        return;
      }
      if urgentHolds {
        LetGo();
      }
      TraceMore(trace, Action(Drains(acknowledge), |client.mapping.st.history|));
      died := DrainAlone(acknowledge);
    }

    method DrainAlone(acknowledge: bool) returns (died: bool)
      requires Running()
      modifies this`trace, client, client.mapping, client.pending, client.pending.records, client.sequences
      ensures old(client.mapping.st.history) <= client.mapping.st.history
      ensures died ==> Doomed()
      ensures !died ==> trace == old(trace) + [Action(Drains(acknowledge), |old(client.mapping.st.history)|)]
      ensures client.pending.records == old(client.pending.records) || fresh(client.pending.records)
      ensures client.ringChecks == old(client.ringChecks) + 1
      ensures !died ==> Running() && client.position >= |old(client.mapping.st.history)|
      ensures !died ==> client.mapping.st.acked == if acknowledge then client.position else old(client.mapping.st.acked)
      ensures !died ==> client.mapping.st.acked >= old(client.mapping.st.acked)
    {
      hide Wrap, Invariant, Epoch, AccountAll, NoteAll;
      ghost var h, middle, waiting := client.mapping.st.history, client.position, client.pending.Contents();
      var total;
      ghost var snapshots;
      died, total, snapshots := client.DrainRing(false, acknowledge);
      BasicsOf(old(client.mapping.st));
      DeathOf(from, middle, middle, |client.mapping.st.history|, |queued|, |used|, |waiting|);
      if !died {
        DrainTraced(trace, from, |queued|, began, middle, client.position, |used|, acknowledge, |h|);
        trace := trace + [Action(Drains(acknowledge), |h|)];
        Extends(used, waiting, queued, h, client.mapping.st.history, from, middle, client.position, tallied);
      }
    }

    /** take_pending, possibly in the middle of an urgent drain. Everything read so far is then used. */
    method Take() returns (died: bool, count: nat)
      requires Running()
      modifies this`trace, this`urgentHolds, this`urgentChecks, this`summary, this`used
      modifies client, client.mapping, client.pending, client.pending.records, client.sequences
      ensures old(client.mapping.st.history) <= client.mapping.st.history
      ensures died ==> Doomed()
      ensures !died ==> Kinds(trace) == Kinds(old(trace)) + [Takes]
      ensures !died ==>
        FirstUsed(trace) == if FirstUsed(old(trace)) >= 0 then FirstUsed(old(trace)) else |used|
      ensures client.pending.records == old(client.pending.records) || fresh(client.pending.records)
      ensures urgentChecks >= old(urgentChecks)
      ensures client.ringChecks == old(client.ringChecks) + (urgentChecks - old(urgentChecks))
      ensures !died ==> Running() && client.pending.length == 0
      ensures !died ==> count == |used| - |old(used)| && |used| >= |queued| + old(client.position) - from
      ensures !died ==> client.mapping.st.acked >= old(client.mapping.st.acked)
      ensures !died ==> client.position >= old(client.position) && (old(Covered()) ==> Covered())
      ensures !died && Silent(old(urgentHolds), old(urgentChecks)) ==>
        !urgentHolds && client.position == old(client.position)
        && client.mapping.st.acked == old(client.mapping.st.acked)
    {
      hide Running, Kinds, FirstUsed, LastUsed;
      count := 0;
      died := Urgent();
      if !died {
        count := TakeAlone();
        TraceMore(old(trace), Action(Takes, |used|));
      }
    }

    method TakeAlone() returns (count: nat)
      requires Running()
      modifies this`trace, this`summary, this`used, client.pending`length
      ensures Running() && client.pending.length == 0
      ensures trace == old(trace) + [Action(Takes, |used|)]
      ensures count == |used| - |old(used)| && |used| == |queued| + client.position - from
    {
      hide AccountAll, NoteAll;
      var records := client.pending.TakeAll();
      count := records.Length;
      summary := SummarizeRecords(records, summary);
      TakesCompose(UNKNOWN_SUMMARY, used, records[..]);
      used := used + records[..];
      assert used + [] == used;
      TakeTraced(trace, from, |queued|, began, client.position, |used| - count, |used|);
      trace := trace + [Action(Takes, |used|)];
    }

    /** The ACK placed outside a drain, under the same mutex. */
    method Acknowledge(now: bool) returns (died: bool)
      requires Running()
      modifies this`trace, this`urgentHolds, this`urgentChecks
      modifies client, client.mapping, client.pending, client.pending.records, client.sequences
      ensures old(client.mapping.st.history) <= client.mapping.st.history
      ensures died ==> Doomed()
      ensures !died ==> Kinds(trace) == Kinds(old(trace)) + if now then [Acknowledges] else []
      ensures !died ==> FirstUsed(trace) == FirstUsed(old(trace))
      ensures client.pending.records == old(client.pending.records) || fresh(client.pending.records)
      ensures urgentChecks >= old(urgentChecks)
      ensures client.ringChecks == old(client.ringChecks) + (urgentChecks - old(urgentChecks))
      ensures !died ==> Running() && client.position >= old(client.position)
      ensures !died && now ==> client.mapping.st.acked == client.position
      ensures !died ==> client.mapping.st.acked >= old(client.mapping.st.acked)
      ensures !died && old(Covered()) ==> Covered()
      ensures !died && Silent(old(urgentHolds), old(urgentChecks)) ==>
        !urgentHolds && client.position == old(client.position) && client.pending.length == old(client.pending.length)
        && (!now ==> client.mapping.st.acked == old(client.mapping.st.acked))
    {
      hide Running, Kinds, FirstUsed, LastUsed;
      died := Urgent();
      if died || !now {
        return;
      }
      LetGo();
      LogAck();
    }

    ghost method LogAck()
      requires Running()
      modifies this`trace
      ensures Running() && trace == old(trace) + [Action(Acknowledges, 0)]
      ensures Kinds(trace) == Kinds(old(trace)) + [Acknowledges] && FirstUsed(trace) == FirstUsed(old(trace))
    {
      TraceMore(trace, Action(Acknowledges, 0));
      hide Kinds, FirstUsed, LastUsed, AccountAll, NoteAll;
      trace := trace + [Action(Acknowledges, 0)];
    }

    /** The repeated early checks of the multi-check policies. */
    method DrainRepeatedly(checks: nat) returns (died: bool)
      requires Running()
      modifies this`trace, this`urgentHolds, this`urgentChecks
      modifies client, client.mapping, client.pending, client.pending.records, client.sequences
      ensures old(client.mapping.st.history) <= client.mapping.st.history
      ensures died ==> Doomed()
      ensures !died ==> Kinds(trace) == Kinds(old(trace)) + EarlyDrains(checks)
      ensures !died ==> FirstUsed(trace) == FirstUsed(old(trace))
      ensures client.pending.records == old(client.pending.records) || fresh(client.pending.records)
      ensures urgentChecks >= old(urgentChecks)
      ensures !died ==> client.ringChecks == old(client.ringChecks) + checks + (urgentChecks - old(urgentChecks))
      ensures !died ==> Running()
      ensures !died && checks > 0 ==> client.position >= |old(client.mapping.st.history)| && !urgentHolds
      ensures !died ==> client.mapping.st.acked >= old(client.mapping.st.acked)
      ensures !died && Silent(old(urgentHolds), old(urgentChecks)) ==>
        client.mapping.st.acked == old(client.mapping.st.acked)
    {
      hide Running, Kinds, FirstUsed, LastUsed;
      died := false;
      var i := 0;
      while i < checks
        invariant 0 <= i <= checks && Running()
        invariant old(client.mapping.st.history) <= client.mapping.st.history
        invariant client.pending.records == old(client.pending.records) || fresh(client.pending.records)
        invariant Kinds(trace) == Kinds(old(trace)) + EarlyDrains(i) && FirstUsed(trace) == FirstUsed(old(trace))
        invariant urgentChecks >= old(urgentChecks)
        invariant client.ringChecks == old(client.ringChecks) + i + (urgentChecks - old(urgentChecks))
        invariant i > 0 ==> client.position >= |old(client.mapping.st.history)| && !urgentHolds
        invariant i == 0 ==> urgentHolds == old(urgentHolds)
        invariant client.mapping.st.acked >= old(client.mapping.st.acked)
        invariant Silent(old(urgentHolds), old(urgentChecks)) ==>
          client.mapping.st.acked == old(client.mapping.st.acked)
      {
        died := Drain(false);
        if died {
          return;
        }
        i := i + 1;
      }
    }

    /** The final latch of the late-latch policy: drain and take, then recheck; with critical placement
        the first drain and the last recheck acknowledge, those between do not. */
    method FinalLatch(rechecks: nat, acknowledge: bool) returns (died: bool, late: nat)
      requires Running() && FirstUsed(trace) >= 0
      modifies this`trace, this`urgentHolds, this`urgentChecks, this`summary, this`used
      modifies client, client.mapping, client.pending, client.pending.records, client.sequences
      ensures old(client.mapping.st.history) <= client.mapping.st.history
      ensures died ==> Doomed()
      ensures !died ==>
        Kinds(trace) == Kinds(old(trace)) + [Drains(acknowledge), Takes] + Rechecks(rechecks, rechecks, acknowledge)
      ensures !died ==> FirstUsed(trace) == FirstUsed(old(trace))
      ensures client.pending.records == old(client.pending.records) || fresh(client.pending.records)
      ensures urgentChecks >= old(urgentChecks)
      ensures !died ==> client.ringChecks == old(client.ringChecks) + 1 + rechecks + (urgentChecks - old(urgentChecks))
      ensures !died ==> Running() && client.position >= |old(client.mapping.st.history)| && client.pending.length == 0
      ensures !died ==> late == |used| - |old(used)| && |used| >= |queued| + |old(client.mapping.st.history)| - from
      ensures !died && acknowledge ==> Covered() && client.mapping.st.acked >= |old(client.mapping.st.history)|
      ensures !died ==> client.mapping.st.acked >= old(client.mapping.st.acked)
      ensures !died && Silent(old(urgentHolds), old(urgentChecks)) ==>
        !urgentHolds && (!acknowledge ==> client.mapping.st.acked == old(client.mapping.st.acked))
    {
      hide Running, Kinds, FirstUsed, LastUsed;
      died, late := LatchOnce(acknowledge);
      if died {
        return;
      }
      var i := 0;
      while i < rechecks
        invariant 0 <= i <= rechecks && Running() && client.pending.length == 0
        invariant old(client.mapping.st.history) <= client.mapping.st.history
        invariant client.pending.records == old(client.pending.records) || fresh(client.pending.records)
        invariant FirstUsed(trace) == FirstUsed(old(trace))
        invariant Kinds(trace)
          == Kinds(old(trace)) + [Drains(acknowledge), Takes] + Rechecks(i, rechecks, acknowledge)
        invariant urgentChecks >= old(urgentChecks)
        invariant client.ringChecks == old(client.ringChecks) + 1 + i + (urgentChecks - old(urgentChecks))
        invariant client.position >= |old(client.mapping.st.history)|
        invariant late == |used| - |old(used)| && |used| >= |queued| + |old(client.mapping.st.history)| - from
        invariant acknowledge ==> client.mapping.st.acked >= |old(client.mapping.st.history)|
        invariant acknowledge && i == rechecks ==> Covered()
        invariant acknowledge && i == 0 ==> Covered()
        invariant client.mapping.st.acked >= old(client.mapping.st.acked)
        invariant Silent(old(urgentHolds), old(urgentChecks)) ==>
          !urgentHolds && (!acknowledge ==> client.mapping.st.acked == old(client.mapping.st.acked))
      {
        var extra;
        died, extra := LatchOnce(acknowledge && i + 1 == rechecks);
        if died {
          return;
        }
        late := late + extra;
        i := i + 1;
      }
    }

    /** The drains and takes of one frame. */
    method Latch(policy: Policy, critical: bool) returns (died: bool, total: nat, late: nat)
      requires Running() && used == [] && trace == []
      modifies this`trace, this`urgentHolds, this`urgentChecks, this`summary, this`used
      modifies client, client.mapping, client.pending, client.pending.records, client.sequences
      ensures old(client.mapping.st.history) <= client.mapping.st.history
      ensures died ==> Doomed()
      ensures !died ==> Kinds(trace) == LatchSchedule(policy, critical) && FirstUsed(trace) == total
      ensures client.pending.records == old(client.pending.records) || fresh(client.pending.records)
      ensures urgentChecks >= old(urgentChecks)
      ensures !died ==>
        client.ringChecks == old(client.ringChecks) + Checks(policy) + (urgentChecks - old(urgentChecks))
      ensures !died ==> Running() && total + late == |used|
      ensures !died ==> |used| >= |queued| + |old(client.mapping.st.history)| - from
      ensures !died ==> client.position >= |old(client.mapping.st.history)|
      ensures !died && critical ==> Covered() && client.mapping.st.acked >= |old(client.mapping.st.history)|
      ensures !died ==> client.mapping.st.acked >= old(client.mapping.st.acked)
      ensures !died && Silent(old(urgentHolds), old(urgentChecks)) ==> client.pending.length == 0 && !urgentHolds
      ensures !died && !critical && Silent(old(urgentHolds), old(urgentChecks)) ==>
        client.mapping.st.acked == old(client.mapping.st.acked)
      ensures !died && (policy.Late? || policy.Multi?) ==> late == 0
    {
      NoneYet();
      hide Running, Kinds, FirstUsed, LastUsed, EarlyDrains, Rechecks;
      total, late := 0, 0;
      match policy {
        case Late => died, total := LatchOnce(critical);
        case Multi(checks) => died, total := LatchMulti(if checks == 0 then 1 else checks, critical);
        case LateLatch(checks, rechecks) =>
          died, total := LatchMulti(if checks == 0 then 1 else checks, false);
          if died { return; }
          died, late := FinalLatch(rechecks, critical);
        case TwoStage =>
          died, total := LatchOnce(false);
          if died { return; }
          died, late := LatchOnce(critical);
      }
    }

    method LatchOnce(acknowledge: bool) returns (died: bool, count: nat)
      requires Running()
      modifies this`trace, this`urgentHolds, this`urgentChecks, this`summary, this`used
      modifies client, client.mapping, client.pending, client.pending.records, client.sequences
      ensures old(client.mapping.st.history) <= client.mapping.st.history
      ensures died ==> Doomed()
      ensures !died ==> Kinds(trace) == Kinds(old(trace)) + [Drains(acknowledge), Takes]
      ensures !died ==>
        FirstUsed(trace) == if FirstUsed(old(trace)) >= 0 then FirstUsed(old(trace)) else |used|
      ensures client.pending.records == old(client.pending.records) || fresh(client.pending.records)
      ensures urgentChecks >= old(urgentChecks)
      ensures !died ==> client.ringChecks == old(client.ringChecks) + 1 + (urgentChecks - old(urgentChecks))
      ensures !died ==> Running() && client.pending.length == 0 && client.position >= |old(client.mapping.st.history)|
      ensures !died ==> count == |used| - |old(used)| && |used| >= |queued| + |old(client.mapping.st.history)| - from
      ensures !died && acknowledge ==> Covered() && client.mapping.st.acked >= |old(client.mapping.st.history)|
      ensures !died ==> client.mapping.st.acked >= old(client.mapping.st.acked)
      ensures !died && Silent(old(urgentHolds), old(urgentChecks)) ==>
        !urgentHolds && (!acknowledge ==> client.mapping.st.acked == old(client.mapping.st.acked))
    {
      hide Running, Kinds, FirstUsed, LastUsed;
      count := 0;
      died := Drain(acknowledge);
      if !died {
        died, count := Take();
      }
    }

    method LatchMulti(checks: nat, acknowledge: bool) returns (died: bool, count: nat)
      requires Running() && checks > 0
      modifies this`trace, this`urgentHolds, this`urgentChecks, this`summary, this`used
      modifies client, client.mapping, client.pending, client.pending.records, client.sequences
      ensures old(client.mapping.st.history) <= client.mapping.st.history
      ensures died ==> Doomed()
      ensures !died ==>
        Kinds(trace)
          == Kinds(old(trace)) + (EarlyDrains(checks) + [Takes] + if acknowledge then [Acknowledges] else [])
      ensures !died ==>
        FirstUsed(trace) == if FirstUsed(old(trace)) >= 0 then FirstUsed(old(trace)) else |used|
      ensures client.pending.records == old(client.pending.records) || fresh(client.pending.records)
      ensures urgentChecks >= old(urgentChecks)
      ensures !died ==> client.ringChecks == old(client.ringChecks) + checks + (urgentChecks - old(urgentChecks))
      ensures !died ==> Running() && client.position >= |old(client.mapping.st.history)|
      ensures !died ==> count == |used| - |old(used)| && |used| >= |queued| + |old(client.mapping.st.history)| - from
      ensures !died && acknowledge ==> Covered() && client.mapping.st.acked >= |old(client.mapping.st.history)|
      ensures !died ==> client.mapping.st.acked >= old(client.mapping.st.acked)
      ensures !died && Silent(old(urgentHolds), old(urgentChecks)) ==>
        !urgentHolds && client.pending.length == 0
        && (!acknowledge ==> client.mapping.st.acked == old(client.mapping.st.acked))
    {
      hide Running, Kinds, FirstUsed, LastUsed, EarlyDrains;
      count := 0;
      died := DrainRepeatedly(checks);
      if died {
        return;
      }
      died, count := Take();
      if !died && acknowledge {
        died := Acknowledge(true);
      }
    }

    /** One frame of run_frame_policy, with the ACK placed inside the drain, after use, or after the
        frame, while the urgent thread drains and acknowledges as it likes. Whatever the policy and the
        interference: used and still queued records together are those queued at the start followed by
        exactly the history moved past, in order; everything published before the frame began is among
        the used ones; the summary is that of the used ones; every record read is tallied once; every
        check is the frame's or the urgent thread's; and unless the placement is after the frame,
        everything published before it began is acknowledged, and everything read too once the urgent
        thread is not in the middle of a drain. If the urgent thread stays silent, nothing stays queued
        and a frame that acknowledges after the frame has acknowledged nothing. */
    method RunFrame(policy: Policy, placement: Placement) returns (died: bool, total: nat, late: nat)
      requires client.Valid()
      modifies this, client, client.mapping, client.pending, client.pending.records, client.sequences
      ensures old(client.mapping.st.history) <= client.mapping.st.history
      ensures died ==>
        DeathExplained(old(client.position), |client.mapping.st.history|, |old(client.pending.Contents())|)
      ensures !died ==> Kinds(trace) == Schedule(policy, placement)
      ensures !died ==> total == FirstUsed(trace) && late == LastUsed(trace) - FirstUsed(trace)
      ensures !died ==>
        Fresh(trace, old(client.position), |old(client.pending.Contents())|, |old(client.mapping.st.history)|)
      ensures !died ==> client.Valid() && old(client.position) <= client.position
      ensures !died ==>
        used + client.pending.Contents()
          == old(client.pending.Contents()) + client.mapping.st.history[old(client.position)..client.position]
      ensures !died ==>
        |used| >= |old(client.pending.Contents())| + |old(client.mapping.st.history)| - old(client.position)
      ensures !died ==> total + late == |used| && summary == NoteAll(UNKNOWN_SUMMARY, used)
      ensures !died ==>
        client.sequences.View()
          == AccountAll(old(client.sequences.View()), client.mapping.st.history[old(client.position)..client.position])
      ensures !died && placement != PostFrame ==>
        client.mapping.st.acked >= |old(client.mapping.st.history)|
        && (urgentHolds || client.mapping.st.acked == client.position)
      ensures !died ==> urgentChecks >= old(urgentChecks)
      ensures !died ==>
        client.ringChecks == old(client.ringChecks) + Checks(policy) + (urgentChecks - old(urgentChecks))
      ensures !died ==>
        expensiveActions == old(expensiveActions) + Some(total) + if policy.TwoStage? then Some(late) else 0
      ensures !died ==> lateLatchRecords == old(lateLatchRecords) + if policy.LateLatch? then late else 0
      ensures !died ==> lateLatchActions == old(lateLatchActions) + if policy.LateLatch? then Some(late) else 0
      ensures !died && (policy.Late? || policy.Multi?) ==> late == 0
      ensures !died && Silent(old(urgentHolds), old(urgentChecks)) ==> client.pending.Contents() == [] && !urgentHolds
      ensures !died && Silent(old(urgentHolds), old(urgentChecks)) && placement == PostFrame ==>
        client.mapping.st.acked == old(client.mapping.st.acked)
    {
      hide Running, NoteAll, AccountAll, Wrap, Invariant, Checks, Schedule, Kinds, FirstUsed, LastUsed, Fresh;
      hide DeathExplained, Epoch;
      Begin();
      died, total, late := FrameBody(policy, placement);
      if !died {
        RunningMeans();
      }
    }

    method FrameBody(policy: Policy, placement: Placement) returns (died: bool, total: nat, late: nat)
      requires Running() && used == [] && trace == []
      modifies this`trace, this`urgentHolds, this`urgentChecks, this`summary, this`used
      modifies this`expensiveActions, this`lateLatchActions, this`lateLatchRecords
      modifies client, client.mapping, client.pending, client.pending.records, client.sequences
      ensures old(client.mapping.st.history) <= client.mapping.st.history
      ensures died ==> Doomed()
      ensures !died ==> Kinds(trace) == Schedule(policy, placement) && FirstUsed(trace) == total
      ensures !died ==> Running() && total + late == |used|
      ensures !died ==> |used| >= |queued| + |old(client.mapping.st.history)| - from
      ensures !died && placement != PostFrame ==>
        client.mapping.st.acked >= |old(client.mapping.st.history)| && Covered()
      ensures !died ==> urgentChecks >= old(urgentChecks)
      ensures !died ==>
        client.ringChecks == old(client.ringChecks) + Checks(policy) + (urgentChecks - old(urgentChecks))
      ensures !died ==>
        expensiveActions == old(expensiveActions) + Some(total) + if policy.TwoStage? then Some(late) else 0
      ensures !died ==> lateLatchRecords == old(lateLatchRecords) + if policy.LateLatch? then late else 0
      ensures !died ==> lateLatchActions == old(lateLatchActions) + if policy.LateLatch? then Some(late) else 0
      ensures !died && (policy.Late? || policy.Multi?) ==> late == 0
      ensures !died && Silent(old(urgentHolds), old(urgentChecks)) ==> client.pending.length == 0 && !urgentHolds
      ensures !died && Silent(old(urgentHolds), old(urgentChecks)) && placement == PostFrame ==>
        client.mapping.st.acked == old(client.mapping.st.acked)
    {
      hide Running, Kinds, FirstUsed, LastUsed, LatchSchedule;
      died, total, late := Latch(policy, placement == Critical);
      if died {
        return;
      }
      CountActions(policy, total, late);
      died := Acknowledge(placement == PostUse);
      if !died {
        died := Urgent();
      }
    }

    method CountActions(policy: Policy, total: nat, late: nat)
      modifies this`expensiveActions, this`lateLatchActions, this`lateLatchRecords
      ensures expensiveActions == old(expensiveActions) + Some(total) + if policy.TwoStage? then Some(late) else 0
      ensures lateLatchRecords == old(lateLatchRecords) + if policy.LateLatch? then late else 0
      ensures lateLatchActions == old(lateLatchActions) + if policy.LateLatch? then Some(late) else 0
    {
      if total > 0 {
        expensiveActions := expensiveActions + 1;
      }
      if policy.TwoStage? && late > 0 {
        expensiveActions := expensiveActions + 1;
      }
      if policy.LateLatch? && late > 0 {
        lateLatchActions := lateLatchActions + 1;
        lateLatchRecords := lateLatchRecords + late;
      }
    }

    lemma RunningMeans()
      requires Running()
      ensures client.Valid() && from <= client.position
      ensures used + client.pending.Contents() == queued + client.mapping.st.history[from..client.position]
      ensures client.sequences.View() == AccountAll(tallied, client.mapping.st.history[from..client.position])
      ensures summary == NoteAll(UNKNOWN_SUMMARY, used)
      ensures Fresh(trace, from, |queued|, began) && LastUsed(trace) == |used|
    {
    }
  }

  /** Reading on from middle to hi extends both sides of Running alike. */
  lemma Extends(used: seq<Record>, waiting: seq<Record>, queued: seq<Record>, h: seq<Record>, k: seq<Record>,
                lo: nat, middle: nat, hi: nat, t: Tally)
    requires h <= k && lo <= middle <= |h| && middle <= hi <= |k|
    requires used + waiting == queued + h[lo..middle]
    ensures used + (waiting + k[middle..hi]) == queued + k[lo..hi]
    ensures AccountAll(t, k[lo..hi]) == AccountAll(AccountAll(t, h[lo..middle]), k[middle..hi])
  {
    hide AccountAll;
    JoinSlices(h, k, lo, middle, hi, t);
    Regroup(used, waiting, k[middle..hi]);
    Regroup(queued, h[lo..middle], k[middle..hi]);
  }

  lemma Regroup(a: seq<Record>, b: seq<Record>, c: seq<Record>)
    ensures a + (b + c) == (a + b) + c
  {
  }

  lemma JoinSlices(h: seq<Record>, k: seq<Record>, lo: nat, mid: nat, hi: nat, t: Tally)
    requires h <= k && lo <= mid <= |h| && mid <= hi <= |k|
    ensures k[lo..hi] == h[lo..mid] + k[mid..hi]
    ensures AccountAll(t, k[lo..hi]) == AccountAll(AccountAll(t, h[lo..mid]), k[mid..hi])
  {
    BatchesDoNotMatter(t, h[lo..mid], k[mid..hi]);
  }
}
