/** The policy-level Pareto frontier over latency, actions, context switches and transport CPU. */
module Pareto {

  datatype Candidate = Candidate(p99: real, actions: real, contextSwitches: real, cpu: real)

  /** b is no worse than a in every measure and better in one. */
  predicate Dominates(b: Candidate, a: Candidate)
  {
    && b.p99 <= a.p99 && b.actions <= a.actions && b.contextSwitches <= a.contextSwitches && b.cpu <= a.cpu
    && (b.p99 < a.p99 || b.actions < a.actions || b.contextSwitches < a.contextSwitches || b.cpu < a.cpu)
  }

  /** The nested loop of the analysis. */
  method Frontier(candidates: seq<Candidate>) returns (optimal: array<bool>)
    ensures fresh(optimal) && optimal.Length == |candidates|
    ensures forall i :: 0 <= i < |candidates| ==> optimal[i] == OnFrontier(candidates, i)
  {
    optimal := new bool[|candidates|];
    var i := 0;
    while i < |candidates|
      invariant 0 <= i <= |candidates|
      invariant forall k :: 0 <= k < i ==> optimal[k] == OnFrontier(candidates, k)
    {
      var dominated := IsDominated(candidates, i);
      optimal[i] := !dominated;
      i := i + 1;
    }
  }

  method IsDominated(candidates: seq<Candidate>, i: nat) returns (dominated: bool)
    requires i < |candidates|
    ensures dominated == !OnFrontier(candidates, i)
  {
    dominated := false;
    var j := 0;
    while j < |candidates|
      invariant 0 <= j <= |candidates|
      invariant !dominated && forall k :: 0 <= k < j ==> !Dominates(candidates[k], candidates[i])
    {
      if j != i && Dominates(candidates[j], candidates[i]) {
        return true;
      }
      j := j + 1;
    }
  }

  predicate OnFrontier(candidates: seq<Candidate>, i: nat)
    requires i < |candidates|
  {
    forall j :: 0 <= j < |candidates| ==> !Dominates(candidates[j], candidates[i])
  }

  /** The candidates that dominate this one. */
  function Dominators(candidates: seq<Candidate>, i: nat): set<nat>
    requires i < |candidates|
  {
    set j | 0 <= j < |candidates| && Dominates(candidates[j], candidates[i])
  }

  /** Every rejected candidate is dominated by one that stays on the frontier. */
  lemma {:induction false} RejectedIsDominatedByFrontier(candidates: seq<Candidate>, i: nat) returns (f: nat)
    requires i < |candidates| && !OnFrontier(candidates, i)
    ensures f < |candidates| && OnFrontier(candidates, f) && Dominates(candidates[f], candidates[i])
    decreases |Dominators(candidates, i)|
  {
    var j: nat :| j < |candidates| && Dominates(candidates[j], candidates[i]);
    if OnFrontier(candidates, j) {
      f := j;
    } else {
      FewerDominators(candidates, j, i);
      f := RejectedIsDominatedByFrontier(candidates, j);
    }
  }

  lemma FewerDominators(candidates: seq<Candidate>, j: nat, i: nat)
    requires j < |candidates| && i < |candidates| && Dominates(candidates[j], candidates[i])
    ensures |Dominators(candidates, j)| < |Dominators(candidates, i)|
  {
    var d, e := Dominators(candidates, j), Dominators(candidates, i);
    assert j in e && j !in d && d <= e;
    SmallerSubset(d, e);
  }

  lemma SmallerSubset(d: set<nat>, e: set<nat>)
    requires d < e
    ensures |d| < |e|
  {
    var rest := e - d;
    assert |e| == |d| + |rest| by { assert e == d + rest; }
    assert rest != {};
  }

  /** The frontier of a nonempty list is nonempty, no member of it dominates another, and every
      rejected candidate is dominated by a member. */
  lemma FrontierLaws(candidates: seq<Candidate>)
    ensures candidates != [] ==> exists f :: 0 <= f < |candidates| && OnFrontier(candidates, f)
    ensures forall f, g :: 0 <= f < |candidates| && 0 <= g < |candidates| && OnFrontier(candidates, f)
                           ==> !Dominates(candidates[g], candidates[f])
    ensures forall i :: 0 <= i < |candidates| && !OnFrontier(candidates, i) ==> Covered(candidates, i)
  {
    forall i | 0 <= i < |candidates| && !OnFrontier(candidates, i) ensures Covered(candidates, i) {
      var f := RejectedIsDominatedByFrontier(candidates, i);
    }
    if candidates != [] && !OnFrontier(candidates, 0) { assert Covered(candidates, 0); }
  }

  ghost predicate Covered(candidates: seq<Candidate>, i: nat)
    requires i < |candidates|
  {
    exists f :: 0 <= f < |candidates| && OnFrontier(candidates, f) && Dominates(candidates[f], candidates[i])
  }

  /** Removing a rejected candidate never changes who else is on the frontier. */
  lemma RejectedAreRedundant(candidates: seq<Candidate>, r: nat, i: nat)
    requires r < |candidates| && i < |candidates| && i != r && !OnFrontier(candidates, r)
    ensures OnFrontier(candidates, i) <==> OnFrontier(candidates[..r] + candidates[r + 1..], if i < r then i else i - 1)
  {
    var rest := candidates[..r] + candidates[r + 1..];
    var k := if i < r then i else i - 1;
    assert rest[k] == candidates[i];
    forall j | 0 <= j < |candidates| && j != r
      ensures rest[if j < r then j else j - 1] == candidates[j]
    {}
    if OnFrontier(candidates, i) {
      forall j | 0 <= j < |rest| ensures !Dominates(rest[j], rest[k]) {
        assert rest[j] == candidates[if j < r then j else j + 1];
      }
    } else {
      var f := RejectedIsDominatedByFrontier(candidates, i);
      assert Dominates(rest[if f < r then f else f - 1], rest[k]);
    }
  }

  // ---------- which way better points ----------

  function Times(w: real, x: real): real {
    w * x
  }

  function Weighted(c: Candidate, p99: real, actions: real, contextSwitches: real, cpu: real): real
  {
    Times(p99, c.p99) + Times(actions, c.actions) + Times(contextSwitches, c.contextSwitches) + Times(cpu, c.cpu)
  }

  lemma TimesGrows(w: real, x: real, y: real)
    requires w > 0.0
    ensures x <= y ==> Times(w, x) <= Times(w, y)
    ensures x < y ==> Times(w, x) < Times(w, y)
  {
    assert Times(w, y) - Times(w, x) == w * (y - x);
    if x < y { assert w * (y - x) > 0.0; }
  }

  /** Less is better: whatever the positive prices of latency, actions, context switches and transport
      CPU, a candidate of least total price is on the frontier. */
  lemma CheapestIsOnFrontier(candidates: seq<Candidate>, i: nat, p99: real, actions: real,
                             contextSwitches: real, cpu: real)
    requires i < |candidates| && p99 > 0.0 && actions > 0.0 && contextSwitches > 0.0 && cpu > 0.0
    requires forall j :: 0 <= j < |candidates| ==>
      Weighted(candidates[i], p99, actions, contextSwitches, cpu)
        <= Weighted(candidates[j], p99, actions, contextSwitches, cpu)
    ensures OnFrontier(candidates, i)
  {
    var a := candidates[i];
    forall j | 0 <= j < |candidates| ensures !Dominates(candidates[j], a) {
      var b := candidates[j];
      TimesGrows(p99, b.p99, a.p99);
      TimesGrows(actions, b.actions, a.actions);
      TimesGrows(contextSwitches, b.contextSwitches, a.contextSwitches);
      TimesGrows(cpu, b.cpu, a.cpu);
      hide Times;
      assert Weighted(a, p99, actions, contextSwitches, cpu) <= Weighted(b, p99, actions, contextSwitches, cpu);
    }
  }

  /** A candidate that is worse than another in one measure and no better in any is not. */
  lemma WorseIsRejected(candidates: seq<Candidate>, i: nat, j: nat)
    requires i < |candidates| && j < |candidates|
    requires candidates[j].p99 <= candidates[i].p99 && candidates[j].actions <= candidates[i].actions
    requires candidates[j].contextSwitches <= candidates[i].contextSwitches && candidates[j].cpu <= candidates[i].cpu
    requires candidates[j] != candidates[i]
    ensures !OnFrontier(candidates, i)
  {
    assert Dominates(candidates[j], candidates[i]);
  }
}
