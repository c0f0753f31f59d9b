/** Dependencies between the participants of kernel/power.c. */
module PowerGraph {
  import opened PowerCycle

  const NAME_CAPACITY: nat := 32
  const DEPENDENCY_CAPACITY: nat := 8

  /** `callable` says that both callbacks were given. */
  datatype Participant = Participant(name: string, dependencies: seq<string>, callable: bool)

  predicate NameOk(name: string) {
    0 < |name| < NAME_CAPACITY
  }

  ghost predicate Registered(ps: seq<Participant>) {
    && |ps| <= PARTICIPANT_CAPACITY
    && (forall i, j :: 0 <= i < j < |ps| ==> ps[i].name != ps[j].name)
  }

  /** Participant i names participant j among its dependencies. */
  predicate DependsOn(ps: seq<Participant>, i: nat, j: nat) {
    i < |ps| && j < |ps| && ps[j].name in ps[i].dependencies
  }

  predicate Known(ps: seq<Participant>, name: string) {
    exists j :: 0 <= j < |ps| && ps[j].name == name
  }

  /** Every dependency named is registered. */
  predicate Resolved(ps: seq<Participant>) {
    forall i, k :: 0 <= i < |ps| && 0 <= k < |ps[i].dependencies| ==> Known(ps, ps[i].dependencies[k])
  }

  ghost predicate Path(ps: seq<Participant>, p: seq<nat>) {
    forall k :: 0 <= k < |p| - 1 ==> DependsOn(ps, p[k], p[k + 1])
  }

  /** Some participant depends on itself, directly or through others. */
  ghost predicate Cyclic(ps: seq<Participant>) {
    exists p :: |p| >= 2 && Path(ps, p) && p[0] == p[|p| - 1]
  }

  /** Each dependency of order[a] stands before a. */
  ghost predicate DependenciesFirst(ps: seq<Participant>, order: seq<nat>) {
    forall a, k :: 0 <= a < |order| && order[a] < |ps| && 0 <= k < |ps[order[a]].dependencies| ==>
      Before(ps, order, a, ps[order[a]].dependencies[k])
  }

  ghost predicate Before(ps: seq<Participant>, order: seq<nat>, a: int, name: string) {
    exists b :: 0 <= b < a && b < |order| && order[b] < |ps| && ps[order[b]].name == name
  }

  /** Distinct participants in an order with all dependencies first. */
  ghost predicate Sorted(ps: seq<Participant>, order: seq<nat>) {
    && (forall a :: 0 <= a < |order| ==> order[a] < |ps|)
    && (forall a, b :: 0 <= a < b < |order| ==> order[a] != order[b])
    && DependenciesFirst(ps, order)
  }

  ghost predicate TopologicalOrder(ps: seq<Participant>, order: seq<nat>) {
    Sorted(ps, order) && |order| == |ps|
  }

  // ----- Counting -----

  lemma {:induction false} Pigeonhole(s: seq<nat>, n: nat)
    requires forall i :: 0 <= i < |s| ==> s[i] < n
    requires forall i, j :: 0 <= i < j < |s| ==> s[i] != s[j]
    ensures |s| <= n
    decreases n
  {
    if |s| > 0 {
      assert s[0] < n;
      if i :| 0 <= i < |s| && s[i] == n - 1 {
        Pigeonhole(s[..i] + s[i + 1..], n - 1);
      } else {
        Pigeonhole(s, n - 1);
      }
    }
  }

  /** A full set of distinct participants holds every participant. */
  lemma FullOrderHolds(s: seq<nat>, n: nat, x: nat)
    requires forall i :: 0 <= i < |s| ==> s[i] < n
    requires forall i, j :: 0 <= i < j < |s| ==> s[i] != s[j]
    requires |s| == n && x < n
    ensures x in s
  {
    if x !in s {
      Pigeonhole(s + [x], n);
      assert false;
    }
  }

  // ----- An order exists exactly for resolved, acyclic graphs -----

  lemma OrderResolves(ps: seq<Participant>, order: seq<nat>)
    requires TopologicalOrder(ps, order)
    ensures Resolved(ps)
  {
    forall i, k | 0 <= i < |ps| && 0 <= k < |ps[i].dependencies|
      ensures Known(ps, ps[i].dependencies[k])
    {
      FullOrderHolds(order, |ps|, i);
      var a :| 0 <= a < |order| && order[a] == i;
      assert Before(ps, order, a, ps[order[a]].dependencies[k]);
      var b :| 0 <= b < a && ps[order[b]].name == ps[i].dependencies[k];
      assert ps[order[b]].name == ps[i].dependencies[k];
    }
  }

  /** In a topological order a dependency stands strictly before its dependent. */
  lemma DependencyStandsBefore(ps: seq<Participant>, order: seq<nat>, a: nat, j: nat)
    requires Registered(ps) && Sorted(ps, order) && a < |order| && DependsOn(ps, order[a], j)
    ensures exists b :: 0 <= b < a && order[b] == j
  {
    var k :| 0 <= k < |ps[order[a]].dependencies| && ps[order[a]].dependencies[k] == ps[j].name;
    assert Before(ps, order, a, ps[order[a]].dependencies[k]);
    var b :| 0 <= b < a && order[b] < |ps| && ps[order[b]].name == ps[j].name;
    assert order[b] == j;
  }

  /** Along a dependency path the position in the order strictly falls. */
  lemma {:induction false} PathsDescend(ps: seq<Participant>, order: seq<nat>, p: seq<nat>, a: nat)
    requires Registered(ps) && TopologicalOrder(ps, order)
    requires |p| >= 2 && Path(ps, p) && a < |order| && order[a] == p[0]
    ensures exists b :: 0 <= b < a && order[b] == p[|p| - 1]
    decreases p
  {
    assert DependsOn(ps, p[0], p[1]);
    DependencyStandsBefore(ps, order, a, p[1]);
    var b :| 0 <= b < a && order[b] == p[1];
    if |p| > 2 {
      var q := p[1..];
      assert forall k :: 0 <= k < |q| - 1 ==> DependsOn(ps, q[k], q[k + 1]) by {
        forall k | 0 <= k < |q| - 1 ensures DependsOn(ps, q[k], q[k + 1]) {
          assert DependsOn(ps, p[k + 1], p[k + 2]);
        }
      }
      PathsDescend(ps, order, q, b);
    }
  }

  lemma OrderIsAcyclic(ps: seq<Participant>, order: seq<nat>)
    requires Registered(ps) && TopologicalOrder(ps, order)
    ensures !Cyclic(ps)
  {
    if Cyclic(ps) {
      var p :| |p| >= 2 && Path(ps, p) && p[0] == p[|p| - 1];
      assert DependsOn(ps, p[0], p[1]);
      FullOrderHolds(order, |ps|, p[0]);
      var a :| 0 <= a < |order| && order[a] == p[0];
      PathsDescend(ps, order, p, a);
      assert false;
    }
  }

  // ----- What the order means for a cycle -----

  lemma TopologicalIsOrder(ps: seq<Participant>, order: seq<nat>)
    requires Registered(ps) && TopologicalOrder(ps, order)
    ensures IsOrder(order)
  {
  }

  /** Order of two elements in a sequence without repetitions. */
  ghost predicate Precedes(s: seq<nat>, x: nat, y: nat) {
    exists a, b :: 0 <= a < b < |s| && s[a] == x && s[b] == y
  }

  lemma ReversePrecedes(s: seq<nat>, x: nat, y: nat)
    requires Precedes(s, x, y)
    ensures Precedes(Reverse(s), y, x)
  {
    var a, b :| 0 <= a < b < |s| && s[a] == x && s[b] == y;
    assert Reverse(s)[|s| - 1 - b] == y && Reverse(s)[|s| - 1 - a] == x;
  }

  lemma DependencyPrecedes(ps: seq<Participant>, order: seq<nat>, i: nat, j: nat)
    requires Registered(ps) && TopologicalOrder(ps, order) && DependsOn(ps, i, j)
    ensures Precedes(order, j, i)
  {
    FullOrderHolds(order, |ps|, i);
    var a :| 0 <= a < |order| && order[a] == i;
    DependencyStandsBefore(ps, order, a, j);
  }

  /** A prefix holding y holds everything before y. */
  lemma PrefixPrecedes(s: seq<nat>, prefix: seq<nat>, x: nat, y: nat)
    requires prefix <= s && y in prefix && Precedes(s, x, y)
    requires forall i, j :: 0 <= i < j < |s| ==> s[i] != s[j]
    ensures Precedes(prefix, x, y)
  {
    var a, b :| 0 <= a < b < |s| && s[a] == x && s[b] == y;
    var c :| 0 <= c < |prefix| && prefix[c] == y;
    assert s[c] == y && b == c;
    assert prefix[a] == x;
  }

  /** In every whole cycle a participant is suspended before the participants it depends on, and
      resumed after them. */
  lemma DependentsGoFirst(ps: seq<Participant>, order: seq<nat>, cycle: seq<Event>, i: nat, j: nat)
    requires Registered(ps) && TopologicalOrder(ps, order) && WholeCycle(order, cycle)
    requires DependsOn(ps, i, j) && j in Successes(cycle)
    ensures Precedes(Successes(cycle), i, j) && Precedes(Resumes(cycle), j, i)
  {
    CycleResumesWhatItSuspended(order, cycle);
    DependencyPrecedes(ps, order, i, j);
    ReversePrecedes(order, j, i);
    PrefixPrecedes(Reverse(order), Successes(cycle), i, j);
    ReversePrecedes(Successes(cycle), i, j);
  }
}
