/** The failure that sorting the participants records in kernel/power.c: when it is the truth. */
module PowerFailure {
  import opened PowerCycle
  import opened PowerGraph

  /** What went wrong; refusals of a registration and of the sort carry the name recorded with them. */
  datatype FailureCode =
    | NoFailure | Argument(name: string) | Capacity(name: string) | Duplicate(name: string)
    | MissingDependency(name: string) | DependencyCycle(name: string)
    | InvalidState | Registration | Blocked | Callback | PlatformPrepare | PlatformSleep | PlatformRestore

  const UNMARKED: nat := 0
  const VISITING: nat := 1
  const VISITED: nat := 2

  // ----- What a recorded failure claims -----

  /** A participant names it and nobody has it. */
  predicate Unmet(ps: seq<Participant>, name: string) {
    !Known(ps, name) && exists i, k :: 0 <= i < |ps| && 0 <= k < |ps[i].dependencies| && ps[i].dependencies[k] == name
  }

  /** The participant depends on itself, directly or through others. */
  ghost predicate OnLoop(ps: seq<Participant>, i: nat) {
    exists p :: |p| >= 2 && Path(ps, p) && p[0] == p[|p| - 1] && p[0] == i
  }

  ghost predicate OnCycle(ps: seq<Participant>, name: string) {
    exists p :: |p| >= 2 && Path(ps, p) && p[0] == p[|p| - 1] && p[0] < |ps| && ps[p[0]].name == name
  }

  /** The failure names an unmet dependency or a participant. */
  ghost predicate Recorded(ps: seq<Participant>, f: FailureCode) {
    (f.MissingDependency? && Unmet(ps, f.name)) || (f.DependencyCycle? && Known(ps, f.name))
  }

  /** The failure is one the participants have. */
  ghost predicate Truthful(ps: seq<Participant>, f: FailureCode) {
    (f.MissingDependency? && Unmet(ps, f.name)) || (f.DependencyCycle? && OnCycle(ps, f.name))
  }

  /** The failure stays as it was until a search fails; `first` is then the failure of that search. */
  ghost predicate FailureKept(ps: seq<Participant>, was: FailureCode, f: FailureCode, first: FailureCode, clean: bool) {
    (clean ==> f == was) && (!clean ==> Recorded(ps, f) && Truthful(ps, first))
  }

  lemma TruthfulMeans(ps: seq<Participant>, f: FailureCode)
    requires Truthful(ps, f)
    ensures f.MissingDependency? ==> !Resolved(ps)
    ensures f.DependencyCycle? ==> Cyclic(ps)
    ensures f.MissingDependency? || f.DependencyCycle?
  {
    if f.MissingDependency? {
      var i, k :| 0 <= i < |ps| && 0 <= k < |ps[i].dependencies| && ps[i].dependencies[k] == f.name;
      assert !Known(ps, ps[i].dependencies[k]);
    }
  }

  /** Reaching a node of the search path again closes a dependency cycle through it. */
  lemma PathCloses(ps: seq<Participant>, path: seq<nat>)
    requires |path| > 0 && Path(ps, path) && path[|path| - 1] in path[..|path| - 1] && path[|path| - 1] < |ps|
    ensures OnLoop(ps, path[|path| - 1]) && OnCycle(ps, ps[path[|path| - 1]].name) && Cyclic(ps)
  {
    var q :| 0 <= q < |path| - 1 && path[q] == path[|path| - 1];
    var loop := path[q..];
    forall k | 0 <= k < |loop| - 1 ensures DependsOn(ps, loop[k], loop[k + 1]) {
      assert DependsOn(ps, path[q + k], path[q + k + 1]);
    }
    assert |loop| >= 2 && Path(ps, loop) && loop[0] == loop[|loop| - 1];
  }

  // ----- Participants whose search fails -----

  /** One of the names the participant depends on is nobody's. */
  predicate Lacks(ps: seq<Participant>, i: nat) {
    i < |ps| && exists k :: 0 <= k < |ps[i].dependencies| && !Known(ps, ps[i].dependencies[k])
  }

  /** No search of it can succeed, whatever it depends on otherwise. */
  ghost predicate Doomed(ps: seq<Participant>, i: nat) {
    Lacks(ps, i) || OnLoop(ps, i)
  }

  ghost predicate LeadsToDoomed(ps: seq<Participant>, p: seq<nat>) {
    |p| > 0 && Path(ps, p) && Doomed(ps, p[|p| - 1])
  }

  /** The participant depends, directly or through others, on a name that nobody has or on a cycle. */
  ghost predicate Troubled(ps: seq<Participant>, i: nat) {
    exists p :: LeadsToDoomed(ps, p) && p[0] == i
  }

  predicate Named(ps: seq<Participant>, j: nat, name: string) {
    j < |ps| && ps[j].name == name
  }

  ghost predicate TroubledName(ps: seq<Participant>, name: string) {
    !Known(ps, name) || exists j :: Named(ps, j, name) && Troubled(ps, j)
  }

  /** The first dependency of a participant that is unmet or troubled. */
  ghost predicate FirstTrouble(ps: seq<Participant>, i: nat, k: nat) {
    && i < |ps| && k < |ps[i].dependencies| && TroubledName(ps, ps[i].dependencies[k])
    && forall j :: 0 <= j < k ==> !TroubledName(ps, ps[i].dependencies[j])
  }

  /** The first trouble of i is the registered participant j. */
  ghost predicate FailsAt(ps: seq<Participant>, i: nat, j: nat) {
    exists k: nat :: FirstTrouble(ps, i, k) && Named(ps, j, ps[i].dependencies[k])
  }

  lemma LoopTroubles(ps: seq<Participant>, i: nat)
    requires OnLoop(ps, i)
    ensures Troubled(ps, i)
  {
    var p := [i];
    assert LeadsToDoomed(ps, p) && p[0] == i;
  }

  /** The next participant of a loop is on it as well. */
  lemma LoopGoesOn(ps: seq<Participant>, i: nat) returns (next: nat)
    requires OnLoop(ps, i)
    ensures DependsOn(ps, i, next) && OnLoop(ps, next)
  {
    var p :| |p| >= 2 && Path(ps, p) && p[0] == p[|p| - 1] && p[0] == i;
    next := p[1];
    assert DependsOn(ps, p[0], p[1]);
    var q := p[1..] + [next];
    forall k | 0 <= k < |q| - 1 ensures DependsOn(ps, q[k], q[k + 1]) {
      if k < |p| - 2 {
        assert DependsOn(ps, p[k + 1], p[k + 2]);
      }
    }
    assert |q| >= 2 && Path(ps, q) && q[0] == q[|q| - 1] && q[0] == next;
  }

  lemma UnmetTroubles(ps: seq<Participant>, i: nat, k: nat)
    requires i < |ps| && k < |ps[i].dependencies| && !Known(ps, ps[i].dependencies[k])
    ensures Troubled(ps, i)
  {
    var p := [i];
    assert Lacks(ps, i);
    assert LeadsToDoomed(ps, p) && p[0] == i;
  }

  lemma TroubleSpreads(ps: seq<Participant>, i: nat, j: nat)
    requires DependsOn(ps, i, j) && Troubled(ps, j)
    ensures Troubled(ps, i)
  {
    var p :| LeadsToDoomed(ps, p) && p[0] == j;
    var q := [i] + p;
    forall k | 0 <= k < |q| - 1 ensures DependsOn(ps, q[k], q[k + 1]) {
      if k > 0 {
        assert DependsOn(ps, p[k - 1], p[k]);
      }
    }
    assert LeadsToDoomed(ps, q) && q[0] == i;
  }

  lemma NameTroubles(ps: seq<Participant>, i: nat, k: nat)
    requires i < |ps| && k < |ps[i].dependencies| && TroubledName(ps, ps[i].dependencies[k])
    ensures Troubled(ps, i)
  {
    if Known(ps, ps[i].dependencies[k]) {
      var j :| Named(ps, j, ps[i].dependencies[k]) && Troubled(ps, j);
      TroubleSpreads(ps, i, j);
    } else {
      UnmetTroubles(ps, i, k);
    }
  }

  /** Trouble comes from a dependency. */
  lemma TroubleHasCause(ps: seq<Participant>, i: nat)
    requires Troubled(ps, i)
    ensures i < |ps| && exists k :: 0 <= k < |ps[i].dependencies| && TroubledName(ps, ps[i].dependencies[k])
  {
    var p :| LeadsToDoomed(ps, p) && p[0] == i;
    if |p| == 1 && OnLoop(ps, i) {
      var next := LoopGoesOn(ps, i);
      LoopTroubles(ps, next);
      var k :| 0 <= k < |ps[i].dependencies| && ps[i].dependencies[k] == ps[next].name;
      assert Named(ps, next, ps[i].dependencies[k]) && Troubled(ps, next);
    } else if |p| == 1 {
      var k :| 0 <= k < |ps[i].dependencies| && !Known(ps, ps[i].dependencies[k]);
      assert TroubledName(ps, ps[i].dependencies[k]);
    } else {
      assert DependsOn(ps, p[0], p[1]);
      var k :| 0 <= k < |ps[i].dependencies| && ps[i].dependencies[k] == ps[p[1]].name;
      var q := p[1..];
      forall m | 0 <= m < |q| - 1 ensures DependsOn(ps, q[m], q[m + 1]) {
        assert DependsOn(ps, p[m + 1], p[m + 2]);
      }
      assert LeadsToDoomed(ps, q) && q[0] == p[1];
      assert Named(ps, p[1], ps[i].dependencies[k]) && Troubled(ps, p[1]);
    }
  }

  lemma {:induction false} FirstOf(ps: seq<Participant>, i: nat, k: nat) returns (first: nat)
    requires i < |ps| && k < |ps[i].dependencies| && TroubledName(ps, ps[i].dependencies[k])
    ensures FirstTrouble(ps, i, first)
    decreases k
  {
    if j :| 0 <= j < k && TroubledName(ps, ps[i].dependencies[j]) {
      first := FirstOf(ps, i, j);
    } else {
      first := k;
    }
  }

  lemma TroubleHasFirst(ps: seq<Participant>, i: nat) returns (k: nat)
    requires Troubled(ps, i)
    ensures FirstTrouble(ps, i, k)
  {
    TroubleHasCause(ps, i);
    var cause :| 0 <= cause < |ps[i].dependencies| && TroubledName(ps, ps[i].dependencies[cause]);
    k := FirstOf(ps, i, cause);
  }

  lemma FailsAtMeans(ps: seq<Participant>, i: nat, j: nat)
    requires Registered(ps) && FailsAt(ps, i, j)
    ensures DependsOn(ps, i, j) && Troubled(ps, i) && Troubled(ps, j)
  {
    var k: nat :| FirstTrouble(ps, i, k) && Named(ps, j, ps[i].dependencies[k]);
    NameTroubles(ps, i, k);
    assert Known(ps, ps[i].dependencies[k]);
    var m :| Named(ps, m, ps[i].dependencies[k]) && Troubled(ps, m);
    assert m == j;
  }

  /** What stands in an order with its dependencies first is not troubled. */
  lemma {:induction false} OrderedIsFine(ps: seq<Participant>, order: seq<nat>, a: nat)
    requires Registered(ps) && Sorted(ps, order) && a < |order|
    ensures !Troubled(ps, order[a])
    decreases a
  {
    if Troubled(ps, order[a]) {
      var k := TroubleHasFirst(ps, order[a]);
      var name := ps[order[a]].dependencies[k];
      assert Before(ps, order, a, name);
      var b :| 0 <= b < a && order[b] < |ps| && ps[order[b]].name == name;
      assert Known(ps, name);
      var j :| Named(ps, j, name) && Troubled(ps, j);
      assert j == order[b];
      OrderedIsFine(ps, order, b);
      assert false;
    }
  }

  // ----- What a search leaves behind -----

  /** Off the path of the search only troubled participants are half visited, each with its first trouble. */
  ghost predicate Settled(ps: seq<Participant>, marks: seq<nat>, path: seq<nat>) {
    forall i: nat :: i < |marks| && marks[i] == VISITING && i !in path ==>
      && Troubled(ps, i)
      && forall j: nat :: FailsAt(ps, i, j) && j < |marks| ==> marks[j] == VISITING
  }

  /** Whoever is half visited from now on is somebody's first trouble, or has that name. */
  ghost predicate Stuck(ps: seq<Participant>, before: seq<nat>, after: seq<nat>, name: string) {
    forall j: nat :: j < |before| && j < |after| && after[j] == VISITING && before[j] != VISITING ==>
      Named(ps, j, name) || exists i :: FailsAt(ps, i, j)
  }

  /** Where a name is unmet or leads to a half-visited participant, the failure says so. */
  ghost predicate NameFailure(ps: seq<Participant>, marks: seq<nat>, name: string, f: FailureCode) {
    && (!Known(ps, name) ==> f == MissingDependency(name))
    && (forall j: nat :: Named(ps, j, name) && j < |marks| && marks[j] == VISITING ==> f == DependencyCycle(name))
  }

  /** Participants of that name are half visited. */
  ghost predicate Caught(ps: seq<Participant>, marks: seq<nat>, name: string) {
    forall j: nat :: Named(ps, j, name) && j < |marks| ==> marks[j] == VISITING
  }

  /** The outcome for a name a participant depends on. */
  ghost predicate NameOutcome(ps: seq<Participant>, before: seq<nat>, name: string, ok: bool, f: FailureCode) {
    (ok <==> !TroubledName(ps, name)) && (!ok ==> NameFailure(ps, before, name, f))
  }

  /** The outcome of the search of a participant's dependencies. */
  ghost predicate Outcome(ps: seq<Participant>, before: seq<nat>, index: nat, ok: bool, f: FailureCode) {
    && (ok <==> !Troubled(ps, index))
    && (!ok ==> forall k: nat :: FirstTrouble(ps, index, k) ==>
                  NameFailure(ps, before, ps[index].dependencies[k], f))
  }

  /** The outcome of the search of a participant. */
  ghost predicate VisitOutcome(ps: seq<Participant>, before: seq<nat>, index: nat, ok: bool, f: FailureCode)
    requires index < |before| && index < |ps|
  {
    if before[index] == VISITING then !ok && f == DependencyCycle(ps[index].name) && Troubled(ps, index)
    else Outcome(ps, before[index := VISITING], index, ok, f)
  }

  /** Where the search of a participant's dependencies ended. */
  ghost predicate CaughtAt(ps: seq<Participant>, marks: seq<nat>, index: nat) {
    forall j: nat :: FailsAt(ps, index, j) && j < |marks| ==> marks[j] == VISITING
  }

  lemma EnterSettled(ps: seq<Participant>, marks: seq<nat>, path: seq<nat>, index: nat)
    requires Settled(ps, marks, path) && index < |marks|
    ensures Settled(ps, marks[index := VISITING], path + [index])
  {
  }

  /** Coming to a half-visited participant. */
  lemma Reentered(ps: seq<Participant>, marks: seq<nat>, path: seq<nat>, index: nat, clean: bool)
    requires index < |ps| && index < |marks| && marks[index] == VISITING
    requires Path(ps, path + [index]) && Settled(ps, marks, path) && (clean ==> index in path)
    ensures Troubled(ps, index)
    ensures clean ==> OnCycle(ps, ps[index].name)
  {
    if index in path {
      assert (path + [index])[..|path|] == path;
      PathCloses(ps, path + [index]);
      LoopTroubles(ps, index);
    }
  }

  /** What the search of its dependencies says about a participant just entered. */
  lemma EnteredOutcome(ps: seq<Participant>, was: seq<nat>, last: seq<nat>, index: nat, ok: bool, f: FailureCode)
    requires index < |ps| && index < |was| && was[index] == UNMARKED
    requires Outcome(ps, was[index := VISITING], index, ok, f)
    requires Stuck(ps, was[index := VISITING], last, ps[index].name)
    ensures VisitOutcome(ps, was, index, ok, f) && Stuck(ps, was, last, ps[index].name)
  {
    assert forall j: nat :: j < |was| && was[j] == VISITING ==> was[index := VISITING][j] == VISITING;
  }

  /** A participant on the path is done without trouble. */
  lemma LeaveSettled(ps: seq<Participant>, marks: seq<nat>, path: seq<nat>, index: nat)
    requires Registered(ps) && Settled(ps, marks, path + [index]) && index < |marks|
    requires !Troubled(ps, index)
    ensures Settled(ps, marks[index := VISITED], path)
  {
    forall i: nat, j: nat | FailsAt(ps, i, j) ensures j != index {
      FailsAtMeans(ps, i, j);
    }
  }

  /** A participant on the path is left half visited. */
  lemma FailSettled(ps: seq<Participant>, marks: seq<nat>, path: seq<nat>, index: nat)
    requires Settled(ps, marks, path + [index]) && index < |marks|
    requires Troubled(ps, index)
    requires CaughtAt(ps, marks, index)
    ensures Settled(ps, marks, path)
  {
  }

  /** While searches succeed the half-visited participants stay the same. */
  lemma SinceEntered(ps: seq<Participant>, entered: seq<nat>, now: seq<nat>, after: seq<nat>, name: string,
                     f: FailureCode)
    requires |entered| == |now| && forall i :: 0 <= i < |entered| ==> (now[i] == VISITING <==> entered[i] == VISITING)
    requires Stuck(ps, now, after, name) && NameOutcome(ps, now, name, false, f)
    ensures Stuck(ps, entered, after, name) && NameOutcome(ps, entered, name, false, f)
  {
  }

  /** The search of a dependency is the search of the participant of that name. */
  lemma VisitedName(ps: seq<Participant>, before: seq<nat>, after: seq<nat>, j: nat, name: string, ok: bool,
                    f: FailureCode)
    requires Registered(ps) && Named(ps, j, name) && j < |before| == |after| && VisitOutcome(ps, before, j, ok, f)
    requires !ok ==> after[j] == VISITING
    ensures NameOutcome(ps, before, name, ok, f) && (!ok ==> Caught(ps, after, name))
  {
  }

  /** The first dependency whose search fails is the first trouble. */
  lemma FirstFails(ps: seq<Participant>, before: seq<nat>, after: seq<nat>, index: nat, k: nat, f: FailureCode)
    requires Registered(ps) && index < |ps| && k < |ps[index].dependencies|
    requires FineBelow(ps, index, k)
    requires NameOutcome(ps, before, ps[index].dependencies[k], false, f)
    requires Caught(ps, after, ps[index].dependencies[k])
    requires Stuck(ps, before, after, ps[index].dependencies[k])
    ensures Outcome(ps, before, index, false, f) && CaughtAt(ps, after, index)
    ensures Stuck(ps, before, after, ps[index].name)
  {
    NameTroubles(ps, index, k);
    forall m: nat | FirstTrouble(ps, index, m) ensures m == k {
    }
    assert FirstTrouble(ps, index, k);
    forall j: nat | Named(ps, j, ps[index].dependencies[k]) ensures FailsAt(ps, index, j) {
    }
  }

  /** The first n dependencies are fine. */
  ghost predicate FineBelow(ps: seq<Participant>, index: nat, n: nat)
    requires index < |ps| && n <= |ps[index].dependencies|
  {
    forall k :: 0 <= k < n ==> !TroubledName(ps, ps[index].dependencies[k])
  }

  lemma FineStep(ps: seq<Participant>, marks: seq<nat>, index: nat, n: nat, f: FailureCode)
    requires index < |ps| && n < |ps[index].dependencies| && FineBelow(ps, index, n)
    requires NameOutcome(ps, marks, ps[index].dependencies[n], true, f)
    ensures FineBelow(ps, index, n + 1)
  {
  }

  /** All dependencies are fine. */
  lemma FineAll(ps: seq<Participant>, index: nat)
    requires index < |ps| && FineBelow(ps, index, |ps[index].dependencies|)
    ensures !Troubled(ps, index)
  {
    if Troubled(ps, index) {
      TroubleHasCause(ps, index);
      assert false;
    }
  }

  // ----- Which failure is the last -----

  ghost predicate LastTroubled(ps: seq<Participant>, l: nat) {
    Troubled(ps, l) && forall i :: l < i < |ps| ==> !Troubled(ps, i)
  }

  /** The failure that the visit of the last troubled participant records.  When some search failed at it before,
      it is half visited, and the failure is a cycle through itself; otherwise the search ends at its first
      trouble, which nobody is or which is half visited. */
  ghost predicate Blamed(ps: seq<Participant>, l: nat, f: FailureCode) {
    l < |ps| &&
    if exists i :: FailsAt(ps, i, l) then f == DependencyCycle(ps[l].name)
    else forall k: nat :: FirstTrouble(ps, l, k) ==>
           var name := ps[l].dependencies[k];
           f == if Known(ps, name) then DependencyCycle(name) else MissingDependency(name)
  }

  /** Where that visit ends there is no cycle. */
  ghost predicate Misled(ps: seq<Participant>, l: nat) {
    l < |ps| &&
    if exists i :: FailsAt(ps, i, l) then !OnCycle(ps, ps[l].name)
    else exists j: nat :: FailsAt(ps, l, j) && j < |ps| && !OnCycle(ps, ps[j].name)
  }

  /** The last troubled participant, or the first trouble of it if it is nobody's, is a participant that is on no
      cycle. */
  ghost predicate FalseAlarm(ps: seq<Participant>) {
    exists l :: LastTroubled(ps, l) && Misled(ps, l)
  }

  /** What the failure is after the first n participants have been visited. */
  ghost predicate LastFailure(ps: seq<Participant>, n: nat, f: FailureCode) {
    forall l: nat :: l < n && LastTroubled(ps, l) ==> Blamed(ps, l, f)
  }

  /** The marks after the first n participants have been visited. */
  ghost predicate Swept(ps: seq<Participant>, marks: seq<nat>, n: nat) {
    && n <= |ps| <= |marks| && Settled(ps, marks, [])
    && (forall i: nat :: i < n && Troubled(ps, i) ==> marks[i] == VISITING)
    && (forall j: nat :: n <= j < |ps| && marks[j] == VISITING ==> exists i :: FailsAt(ps, i, j))
  }

  lemma SweptOne(ps: seq<Participant>, before: seq<nat>, after: seq<nat>, n: nat, ok: bool, f: FailureCode)
    requires Registered(ps) && n < |ps| && Swept(ps, before, n)
    requires |before| == |after| && Settled(ps, after, []) && Stuck(ps, before, after, ps[n].name)
    requires forall i :: 0 <= i < |before| && before[i] == VISITING ==> after[i] == VISITING
    requires !ok ==> after[n] == VISITING
    requires VisitOutcome(ps, before, n, ok, f)
    ensures Swept(ps, after, n + 1)
  {
    forall j: nat | n + 1 <= j < |ps| && after[j] == VISITING ensures exists i :: FailsAt(ps, i, j) {
      assert !Named(ps, j, ps[n].name);
    }
  }

  lemma FailureAfterOne(ps: seq<Participant>, before: seq<nat>, n: nat, ok: bool, was: FailureCode, f: FailureCode)
    requires Registered(ps) && n < |ps| && Swept(ps, before, n) && LastFailure(ps, n, was)
    requires (ok ==> f == was) && VisitOutcome(ps, before, n, ok, f)
    ensures LastFailure(ps, n + 1, f)
  {
    forall l: nat | l < n + 1 && LastTroubled(ps, l) ensures Blamed(ps, l, f) {
      if l == n {
        LastVisited(ps, before, n, f);
      } else {
        assert !Troubled(ps, n);
      }
    }
  }

  /** Whoever the search of another participant failed at is half visited when its turn comes last. */
  lemma ComesLast(ps: seq<Participant>, before: seq<nat>, l: nat, i: nat)
    requires Registered(ps) && l < |ps| && Swept(ps, before, l) && LastTroubled(ps, l)
    requires FailsAt(ps, i, l) && i != l
    ensures before[l] == VISITING
  {
    FailsAtMeans(ps, i, l);
    assert i < l && before[i] == VISITING;
  }

  lemma FailsBefore(ps: seq<Participant>, before: seq<nat>, l: nat, j: nat)
    requires Registered(ps) && l < |ps| && Swept(ps, before, l) && LastTroubled(ps, l)
    requires FailsAt(ps, l, j) && j != l
    ensures j < |ps| && before[j] == VISITING
  {
    FailsAtMeans(ps, l, j);
    assert j < l;
  }

  /** The visit of the last troubled participant. */
  lemma LastVisited(ps: seq<Participant>, before: seq<nat>, l: nat, f: FailureCode)
    requires Registered(ps) && l < |ps| && Swept(ps, before, l) && LastTroubled(ps, l)
    requires VisitOutcome(ps, before, l, false, f)
    ensures Blamed(ps, l, f)
  {
    if i :| FailsAt(ps, i, l) {
      if before[l] != VISITING {
        if i != l {
          ComesLast(ps, before, l, i);
        }
        var k: nat :| FirstTrouble(ps, l, k) && Named(ps, l, ps[l].dependencies[k]);
        assert NameFailure(ps, before[l := VISITING], ps[l].dependencies[k], f);
      }
    } else {
      LastUnvisited(ps, before, l, f);
    }
  }

  lemma LastUnvisited(ps: seq<Participant>, before: seq<nat>, l: nat, f: FailureCode)
    requires Registered(ps) && l < |ps| && Swept(ps, before, l) && LastTroubled(ps, l)
    requires VisitOutcome(ps, before, l, false, f) && forall i :: !FailsAt(ps, i, l)
    ensures Blamed(ps, l, f)
  {
    forall k: nat | FirstTrouble(ps, l, k)
      ensures var name := ps[l].dependencies[k];
              f == if Known(ps, name) then DependencyCycle(name) else MissingDependency(name)
    {
      var name := ps[l].dependencies[k];
      assert NameFailure(ps, before[l := VISITING], name, f);
      if Known(ps, name) {
        var j: nat :| j < |ps| && ps[j].name == name;
        assert Named(ps, j, name) && FailsAt(ps, l, j);
        FailsBefore(ps, before, l, j);
      }
    }
  }

  /** Trouble has a last participant. */
  lemma {:induction false} SomeoneIsLast(ps: seq<Participant>, n: nat) returns (l: nat)
    requires n < |ps| && Troubled(ps, n)
    ensures LastTroubled(ps, l)
    decreases |ps| - n
  {
    if m :| n < m < |ps| && Troubled(ps, m) {
      l := SomeoneIsLast(ps, m);
    } else {
      l := n;
    }
  }

  /** Participants without an order have a last troubled one. */
  lemma SomeTrouble(ps: seq<Participant>) returns (l: nat)
    requires !Resolved(ps) || Cyclic(ps)
    ensures LastTroubled(ps, l)
  {
    var i: nat;
    if !Resolved(ps) {
      var k: nat;
      i, k :| i < |ps| && k < |ps[i].dependencies| && !Known(ps, ps[i].dependencies[k]);
      UnmetTroubles(ps, i, k);
    } else {
      var p :| |p| >= 2 && Path(ps, p) && p[0] == p[|p| - 1];
      i := p[0];
      assert DependsOn(ps, p[0], p[1]) && OnLoop(ps, i);
      LoopTroubles(ps, i);
    }
    l := SomeoneIsLast(ps, i);
  }

  /** The failure of the last troubled participant is true exactly when it is not misled. */
  lemma BlameIsTrue(ps: seq<Participant>, l: nat, f: FailureCode)
    requires Registered(ps) && Troubled(ps, l) && Blamed(ps, l, f)
    ensures Truthful(ps, f) <==> !Misled(ps, l)
  {
    var k := TroubleHasFirst(ps, l);
    var name := ps[l].dependencies[k];
    forall j: nat | FailsAt(ps, l, j) ensures Named(ps, j, name) && Known(ps, name) {
    }
    if Known(ps, name) {
      var j: nat :| j < |ps| && ps[j].name == name;
      assert Named(ps, j, name) && FailsAt(ps, l, j);
    } else {
      assert l < |ps| && k < |ps[l].dependencies| && ps[l].dependencies[k] == name;
      assert Unmet(ps, name);
    }
  }

  /** The last failure of a whole sort is true of the participants exactly when there is no false alarm. */
  lemma Alarm(ps: seq<Participant>, f: FailureCode)
    requires Registered(ps) && LastFailure(ps, |ps|, f) && (!Resolved(ps) || Cyclic(ps))
    ensures Truthful(ps, f) <==> !FalseAlarm(ps)
  {
    var l := SomeTrouble(ps);
    TroubleHasCause(ps, l);
    BlameIsTrue(ps, l, f);
    forall m: nat | LastTroubled(ps, m) ensures m == l {
      TroubleHasCause(ps, m);
    }
  }

  /** B depends on A, and A on X, which nobody has. */
  function ChainToNobody(): (ps: seq<Participant>)
    ensures |ps| == 2 && ps[0].name == "A" && ps[1].name == "B"
  {
    [Participant("A", ["X"], true), Participant("B", ["A"], true)]
  }

  lemma ChainStep(p: seq<nat>, k: nat)
    requires Path(ChainToNobody(), p) && k < |p| - 1
    ensures p[k] == 1 && p[k + 1] == 0
  {
    assert DependsOn(ChainToNobody(), p[k], p[k + 1]);
  }

  lemma ChainHasNoCycle()
    ensures !Cyclic(ChainToNobody())
  {
    var ps := ChainToNobody();
    if p :| |p| >= 2 && Path(ps, p) && p[0] == p[|p| - 1] {
      ChainStep(p, 0);
      ChainStep(p, 1);
    }
  }

  /** Two participants without a cycle whose last failure is nevertheless a dependency cycle. */
  lemma ChainToNobodyAlarms()
    ensures Registered(ChainToNobody()) && !Cyclic(ChainToNobody()) && FalseAlarm(ChainToNobody())
  {
    ChainHasNoCycle();
    LinkToNobodyAlarms(ChainToNobody());
  }

  /** The second of two participants names the first, which names nobody. */
  lemma LinkToNobodyAlarms(ps: seq<Participant>)
    requires |ps| == 2 && !Cyclic(ps) && ps[0].name != ps[1].name
    requires |ps[0].dependencies| == |ps[1].dependencies| == 1 && ps[1].dependencies[0] == ps[0].name
    requires !Known(ps, ps[0].dependencies[0])
    ensures FalseAlarm(ps)
  {
    UnmetTroubles(ps, 0, 0);
    assert Named(ps, 0, ps[1].dependencies[0]) && FirstTrouble(ps, 1, 0);
    assert FailsAt(ps, 1, 0);
    TroubleSpreads(ps, 1, 0);
    NoCycleMisleads(ps, 1, 0);
  }

  /** Without a cycle, a last troubled participant whose first trouble is another one raises a false alarm. */
  lemma NoCycleMisleads(ps: seq<Participant>, l: nat, j: nat)
    requires !Cyclic(ps) && l < |ps| && j < |ps| && LastTroubled(ps, l) && FailsAt(ps, l, j)
    ensures FalseAlarm(ps)
  {
    assert !OnCycle(ps, ps[l].name) && !OnCycle(ps, ps[j].name);
    assert Misled(ps, l);
  }

  /** A names itself, B names A, and C names B. */
  function CycleBeside(): (ps: seq<Participant>)
    ensures |ps| == 3 && ps[0].name == "A" && ps[1].name == "B" && ps[2].name == "C"
  {
    [Participant("A", ["A"], true), Participant("B", ["A"], true), Participant("C", ["B"], true)]
  }

  lemma BesideStep(i: nat, j: nat)
    requires DependsOn(CycleBeside(), i, j)
    ensures i == 0 ==> j == 0
    ensures i == 1 ==> j == 0
    ensures i == 2 ==> j == 1
  {
  }

  /** From B every path goes to A and stays there. */
  lemma {:induction false} BesideStays(p: seq<nat>)
    requires |p| >= 2 && Path(CycleBeside(), p) && p[0] == 1
    ensures p[|p| - 1] == 0
  {
    var n := |p| - 1;
    assert DependsOn(CycleBeside(), p[n - 1], p[n]);
    BesideStep(p[n - 1], p[n]);
    if n > 1 {
      assert forall k :: 0 <= k < n - 1 ==> DependsOn(CycleBeside(), p[k], p[k + 1]);
      BesideStays(p[..n]);
    }
  }

  lemma BesideIsNoCycle()
    ensures !OnCycle(CycleBeside(), "B")
  {
    var ps := CycleBeside();
    if p :| |p| >= 2 && Path(ps, p) && p[0] == p[|p| - 1] && p[0] < |ps| && ps[p[0]].name == "B" {
      BesideStays(p);
    }
  }

  /** The second of three participants names the first, which is on a loop, and the third names the second, which
      is on none. */
  lemma LinkToLoopAlarms(ps: seq<Participant>)
    requires |ps| == 3 && Registered(ps) && OnLoop(ps, 0) && DependsOn(ps, 1, 0) && |ps[2].dependencies| == 1
    requires ps[2].dependencies[0] == ps[1].name && !OnCycle(ps, ps[1].name)
    requires forall i :: 0 <= i < 3 ==> ps[2].name !in ps[i].dependencies
    ensures FalseAlarm(ps) && LastFailure(ps, 3, DependencyCycle(ps[1].name))
  {
    LoopTroubles(ps, 0);
    TroubleSpreads(ps, 1, 0);
    assert Named(ps, 1, ps[2].dependencies[0]) && FirstTrouble(ps, 2, 0);
    assert FailsAt(ps, 2, 1) && DependsOn(ps, 2, 1);
    TroubleSpreads(ps, 2, 1);
    forall i: nat ensures !FailsAt(ps, i, 2) {
      if FailsAt(ps, i, 2) {
        FailsAtMeans(ps, i, 2);
      }
    }
    assert LastTroubled(ps, 2) && Misled(ps, 2);
  }

  lemma BesideLoops()
    ensures OnLoop(CycleBeside(), 0) && Cyclic(CycleBeside()) && DependsOn(CycleBeside(), 1, 0)
  {
    var loop := [0, 0];
    assert DependsOn(CycleBeside(), 0, 0) && Path(CycleBeside(), loop);
  }

  /** Three participants with a cycle whose last failure names one that is on no cycle. */
  lemma CycleBesideAlarms()
    ensures Registered(CycleBeside()) && Cyclic(CycleBeside())
    ensures FalseAlarm(CycleBeside()) && LastFailure(CycleBeside(), 3, DependencyCycle("B"))
  {
    BesideLoops();
    BesideIsNoCycle();
    LinkToLoopAlarms(CycleBeside());
  }

  /** With every dependency registered a false alarm still means that there is a cycle, though not through the
      participant named. */
  lemma ResolvedAlarmsAtCycles(ps: seq<Participant>)
    requires Resolved(ps) && FalseAlarm(ps)
    ensures Cyclic(ps)
  {
    var l: nat :| LastTroubled(ps, l) && Misled(ps, l);
    var p :| LeadsToDoomed(ps, p) && p[0] == l;
    assert OnLoop(ps, p[|p| - 1]);
  }
}
