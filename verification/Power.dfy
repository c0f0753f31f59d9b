/** The power manager object of kernel/power.c: registration, the depth-first sort of the
    participants, and the suspend/resume driver, each proved against PowerGraph and PowerCycle. */
module Power {
  import opened PowerCycle
  import opened PowerFailure
  import opened PowerGraph
  import opened PowerReasons

  /** The marks of a search and the part of the order it has produced agree. */
  ghost predicate SearchOk(ps: seq<Participant>, marks: seq<nat>, order: seq<nat>) {
    && |marks| == PARTICIPANT_CAPACITY && Registered(ps) && Sorted(ps, order)
    && (forall i :: 0 <= i < |marks| ==> marks[i] <= VISITED && (marks[i] == VISITED <==> i in order))
    && (forall i :: |ps| <= i < |marks| ==> marks[i] == UNMARKED)
  }

  /** Marks only rise, and a finished search leaves no new node half visited. */
  ghost predicate Rises(before: seq<nat>, after: seq<nat>) {
    && |before| == |after|
    && (forall i :: 0 <= i < |before| && before[i] != UNMARKED ==> after[i] == before[i])
  }

  ghost predicate SameVisiting(before: seq<nat>, after: seq<nat>) {
    |before| == |after| && forall i :: 0 <= i < |before| ==> (after[i] == VISITING <==> before[i] == VISITING)
  }

  /** Until the first failure the half-visited nodes are the path of the search. */
  ghost predicate OnPath(ps: seq<Participant>, marks: seq<nat>, path: seq<nat>) {
    && Path(ps, path)
    && (forall i :: 0 <= i < |marks| ==> (marks[i] == VISITING <==> i in path))
  }

  ghost function Unmarked(marks: seq<nat>): set<nat> {
    set i: nat | i < |marks| && marks[i] == UNMARKED
  }

  /** Appending a node whose dependencies are all in the order. */
  lemma SortedAppend(ps: seq<Participant>, order: seq<nat>, x: nat)
    requires Sorted(ps, order) && x < |ps| && x !in order
    requires forall k :: 0 <= k < |ps[x].dependencies| ==> Before(ps, order, |order|, ps[x].dependencies[k])
    ensures Sorted(ps, order + [x])
  {
    var more := order + [x];
    forall a, k | 0 <= a < |more| && more[a] < |ps| && 0 <= k < |ps[more[a]].dependencies|
      ensures Before(ps, more, a, ps[more[a]].dependencies[k])
    {
      var name := ps[more[a]].dependencies[k];
      assert Before(ps, order, a, name);
      var b :| 0 <= b < a && b < |order| && order[b] < |ps| && ps[order[b]].name == name;
      assert more[b] == order[b];
    }
  }

  lemma VisitedIsFine(ps: seq<Participant>, marks: seq<nat>, order: seq<nat>, index: nat)
    requires SearchOk(ps, marks, order) && index < |ps| && marks[index] == VISITED
    ensures !Troubled(ps, index)
  {
    var a :| 0 <= a < |order| && order[a] == index;
    OrderedIsFine(ps, order, a);
  }

  lemma EnterNode(ps: seq<Participant>, marks: seq<nat>, order: seq<nat>, path: seq<nat>, index: nat, clean: bool)
    requires SearchOk(ps, marks, order) && index < |ps| && marks[index] == UNMARKED
    requires Path(ps, path + [index]) && (clean ==> OnPath(ps, marks, path))
    ensures SearchOk(ps, marks[index := VISITING], order)
    ensures clean ==> OnPath(ps, marks[index := VISITING], path + [index])
  {
  }

  /** A node all of whose dependencies are in the order joins it; the order has room. */
  lemma LeaveNode(ps: seq<Participant>, marks: seq<nat>, order: seq<nat>, index: nat)
    requires SearchOk(ps, marks, order) && index < |ps| && marks[index] == VISITING
    requires DependenciesBefore(ps, order, index, |ps[index].dependencies|)
    ensures |order| < |ps| && SearchOk(ps, marks[index := VISITED], order + [index])
  {
    SortedAppend(ps, order, index);
    Pigeonhole(order + [index], |ps|);
  }

  lemma StepPath(ps: seq<Participant>, path: seq<nat>, index: nat, dependency: nat)
    requires Path(ps, path + [index]) && DependsOn(ps, index, dependency)
    ensures Path(ps, path + [index] + [dependency])
  {
    var p := path + [index] + [dependency];
    forall k | 0 <= k < |p| - 1 ensures DependsOn(ps, p[k], p[k + 1]) {
      if k < |path| {
        assert DependsOn(ps, (path + [index])[k], (path + [index])[k + 1]);
      }
    }
  }

  /** What stands in an order still stands in a longer one. */
  lemma BeforeGrows(ps: seq<Participant>, order: seq<nat>, more: seq<nat>, name: string)
    requires order <= more && Before(ps, order, |order|, name)
    ensures Before(ps, more, |more|, name)
  {
    var b :| 0 <= b < |order| && order[b] < |ps| && ps[order[b]].name == name;
    assert more[b] == order[b];
  }

  /** What a successful visit does to the marks, from before it entered the participant. */
  lemma VisitEnds(ps: seq<Participant>, was: seq<nat>, last: seq<nat>, index: nat)
    requires index < |was| && was[index] == UNMARKED && index < |ps| && Stuck(ps, was, last, ps[index].name)
    requires Rises(was[index := VISITING], last) && SameVisiting(was[index := VISITING], last)
    ensures Rises(was, last[index := VISITED]) && SameVisiting(was, last[index := VISITED])
    ensures Stuck(ps, was, last[index := VISITED], ps[index].name)
  {
  }

  /** Where sorting stands after the first n participants. */
  ghost predicate Sweeping(ps: seq<Participant>, marks: seq<nat>, order: seq<nat>, n: nat, clean: bool,
                           was: FailureCode, f: FailureCode, first: FailureCode)
  {
    && SearchOk(ps, marks, order) && (clean ==> CleanBelow(ps, marks, n)) && FailureKept(ps, was, f, first, clean)
    && Swept(ps, marks, n) && LastFailure(ps, n, f)
  }

  /** One more participant visited. */
  lemma SweepsOn(ps: seq<Participant>, before: seq<nat>, order: seq<nat>, after: seq<nat>, more: seq<nat>, n: nat,
                 clean: bool, ok: bool, was: FailureCode, code: FailureCode, f: FailureCode, first: FailureCode)
    requires Sweeping(ps, before, order, n, clean, was, code, first) && n < |ps|
    requires SearchOk(ps, after, more) && Rises(before, after) && (ok ==> SameVisiting(before, after) && f == code)
    requires !ok ==> Recorded(ps, f) && (clean ==> Truthful(ps, f))
    requires after[n] == if ok then VISITED else VISITING
    requires Settled(ps, after, []) && Stuck(ps, before, after, ps[n].name) && VisitOutcome(ps, before, n, ok, f)
    ensures Sweeping(ps, after, more, n + 1, clean && ok, was, f, if clean && !ok then f else first)
  {
    SweptOne(ps, before, after, n, ok, f);
    FailureAfterOne(ps, before, n, ok, code, f);
    if ok {
      CleanOne(ps, before, after, n, clean);
    }
  }

  /** The first n dependencies of a participant stand in the order. */
  ghost predicate DependenciesBefore(ps: seq<Participant>, order: seq<nat>, index: nat, n: nat)
    requires index < |ps| && n <= |ps[index].dependencies|
  {
    forall k :: 0 <= k < n ==> Before(ps, order, |order|, ps[index].dependencies[k])
  }

  lemma OneMoreBefore(ps: seq<Participant>, order: seq<nat>, more: seq<nat>, index: nat, n: nat)
    requires index < |ps| && n < |ps[index].dependencies| && DependenciesBefore(ps, order, index, n)
    requires order <= more && Before(ps, more, |more|, ps[index].dependencies[n])
    ensures DependenciesBefore(ps, more, index, n + 1)
  {
    forall k | 0 <= k < n ensures Before(ps, more, |more|, ps[index].dependencies[k]) {
      BeforeGrows(ps, order, more, ps[index].dependencies[k]);
    }
  }

  /** No visit of the first n participants has failed. */
  ghost predicate CleanBelow(ps: seq<Participant>, marks: seq<nat>, n: nat) {
    OnPath(ps, marks, []) && n <= |marks| && forall k :: 0 <= k < n ==> marks[k] == VISITED
  }

  lemma CleanOne(ps: seq<Participant>, before: seq<nat>, after: seq<nat>, n: nat, clean: bool)
    requires Rises(before, after) && SameVisiting(before, after) && n < |after| && after[n] == VISITED
    ensures clean && CleanBelow(ps, before, n) ==> CleanBelow(ps, after, n + 1)
  {
  }

  /** A registration whose own name and number of dependencies are usable. */
  predicate Acceptable(registration: Participant) {
    NameOk(registration.name) && |registration.dependencies| <= DEPENDENCY_CAPACITY
  }

  predicate Usable(registration: Participant) {
    && Acceptable(registration)
    && forall k :: 0 <= k < |registration.dependencies| ==> NameOk(registration.dependencies[k])
  }

  class PowerManager {
    var participants: seq<Participant>
    var dependencyOrder: array<nat>
    var failure: FailureCode
    var finalized: bool
    var suspendAvailable: bool
    var state: State
    var phase: Phase
    var cursor: nat
    var suspended: array<nat>
    var suspendedCount: nat
    var generation: nat
    var expected: Token
    var completionReady: bool
    var completionOk: bool
    var platformPrepared: bool
    var inhibited: bool
    var suspendRequested: bool
    var activityRequested: bool
    ghost var log: seq<Event>
    ghost var done: seq<seq<Event>>

    ghost predicate Ready()
      reads this
    {
      dependencyOrder.Length == PARTICIPANT_CAPACITY && Registered(participants)
    }

    constructor ()
      ensures Ready() && participants == [] && !finalized && suspendAvailable && failure == NoFailure
      ensures Sized() && View() == Initial([], true)
      ensures fresh(dependencyOrder) && fresh(suspended)
    {
      state, phase, cursor, suspendedCount, generation := Active, NoPhase, 0, 0, 0;
      expected, completionReady, completionOk := Token(0, 0, Down), false, false;
      platformPrepared, inhibited, suspendRequested, activityRequested := false, false, false, false;
      suspended := new nat[PARTICIPANT_CAPACITY](i => 0);
      log, done := [], [];
      participants := [];
      dependencyOrder := new nat[PARTICIPANT_CAPACITY](i => 0);
      failure := NoFailure;
      finalized := false;
      suspendAvailable := true;
    }

    /** The index of the participant of that name, or the capacity. */
    method Find(name: string) returns (index: nat)
      requires Ready()
      ensures index < |participants| ==> participants[index].name == name
      ensures index >= |participants| ==> index == PARTICIPANT_CAPACITY && !Known(participants, name)
    {
      for i := 0 to |participants|
        invariant forall j :: 0 <= j < i ==> participants[j].name != name
      {
        if participants[i].name == name {
          return i;
        }
      }
      return PARTICIPANT_CAPACITY;
    }

    /** A registration is accepted exactly when the manager is open and has room, the name is new,
        and every name is usable; any refusal makes suspend unavailable for good. */
    method Register(registration: Participant) returns (ok: bool)
      requires Ready()
      modifies this`participants, this`failure, this`suspendAvailable
      ensures Ready()
      ensures ok <==>
        && !finalized && Usable(registration)
        && old(|participants|) < PARTICIPANT_CAPACITY && !Known(old(participants), registration.name)
      ensures participants == if ok then old(participants) + [registration] else old(participants)
      ensures suspendAvailable == (ok && old(suspendAvailable))
      ensures ok ==> failure == old(failure)
      ensures !ok ==> failure == if finalized || !Acceptable(registration) then Argument("")
                                 else if old(|participants|) == PARTICIPANT_CAPACITY then Capacity(registration.name)
                                 else if Known(old(participants), registration.name) then Duplicate(registration.name)
                                 else Argument(registration.name)
    {
      if finalized || !NameOk(registration.name) || |registration.dependencies| > DEPENDENCY_CAPACITY {
        suspendAvailable, failure := false, Argument("");
        return false;
      }
      if |participants| == PARTICIPANT_CAPACITY {
        suspendAvailable, failure := false, Capacity(registration.name);
        return false;
      }
      var twin := Find(registration.name);
      if twin != PARTICIPANT_CAPACITY {
        suspendAvailable, failure := false, Duplicate(registration.name);
        return false;
      }
      for i := 0 to |registration.dependencies|
        invariant forall k :: 0 <= k < i ==> NameOk(registration.dependencies[k])
        invariant participants == old(participants) && suspendAvailable == old(suspendAvailable)
        invariant failure == old(failure)
      {
        if !NameOk(registration.dependencies[i]) {
          suspendAvailable, failure := false, Argument(registration.name);
          return false;
        }
      }
      participants := participants + [registration];
      return true;
    }

    method RegisterBoth(a: Participant, b: Participant)
      requires Ready() && participants == [] && !finalized && a.name != b.name && Usable(a) && Usable(b)
      modifies this`participants, this`failure, this`suspendAvailable
      ensures Ready() && participants == [a, b] && failure == old(failure)
    {
      var first := Register(a);
      var second := Register(b);
    }

    /** Depth-first visit of one participant.  `path` is the chain of participants that led here; while
        `clean`, that is before any failure, they are the half-visited ones. */
    method Visit(index: nat, marks: array<nat>, count: nat, ghost path: seq<nat>, ghost clean: bool)
      returns (ok: bool, after: nat)
      requires Ready() && index < |participants| && marks != dependencyOrder
      requires count <= PARTICIPANT_CAPACITY && SearchOk(participants, marks[..], dependencyOrder[..count])
      requires Path(participants, path + [index]) && Settled(participants, marks[..], path)
      requires clean ==> OnPath(participants, marks[..], path)
      modifies marks, dependencyOrder, this`failure
      ensures count <= after <= PARTICIPANT_CAPACITY
      ensures SearchOk(participants, marks[..], dependencyOrder[..after])
      ensures old(dependencyOrder[..count]) <= dependencyOrder[..after]
      ensures Rises(old(marks[..]), marks[..])
      ensures ok ==> SameVisiting(old(marks[..]), marks[..]) && failure == old(failure)
      ensures !ok ==> Recorded(participants, failure) && (clean ==> Truthful(participants, failure))
      ensures marks[index] == if ok then VISITED else VISITING
      ensures Settled(participants, marks[..], path)
      ensures Stuck(participants, old(marks[..]), marks[..], participants[index].name)
      ensures VisitOutcome(participants, old(marks[..]), index, ok, failure)
      decreases |Unmarked(marks[..])|, 0, 0
    {
      if marks[index] == VISITED {
        VisitedIsFine(participants, marks[..], dependencyOrder[..count], index);
        return true, count;
      }
      if marks[index] == VISITING {
        Reentered(participants, marks[..], path, index, clean);
        failure := DependencyCycle(participants[index].name);
        return false, count;
      }
      ghost var was := marks[..];
      EnterNode(participants, was, dependencyOrder[..count], path, index, clean);
      EnterSettled(participants, was, path, index);
      EnterShrinks(was, index);
      marks[index] := VISITING;
      assert marks[..] == was[index := VISITING];
      ok, after := VisitDependencies(index, marks, count, path + [index], clean);
      ghost var last := marks[..];
      EnteredOutcome(participants, was, last, index, ok, failure);
      if ok {
        VisitEnds(participants, was, last, index);
        after := Append(index, marks, after, path);
      } else {
        FailSettled(participants, last, path, index);
      }
    }

    /** A participant whose dependencies are all in the order is done and joins it. */
    method Append(index: nat, marks: array<nat>, count: nat, ghost path: seq<nat>) returns (after: nat)
      requires Ready() && index < |participants| && marks != dependencyOrder
      requires count <= PARTICIPANT_CAPACITY && SearchOk(participants, marks[..], dependencyOrder[..count])
      requires marks[index] == VISITING && Settled(participants, marks[..], path + [index])
      requires DependenciesBefore(participants, dependencyOrder[..count], index, |participants[index].dependencies|)
      requires !Troubled(participants, index)
      modifies marks, dependencyOrder
      ensures count < after <= PARTICIPANT_CAPACITY
      ensures SearchOk(participants, marks[..], dependencyOrder[..after])
      ensures old(dependencyOrder[..count]) <= dependencyOrder[..after]
      ensures marks[..] == old(marks[..])[index := VISITED] && Settled(participants, marks[..], path)
    {
      ghost var last, order := marks[..], dependencyOrder[..count];
      LeaveNode(participants, last, order, index);
      LeaveSettled(participants, last, path, index);
      marks[index] := VISITED;
      dependencyOrder[count] := index;
      assert marks[..] == last[index := VISITED];
      assert dependencyOrder[..count + 1] == order + [index];
      return count + 1;
    }

    /** The loop over the dependencies of a half-visited participant. */
    method VisitDependencies(index: nat, marks: array<nat>, count: nat, ghost path: seq<nat>, ghost clean: bool)
      returns (ok: bool, after: nat)
      requires Ready() && index < |participants| && marks != dependencyOrder
      requires count <= PARTICIPANT_CAPACITY && SearchOk(participants, marks[..], dependencyOrder[..count])
      requires marks[index] == VISITING && |path| > 0 && path[|path| - 1] == index
      requires Path(participants, path) && Settled(participants, marks[..], path)
      requires clean ==> OnPath(participants, marks[..], path)
      modifies marks, dependencyOrder, this`failure
      ensures count <= after <= PARTICIPANT_CAPACITY
      ensures SearchOk(participants, marks[..], dependencyOrder[..after])
      ensures old(dependencyOrder[..count]) <= dependencyOrder[..after]
      ensures Rises(old(marks[..]), marks[..])
      ensures ok ==> SameVisiting(old(marks[..]), marks[..]) && failure == old(failure)
      ensures !ok ==> Recorded(participants, failure) && (clean ==> Truthful(participants, failure))
      ensures ok ==> DependenciesBefore(participants, dependencyOrder[..after], index,
                                        |participants[index].dependencies|)
      ensures Settled(participants, marks[..], path)
      ensures Stuck(participants, old(marks[..]), marks[..], participants[index].name)
      ensures Outcome(participants, old(marks[..]), index, ok, failure)
      ensures !ok ==> CaughtAt(participants, marks[..], index)
      decreases |Unmarked(marks[..])|, 1, 0
    {
      after := count;
      ghost var entered := marks[..];
      var i := 0;
      while i < |participants[index].dependencies|
        invariant 0 <= i <= |participants[index].dependencies| && count <= after <= PARTICIPANT_CAPACITY
        invariant SearchOk(participants, marks[..], dependencyOrder[..after])
        invariant old(dependencyOrder[..count]) <= dependencyOrder[..after] && failure == old(failure)
        invariant Rises(entered, marks[..]) && SameVisiting(entered, marks[..])
        invariant Settled(participants, marks[..], path) && FineBelow(participants, index, i)
        invariant DependenciesBefore(participants, dependencyOrder[..after], index, i)
      {
        RisesShrinks(entered, marks[..]);
        ghost var order, now := dependencyOrder[..after], marks[..];
        ok, after := VisitName(index, i, marks, after, path, clean);
        if !ok {
          SinceEntered(participants, entered, now, marks[..], participants[index].dependencies[i], failure);
          FirstFails(participants, entered, marks[..], index, i, failure);
          return false, after;
        }
        FineStep(participants, now, index, i, failure);
        assert order <= dependencyOrder[..after];
        OneMoreBefore(participants, order, dependencyOrder[..after], index, i);
        i := i + 1;
      }
      FineAll(participants, index);
      return true, after;
    }

    /** Look up and visit the k-th dependency of a half-visited participant. */
    method VisitName(index: nat, k: nat, marks: array<nat>, count: nat, ghost path: seq<nat>, ghost clean: bool)
      returns (ok: bool, after: nat)
      requires Ready() && index < |participants| && marks != dependencyOrder
      requires count <= PARTICIPANT_CAPACITY && SearchOk(participants, marks[..], dependencyOrder[..count])
      requires k < |participants[index].dependencies|
      requires marks[index] == VISITING && |path| > 0 && path[|path| - 1] == index
      requires Path(participants, path) && Settled(participants, marks[..], path)
      requires clean ==> OnPath(participants, marks[..], path)
      modifies marks, dependencyOrder, this`failure
      ensures count <= after <= PARTICIPANT_CAPACITY
      ensures SearchOk(participants, marks[..], dependencyOrder[..after])
      ensures old(dependencyOrder[..count]) <= dependencyOrder[..after]
      ensures Rises(old(marks[..]), marks[..])
      ensures ok ==> SameVisiting(old(marks[..]), marks[..]) && failure == old(failure)
      ensures !ok ==> Recorded(participants, failure) && (clean ==> Truthful(participants, failure))
      ensures ok ==> Before(participants, dependencyOrder[..after], after, participants[index].dependencies[k])
      ensures Settled(participants, marks[..], path)
      ensures Stuck(participants, old(marks[..]), marks[..], participants[index].dependencies[k])
      ensures NameOutcome(participants, old(marks[..]), participants[index].dependencies[k], ok, failure)
      ensures !ok ==> Caught(participants, marks[..], participants[index].dependencies[k])
      decreases |Unmarked(marks[..])|, 0, 1
    {
      ghost var name := participants[index].dependencies[k];
      var dependency := Find(participants[index].dependencies[k]);
      if dependency == PARTICIPANT_CAPACITY {
        failure := MissingDependency(participants[index].dependencies[k]);
        assert !Known(participants, name);
        return false, count;
      }
      assert DependsOn(participants, index, dependency);
      assert path == path[..|path| - 1] + [index];
      StepPath(participants, path[..|path| - 1], index, dependency);
      ghost var was := marks[..];
      ok, after := Visit(dependency, marks, count, path, clean);
      VisitedName(participants, was, marks[..], dependency, name, ok, failure);
      if ok {
        var b :| 0 <= b < after && dependencyOrder[..after][b] == dependency;
        assert participants[dependencyOrder[..after][b]].name == name;
      }
    }

    /** Visit every participant; any failed visit makes suspend unavailable.  `first` is the failure of the
        first one that failed. */
    method SortAll() returns (count: nat, ghost clean: bool, ghost first: FailureCode)
      requires Ready()
      modifies this`failure, this`suspendAvailable, dependencyOrder
      ensures count <= PARTICIPANT_CAPACITY && suspendAvailable == (old(suspendAvailable) && clean)
      ensures clean ==> TopologicalOrder(participants, dependencyOrder[..count])
      ensures FailureKept(participants, old(failure), failure, first, clean)
      ensures LastFailure(participants, |participants|, failure)
    {
      var marks := new nat[PARTICIPANT_CAPACITY](i => UNMARKED);
      count, clean, first := 0, true, NoFailure;
      ghost var was := failure;
      for i := 0 to |participants|
        invariant count <= PARTICIPANT_CAPACITY && suspendAvailable == (old(suspendAvailable) && clean)
        invariant Sweeping(participants, marks[..], dependencyOrder[..count], i, clean, was, failure, first)
      {
        ghost var before, code, order := marks[..], failure, dependencyOrder[..count];
        var visited;
        visited, count := Visit(i, marks, count, [], clean);
        SweepsOn(participants, before, order, marks[..], dependencyOrder[..count], i, clean, visited, was, code,
                 failure, first);
        first := if clean && !visited then failure else first;
        clean := clean && visited;
        if !visited {
          suspendAvailable := false;
        }
      }
      if clean {
        AllVisited(participants, marks[..], dependencyOrder[..count]);
      }
    }

    /** power_manager_finalize: sort all participants.  It succeeds exactly when no registration
        failed, every named dependency exists and no participant depends on itself; the order is
        then a permutation of the participants with each after all its dependencies.  Otherwise the
        first failure recorded is true of the participants; the last one, which stays, is that of the last
        troubled participant, and is false exactly in the cases of FalseAlarm. */
    method Finalize() returns (ok: bool, ghost first: FailureCode)
      requires Ready()
      modifies this`failure, this`finalized, this`suspendAvailable, dependencyOrder
      ensures finalized
      ensures old(finalized) ==> !ok && suspendAvailable == old(suspendAvailable) && failure == old(failure)
      ensures !old(finalized) ==> ok == suspendAvailable
      ensures !old(finalized) ==>
                (ok <==> old(suspendAvailable) && Resolved(participants) && !Cyclic(participants))
      ensures ok ==> TopologicalOrder(participants, dependencyOrder[..|participants|])
      ensures !old(finalized) && Resolved(participants) && !Cyclic(participants) ==> failure == old(failure)
      ensures !old(finalized) && (!Resolved(participants) || Cyclic(participants)) ==>
                && Recorded(participants, failure) && Truthful(participants, first)
                && LastFailure(participants, |participants|, failure)
                && (Truthful(participants, failure) <==> !FalseAlarm(participants))
      ensures !old(finalized) && !old(failure).DependencyCycle? && Resolved(participants) ==>
                (failure.DependencyCycle? <==> Cyclic(participants))
    {
      if finalized {
        return false, failure;
      }
      var count: nat;
      ghost var clean: bool;
      count, clean, first := SortAll();
      finalized := true;
      if clean {
        OrderResolves(participants, dependencyOrder[..count]);
        OrderIsAcyclic(participants, dependencyOrder[..count]);
      } else {
        TruthfulMeans(participants, first);
        Alarm(participants, failure);
      }
      return suspendAvailable, first;
    }

    /** A finalized manager that has not started a cycle is ready for the protocol. */
    lemma RestingIsValid()
      requires Sized() && finalized && Resting()
      requires suspendAvailable ==> TopologicalOrder(participants, dependencyOrder[..|participants|])
      ensures Valid()
    {
      if suspendAvailable {
        TopologicalIsOrder(participants, dependencyOrder[..|participants|]);
      }
    }

    // ----- The suspend/resume protocol -----

    /** No cycle has been started. */
    ghost predicate Resting()
      reads this
    {
      state == Active && phase == NoPhase && suspendedCount == 0 && !platformPrepared && log == [] && done == []
    }

    ghost predicate Sized()
      reads this
    {
      && Ready() && suspended.Length == PARTICIPANT_CAPACITY && suspendedCount <= PARTICIPANT_CAPACITY
      && suspended != dependencyOrder
    }

    /** The protocol state.  A manager whose registrations or graph were refused never starts a
        cycle, so its unfinished order is left out. */
    ghost function View(): Manager
      requires Sized()
      reads this, dependencyOrder, suspended
    {
      Manager(if suspendAvailable then dependencyOrder[..|participants|] else [], state, phase, cursor,
              suspended[..suspendedCount], generation, expected,
              if completionReady then Some(completionOk) else None, platformPrepared,
              suspendAvailable, inhibited, suspendRequested, activityRequested, log, done)
    }

    ghost predicate Valid()
      reads this, dependencyOrder, suspended
    {
      Sized() && finalized && Inv(View())
    }

    /** Store a posted completion if it is the one awaited and the first. */
    method Complete(post: Post)
      requires Sized()
      modifies this`completionReady, this`completionOk
      ensures Sized() && View() == PowerCycle.Complete(old(View()), post)
    {
      if !completionReady && post.token == expected {
        completionOk := post.ok;
        completionReady := true;
      }
    }

    /** Completions that arrive while a callback runs. */
    method CompleteAll(posts: seq<Post>)
      requires Sized()
      modifies this`completionReady, this`completionOk
      ensures Sized() && View() == PowerCycle.CompleteAll(old(View()), posts)
    {
      for i := 0 to |posts|
        invariant Sized() && PowerCycle.CompleteAll(View(), posts[i..]) == PowerCycle.CompleteAll(old(View()), posts)
      {
        assert posts[i..][0] == posts[i] && posts[i..][1..] == posts[i + 1..];
        Complete(posts[i]);
      }
    }

    ghost method Note(e: Event)
      requires Sized()
      modifies this`log
      ensures Sized() && View() == Record(old(View()), e)
    {
      log := log + [e];
    }

    method ExpectCompletion(token: Token)
      requires Sized()
      modifies this`expected, this`completionReady
      ensures Sized() && View() == old(View()).(expected := token, ready := None)
    {
      expected := token;
      completionReady := false;
    }

    method BeginResume()
      requires Sized()
      modifies this`state, this`phase, this`cursor
      ensures Sized() && View() == PowerCycle.BeginResume(old(View()))
    {
      state := Resuming;
      SetPhase(Resume, 0);
    }

    method Rollback(code: FailureCode)
      requires Sized()
      modifies this`failure, this`state, this`phase, this`cursor, this`log
      ensures Sized() && View() == PowerCycle.Rollback(old(View())) && failure == code
    {
      failure := code;
      if platformPrepared {
        Note(Aborted);
      }
      BeginResume();
    }

    method SetState(newState: State, prepared: bool)
      requires Sized()
      modifies this`state, this`platformPrepared
      ensures Sized() && View() == old(View()).(state := newState, prepared := prepared)
    {
      state := newState;
      platformPrepared := prepared;
    }

    method ForgetSuspended()
      requires Sized()
      modifies this`suspendedCount
      ensures Sized() && View() == old(View()).(suspended := [])
    {
      suspendedCount := 0;
    }

    ghost method CloseCycle()
      requires Sized()
      modifies this`log, this`done
      ensures Sized() && View() == old(View()).(log := [], done := old(done) + [old(log) + [Returned]])
    {
      log, done := [], done + [log + [Returned]];
    }

    method Finish()
      requires Sized()
      modifies this`state, this`phase, this`cursor, this`suspendedCount, this`platformPrepared, this`log, this`done
      ensures Sized() && View() == PowerCycle.Finish(old(View()))
    {
      SetState(Active, false);
      SetPhase(NoPhase, 0);
      ForgetSuspended();
      CloseCycle();
    }

    /** Append to the suspended participants and move on. */
    method MarkSuspended(participant: nat)
      requires Sized() && suspendedCount < PARTICIPANT_CAPACITY
      modifies suspended, this`suspendedCount, this`cursor
      ensures Sized()
      ensures View() == old(View()).(suspended := old(View()).suspended + [participant], cursor := old(cursor) + 1)
    {
      suspended[suspendedCount] := participant;
      suspendedCount := suspendedCount + 1;
      cursor := cursor + 1;
      assert suspended[..suspendedCount] == old(suspended[..suspendedCount]) + [participant];
    }

    method SetPhase(newPhase: Phase, newCursor: nat)
      requires Sized()
      modifies this`phase, this`cursor
      ensures Sized() && View() == old(View()).(phase := newPhase, cursor := newCursor)
    {
      phase := newPhase;
      cursor := newCursor;
    }

    /** Take the completion that is in. */
    method TakeCompletion() returns (ok: bool)
      requires Sized() && completionReady
      modifies this`completionReady
      ensures Sized() && ok == completionOk && View() == old(View()).(ready := None)
    {
      ok := completionOk;
      completionReady := false;
    }

    /** A completion is in: the suspend or resume waiting for it is over. */
    method WaitStep()
      requires Sized() && View().Waiting() && completionReady
      requires phase == WaitSuspend ==> suspendedCount < PARTICIPANT_CAPACITY
      modifies this`completionReady, this`log, this`failure, this`state, this`phase, this`cursor
      modifies this`suspendedCount, suspended
      ensures Sized() && View() == PowerCycle.WaitStep(old(View()), old(completionOk))
      ensures failure == if old(completionOk) then old(failure) else Callback
    {
      var ok := TakeCompletion();
      if phase == WaitResume {
        UpHeard(ok);
      } else {
        Note(Reported(Down, expected.participant, ok));
        DownHeard(ok);
      }
    }

    /** The awaited resume succeeded or failed; either way the next one is due. */
    method UpHeard(ok: bool)
      requires Sized()
      modifies this`log, this`failure, this`phase, this`cursor
      ensures Sized()
      ensures View()
           == Record(old(View()), Reported(Up, expected.participant, ok)).(phase := Resume, cursor := old(cursor) + 1)
      ensures failure == if ok then old(failure) else Callback
    {
      if !ok {
        failure := Callback;
      }
      Note(Reported(Up, expected.participant, ok));
      SetPhase(Resume, cursor + 1);
    }

    /** The awaited suspend succeeded or failed. */
    method DownHeard(ok: bool)
      requires Sized() && suspendedCount < PARTICIPANT_CAPACITY
      modifies this`log, this`failure, this`state, this`phase, this`cursor, this`suspendedCount, suspended
      ensures Sized()
      ensures var was, p := old(View()), expected.participant;
              View() == if ok then was.(suspended := was.suspended + [p], cursor := was.cursor + 1, phase := Suspend)
                        else PowerCycle.Rollback(was)
      ensures failure == if ok then old(failure) else Callback
    {
      if ok {
        MarkSuspended(expected.participant);
        SetPhase(Suspend, cursor);
      } else {
        Rollback(Callback);
      }
    }

    method FallAsleep()
      requires Sized()
      modifies this`state, this`phase, this`cursor, this`platformPrepared
      ensures Sized() && View() == old(View()).(prepared := true, state := Suspended, phase := Sleep)
    {
      SetState(Suspended, true);
      SetPhase(Sleep, cursor);
    }

    /** All participants are suspended: prepare the platform and sleep. */
    method SleepStep(a: Answer) returns (stop: bool)
      requires Sized()
      modifies this`failure, this`state, this`phase, this`cursor, this`platformPrepared, this`log
      ensures Sized() && View() == PowerCycle.SleepStep(old(View()), a) && stop == (a.prepares && a.sleeps)
      ensures failure == if !a.prepares then PlatformPrepare else if !a.sleeps then PlatformSleep else old(failure)
    {
      Note(Prepared(a.prepares));
      if !a.prepares {
        Rollback(PlatformPrepare);
        return false;
      }
      FallAsleep();
      Note(Slept(a.sleeps));
      if !a.sleeps {
        Rollback(PlatformSleep);
        return false;
      }
      return true;
    }

    /** Call a participant; completions may arrive while its callback runs. */
    method Invoke(index: nat, operation: Operation, posts: seq<Post>)
      requires Sized()
      modifies this`expected, this`completionReady, this`completionOk, this`log
      ensures Sized() && View() == PowerCycle.Invoke(old(View()), index, operation, posts)
    {
      ExpectCompletion(Token(generation, index, operation));
      Note(Called(operation, index));
      CompleteAll(posts);
    }

    method DownAnswered(index: nat, result: CallbackResult)
      requires Sized() && suspendedCount < PARTICIPANT_CAPACITY
      modifies this`log, this`failure, this`state, this`phase, this`cursor, this`suspendedCount, suspended
      ensures Sized() && View() == PowerCycle.DownAnswered(old(View()), index, result)
      ensures failure == if result == Failure then Callback else old(failure)
    {
      if result == Pending {
        SetPhase(WaitSuspend, cursor);
        return;
      }
      Note(Reported(Down, index, result == Success));
      if result == Failure {
        Rollback(Callback);
      } else {
        MarkSuspended(index);
      }
    }

    /** Ask the next participant to suspend. */
    method CallDown(a: Answer) returns (stop: bool)
      requires Sized() && suspendAvailable && cursor < |participants| && suspendedCount < PARTICIPANT_CAPACITY
      modifies this`expected, this`completionReady, this`completionOk
      modifies this`log, this`failure, this`state, this`phase, this`cursor, this`suspendedCount, suspended
      ensures Sized() && View() == PowerCycle.CallDown(old(View()), a) && stop == (a.result == Pending)
      ensures failure == if a.result == Failure then Callback else old(failure)
    {
      var index := dependencyOrder[|participants| - 1 - cursor];
      assert index == DownTarget(View().order, cursor);
      Invoke(index, Down, a.posts);
      DownAnswered(index, a.result);
      return a.result == Pending;
    }

    method UpAnswered(index: nat, result: CallbackResult)
      requires Sized()
      modifies this`log, this`failure, this`phase, this`cursor
      ensures Sized() && View() == PowerCycle.UpAnswered(old(View()), index, result)
      ensures failure == if result == Failure then Callback else old(failure)
    {
      if result == Pending {
        SetPhase(WaitResume, cursor);
        return;
      }
      Note(Reported(Up, index, result == Success));
      if result == Failure {
        failure := Callback;
      }
      SetPhase(phase, cursor + 1);
    }

    /** Ask the participant suspended last, of those not yet asked, to resume. */
    method CallUp(a: Answer) returns (stop: bool)
      requires Sized() && cursor < suspendedCount
      modifies this`expected, this`completionReady, this`completionOk
      modifies this`log, this`failure, this`phase, this`cursor
      ensures Sized() && View() == PowerCycle.CallUp(old(View()), a) && stop == (a.result == Pending)
      ensures failure == if a.result == Failure then Callback else old(failure)
    {
      var index := suspended[suspendedCount - 1 - cursor];
      assert index == UpTarget(View());
      Invoke(index, Up, a.posts);
      UpAnswered(index, a.result);
      return a.result == Pending;
    }

    /** What the protocol invariant says about the counters. */
    ghost predicate InRange()
      reads this
    {
      && (phase == Suspend ==> suspendAvailable && suspendedCount == cursor <= |participants|)
      && (phase == WaitSuspend ==> suspendedCount < PARTICIPANT_CAPACITY)
      && (phase == Resume ==> cursor <= suspendedCount)
    }

    /** One turn of the driver loop, from the counters alone. */
    method Turn(a: Answer) returns (stop: bool)
      requires Sized() && InRange()
      modifies this`expected, this`completionReady, this`completionOk
      modifies this`log, this`done, this`failure, this`state, this`phase, this`cursor, this`platformPrepared
      modifies this`suspendedCount, suspended
      ensures Sized() && (View(), stop) == DriveStep(old(View()), a)
      ensures failure == TurnFault(old(View()), a, old(failure))
    {
      if phase == WaitSuspend || phase == WaitResume {
        if completionReady {
          WaitStep();
          return false;
        }
        return true;
      } else if phase == Suspend {
        if cursor == |participants| {
          stop := SleepStep(a);
        } else {
          stop := CallDown(a);
        }
      } else if phase == Resume {
        if cursor == suspendedCount {
          Finish();
          return true;
        }
        stop := CallUp(a);
      } else {
        return true;
      }
    }

    /** One turn of the driver loop. */
    method Step(a: Answer) returns (stop: bool)
      requires Valid()
      modifies this`expected, this`completionReady, this`completionOk
      modifies this`log, this`done, this`failure, this`state, this`phase, this`cursor, this`platformPrepared
      modifies this`suspendedCount, suspended
      ensures Valid() && (View(), stop) == DriveStep(old(View()), a)
      ensures failure == TurnFault(old(View()), a, old(failure))
    {
      StepKeeps(View(), a);
      stop := Turn(a);
    }

    /** The bounded driver loop: it never uses up its budget. */
    method Drive(answers: seq<Answer>)
      requires Valid() && |answers| == DRIVE_BUDGET
      modifies this`expected, this`completionReady, this`completionOk
      modifies this`log, this`done, this`failure, this`state, this`phase, this`cursor, this`platformPrepared
      modifies this`suspendedCount, suspended
      ensures Valid() && View() == PowerCycle.Drive(old(View()), answers).0
      ensures failure == DriveFault(old(View()), answers, old(failure))
      ensures phase != Suspend && phase != Resume
    {
      BudgetSuffices(View(), answers);
      ghost var result := PowerCycle.Drive(View(), answers);
      ghost var fault := DriveFault(View(), answers, failure);
      assert answers[0..] == answers;
      for step := 0 to DRIVE_BUDGET
        invariant Valid() && PowerCycle.Drive(View(), answers[step..]) == result
        invariant DriveFault(View(), answers[step..], failure) == fault
      {
        NextTurn(View(), answers, step, failure);
        var stop := Step(answers[step]);
        if stop {
          return;
        }
      }
    }

    /** Begin a cycle unless a failed registration, an inhibitor or a blocker forbids it. */
    method Start(blocked: bool, answers: seq<Answer>)
      requires Valid() && (state == Active || state == Idle) && |answers| == DRIVE_BUDGET
      modifies this`generation, this`expected, this`completionReady, this`completionOk
      modifies this`log, this`done, this`failure, this`state, this`phase, this`cursor, this`platformPrepared
      modifies this`suspendedCount, suspended
      ensures Valid() && View() == PowerCycle.Start(old(View()), blocked, answers)
      ensures failure == StartFault(old(View()), blocked, answers, old(failure))
    {
      if !suspendAvailable {
        failure := Registration;
      } else if inhibited || blocked {
        failure := Blocked;
      } else {
        BeginSuspend();
        Drive(answers);
      }
    }

    method NextGeneration()
      requires Sized()
      modifies this`generation, this`failure, this`log
      ensures Sized() && View() == old(View()).(generation := old(generation) + 1, log := []) && failure == NoFailure
    {
      failure := NoFailure;
      generation := generation + 1;
      log := [];
    }

    method BeginSuspend()
      requires Valid() && (state == Active || state == Idle) && suspendAvailable
      modifies this`generation, this`state, this`failure, this`phase, this`cursor, this`suspendedCount, this`log
      modifies this`platformPrepared
      ensures Valid() && View() == Begun(old(View())) && failure == NoFailure
    {
      BegunKeeps(View());
      NewCycle();
    }

    method NewCycle()
      requires Sized()
      modifies this`generation, this`state, this`failure, this`phase, this`cursor, this`suspendedCount, this`log
      modifies this`platformPrepared
      ensures Sized() && View() == Begun(old(View())) && failure == NoFailure
    {
      NextGeneration();
      SetState(Suspending, platformPrepared);
      SetPhase(Suspend, 0);
      ForgetSuspended();
    }

    /** Take the requests; activity rouses an idle manager. */
    method TakeRequests() returns (request: bool)
      requires Sized()
      modifies this`suspendRequested, this`activityRequested, this`state
      ensures Sized() && View() == PowerCycle.TakeRequests(old(View())) && request == old(suspendRequested)
    {
      request := suspendRequested;
      suspendRequested := false;
      if activityRequested && state == Idle {
        state := Active;
      }
      activityRequested := false;
    }

    /** Take the requests, note activity, and go idle at the deadline. */
    method Refresh(input: Input) returns (request: bool)
      requires Sized()
      modifies this`suspendRequested, this`activityRequested, this`state
      ensures Sized() && View() == PowerCycle.Refresh(old(View()), input) && request == Requested(old(View()), input)
    {
      request := TakeRequests();
      if input.idleDue && !inhibited {
        if state == Active {
          state := Idle;
        }
        request := request || (state == Idle && input.suspendDue);
      }
    }

    method Wake(input: Input)
      requires Valid()
      modifies this`failure, this`log, this`state, this`phase, this`cursor
      ensures Valid() && View() == PowerCycle.Wake(old(View()), input)
      ensures failure == WakeFault(old(View()), input, old(failure))
    {
      WakeKeeps(View(), input);
      if state == Suspended && input.powerEvent && input.wakes {
        Rouse(input.restores);
      }
    }

    /** The platform is awake again; a failure to restore it is only noted. */
    method Rouse(restores: bool)
      requires Sized()
      modifies this`failure, this`log, this`state, this`phase, this`cursor
      ensures Sized() && View() == PowerCycle.BeginResume(Record(old(View()), Woken(restores)))
      ensures failure == if restores then old(failure) else PlatformRestore
    {
      if !restores {
        failure := PlatformRestore;
      }
      Note(Woken(restores));
      BeginResume();
    }

    method Launch(request: bool, input: Input)
      requires Valid() && |input.starting| == DRIVE_BUDGET
      modifies this`generation, this`expected, this`completionReady, this`completionOk
      modifies this`log, this`done, this`failure, this`state, this`phase, this`cursor, this`platformPrepared
      modifies this`suspendedCount, suspended
      ensures Valid() && View() == PowerCycle.Launch(old(View()), request, input)
      ensures failure == LaunchFault(old(View()), request, input, old(failure))
    {
      if request && (state == Active || state == Idle) {
        Start(input.blocked, input.starting);
      } else if request {
        failure := InvalidState;
      }
    }

    /** What an update does before its own drive. */
    method Attend(input: Input)
      requires Valid() && |input.starting| == DRIVE_BUDGET
      modifies this`suspendRequested, this`activityRequested
      modifies this`generation, this`expected, this`completionReady, this`completionOk
      modifies this`log, this`done, this`failure, this`state, this`phase, this`cursor, this`platformPrepared
      modifies this`suspendedCount, suspended
      ensures Valid() && View() == PowerCycle.Attend(old(View()), input)
      ensures failure == AttendFault(old(View()), input, old(failure))
    {
      RefreshKeeps(View(), input);
      var request := Refresh(input);
      WakeOrLaunch(request, input);
    }

    method WakeOrLaunch(request: bool, input: Input)
      requires Valid() && |input.starting| == DRIVE_BUDGET
      modifies this`generation, this`expected, this`completionReady, this`completionOk
      modifies this`log, this`done, this`failure, this`state, this`phase, this`cursor, this`platformPrepared
      modifies this`suspendedCount, suspended
      ensures Valid() && View() == PowerCycle.Launch(PowerCycle.Wake(old(View()), input), request, input)
      ensures failure == LaunchFault(PowerCycle.Wake(old(View()), input), request, input,
                                     WakeFault(old(View()), input, old(failure)))
    {
      Wake(input);
      Launch(request, input);
    }

    /** power_manager_update. */
    method Update(input: Input)
      requires Valid() && |input.starting| == |input.answers| == DRIVE_BUDGET
      modifies this`suspendRequested, this`activityRequested
      modifies this`generation, this`expected, this`completionReady, this`completionOk
      modifies this`log, this`done, this`failure, this`state, this`phase, this`cursor, this`platformPrepared
      modifies this`suspendedCount, suspended
      ensures Valid() && View() == PowerCycle.Update(old(View()), input)
      ensures failure == UpdateFault(old(View()), input, old(failure))
      ensures old(state) == ShuttingDown || (phase != Suspend && phase != Resume)
    {
      if state != ShuttingDown {
        Attend(input);
        Drive(input.answers);
      }
    }

    method RequestSuspend()
      requires Sized()
      modifies this`suspendRequested
      ensures Sized() && View() == Apply(old(View()), Action.RequestSuspend)
    {
      suspendRequested := true;
    }

    method RequestActivity()
      requires Sized()
      modifies this`activityRequested
      ensures Sized() && View() == Apply(old(View()), Action.RequestActivity)
    {
      activityRequested := true;
    }

    method SetPolicy(idle: bool)
      requires Sized()
      modifies this`state
      ensures Sized() && View() == Apply(old(View()), Action.SetPolicy(idle))
    {
      if !inhibited && (state == Active || state == Idle) {
        state := if idle then Idle else Active;
      }
    }

    method SetInhibited(on: bool)
      requires Sized()
      modifies this`state, this`inhibited
      ensures Sized() && View() == Apply(old(View()), Action.SetInhibited(on))
    {
      if state != ShuttingDown {
        if (on || inhibited) && state == Idle {
          state := Active;
        }
        inhibited := on;
      }
    }

    method BeginShutdown()
      requires Sized()
      modifies this`state, this`phase
      ensures Sized() && View() == Apply(old(View()), Action.BeginShutdown)
    {
      state := ShuttingDown;
      phase := NoPhase;
    }

    /** Any request of the outside but an update, keeping the protocol. */
    method Act(action: Action)
      requires Valid() && !action.Step?
      modifies this`completionReady, this`completionOk, this`suspendRequested, this`activityRequested
      modifies this`inhibited, this`state, this`phase
      ensures Valid() && View() == Apply(old(View()), action)
    {
      ApplyKeeps(View(), action);
      match action
      case Post(post) => Complete(post);
      case RequestSuspend => RequestSuspend();
      case RequestActivity => RequestActivity();
      case SetPolicy(idle) => SetPolicy(idle);
      case SetInhibited(on) => SetInhibited(on);
      case BeginShutdown => BeginShutdown();
    }
  }

  method FinalizeBoth(a: Participant, b: Participant) returns (m: PowerManager, ok: bool, ghost first: FailureCode)
    requires a.name != b.name && Usable(a) && Usable(b) && !Cyclic([a, b]) && FalseAlarm([a, b])
    ensures fresh(m) && m.participants == [a, b]
    ensures !ok && m.failure.DependencyCycle? && first.MissingDependency?
  {
    m := new PowerManager();
    m.RegisterBoth(a, b);
    ok, first := m.Finalize();
    if Resolved([a, b]) {
      ResolvedAlarmsAtCycles([a, b]);
    }
    TruthfulMeans([a, b], first);
  }

  /** A manager that finalizes with a dependency cycle that its participants do not have. */
  method FinalizeChainToNobody() returns (m: PowerManager, ok: bool, ghost first: FailureCode)
    ensures fresh(m) && m.participants == ChainToNobody() && !Cyclic(m.participants)
    ensures !ok && m.failure.DependencyCycle? && first.MissingDependency?
  {
    ChainToNobodyAlarms();
    var ps := ChainToNobody();
    assert ps == [ps[0], ps[1]];
    m, ok, first := FinalizeBoth(ps[0], ps[1]);
  }

  /** The next turn of a drive. */
  lemma NextTurn(m: Manager, answers: seq<Answer>, step: nat, f: FailureCode)
    requires step < |answers|
    ensures var (next, stop) := DriveStep(m, answers[step]);
            var now := TurnFault(m, answers[step], f);
            && PowerCycle.Drive(m, answers[step..])
               == (if stop then (next, true) else PowerCycle.Drive(next, answers[step + 1..]))
            && DriveFault(m, answers[step..], f) == if stop then now else DriveFault(next, answers[step + 1..], now)
  {
    assert answers[step..][0] == answers[step] && answers[step..][1..] == answers[step + 1..];
  }

  /** When every participant is visited the order is complete. */
  lemma AllVisited(ps: seq<Participant>, marks: seq<nat>, order: seq<nat>)
    requires SearchOk(ps, marks, order) && CleanBelow(ps, marks, |ps|)
    ensures |order| == |ps|
  {
    Pigeonhole(order, |ps|);
    HoldsAll(order, |ps|);
  }

  lemma {:induction false} HoldsAll(s: seq<nat>, n: nat)
    requires forall k :: 0 <= k < n ==> k in s
    requires forall i, j :: 0 <= i < j < |s| ==> s[i] != s[j]
    ensures n <= |s|
    decreases n
  {
    if n > 0 {
      assert n - 1 in s;
      var i :| 0 <= i < |s| && s[i] == n - 1;
      var rest := s[..i] + s[i + 1..];
      forall k | 0 <= k < n - 1 ensures k in rest {
        assert k in s;
        var j :| 0 <= j < |s| && s[j] == k;
        assert rest[if j < i then j else j - 1] == k;
      }
      HoldsAll(rest, n - 1);
    }
  }

  lemma EnterShrinks(marks: seq<nat>, index: nat)
    requires index < |marks| && marks[index] == UNMARKED
    ensures |Unmarked(marks[index := VISITING])| < |Unmarked(marks)|
  {
    assert Unmarked(marks) == Unmarked(marks[index := VISITING]) + {index};
  }

  lemma RisesShrinks(before: seq<nat>, after: seq<nat>)
    requires Rises(before, after)
    ensures |Unmarked(after)| <= |Unmarked(before)|
  {
    assert Unmarked(after) <= Unmarked(before);
    var rest := Unmarked(before) - Unmarked(after);
    assert Unmarked(before) == Unmarked(after) + rest;
  }
}
