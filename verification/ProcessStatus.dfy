/** Which status a process of process/process.c leaves behind, and what a launch answers. */
module ProcessStatus {
  import opened ProcessExit
  import opened ProcessRuns
  import opened ProcessSpec

  // ----- The status a process leaves -----

  /** The status of the last call that asks for the end of the process `id`. */
  function StatusOf(acts: seq<Act>, id: nat, was: int): int {
    if acts == [] then was
    else
      var act := acts[|acts| - 1];
      if Asks(act, id) then act.status else StatusOf(acts[..|acts| - 1], id, was)
  }

  /** Why it ends: a request keeps the cause of an earlier failure, a failure or a termination replaces it. */
  function CauseOf(acts: seq<Act>, id: nat, was: Cause): Cause {
    if acts == [] then was
    else
      var act, before := acts[|acts| - 1], CauseOf(acts[..|acts| - 1], id, was);
      if !Asks(act, id) then before
      else if act.Fail? then act.cause
      else if act.ForceTerminate? then Forced
      else if before == NoCause then ExitRequest else before
  }

  lemma OneCall(st: State, p: nat, act: Act)
    requires Shaped(st) && Inv(st) && p < CAPACITY && st.foreground == p
    ensures var was, q := st.slots[p], Perform(st, p, act).slots[p];
            && q.id == was.id && q.exitStatus == StatusOf([act], was.id, was.exitStatus)
            && q.cause == CauseOf([act], was.id, was.cause)
  {
    assert [act][..0] == [];
    if act.ForceTerminate? && Find(st.slots, act.id, 0) >= 0 && Find(st.slots, act.id, 0) != p {
      IdsDiffer(st, Find(st.slots, act.id, 0), p);
    }
  }

  lemma StatusMore(acts: seq<Act>, id: nat, status: int, cause: Cause)
    requires acts != []
    ensures var front, last := acts[..|acts| - 1], [acts[|acts| - 1]];
            && StatusOf(acts, id, status) == StatusOf(last, id, StatusOf(front, id, status))
            && CauseOf(acts, id, cause) == CauseOf(last, id, CauseOf(front, id, cause))
  {
    assert [acts[|acts| - 1]][..0] == [];
  }

  /** The calls of a process in front leave it with the status of the last that asked for its end, and the cause. */
  lemma {:induction false} CallsLeave(st: State, p: nat, acts: seq<Act>)
    requires Shaped(st) && Inv(st) && p < CAPACITY && st.foreground == p
    ensures var was, q := st.slots[p], PerformAll(st, p, acts).slots[p];
            && q.id == was.id && q.exitStatus == StatusOf(acts, was.id, was.exitStatus)
            && q.cause == CauseOf(acts, was.id, was.cause)
  {
    if acts != [] {
      var front := acts[..|acts| - 1];
      CallsLeave(st, p, front);
      PerformAllKeeps(st, p, front);
      OneCall(PerformAll(st, p, front), p, acts[|acts| - 1]);
      StatusMore(acts, st.slots[p].id, st.slots[p].exitStatus, st.slots[p].cause);
    }
  }

  /** An update that only makes calls. */
  function Calls(acts: seq<Act>): seq<Step> {
    seq(|acts|, i requires 0 <= i < |acts| => Do(acts[i]))
  }

  lemma {:induction false} CallsPerform(st: State, p: nat, acts: seq<Act>)
    requires Shaped(st) && p < CAPACITY
    ensures RunSteps(st, p, Calls(acts)) == PerformAll(st, p, acts)
    decreases |acts|
  {
    if acts != [] {
      var front := acts[..|acts| - 1];
      CallsPerform(st, p, front);
      assert Calls(acts)[..|acts| - 1] == Calls(front);
    }
  }

  /** A child ended: its parent is in front with the status, and the log tells it last. */
  ghost predicate Reports(now: State, child: nat, parent: nat, p: nat, status: int)
    requires Shaped(now) && p < CAPACITY
  {
    && now.foreground == p && now.slots[p].id == parent
    && now.slots[p].childStatusValid && now.slots[p].childStatus == status
    && now.log != [] && now.log[|now.log| - 1] == Ended(child, parent, status)
  }

  /** A child whose calls ask for its end leaves its parent the status of the last call that asked. */
  lemma ChildReports(st: State, p: nat, acts: seq<Act>, granted: bool)
    requires Shaped(st) && Inv(st) && 0 <= st.foreground && ParentOf(st, p)
    requires var c := st.slots[st.foreground];
             c.id != 0 && c.state == Running && !c.exitRequested && AsksIn(acts, c.id)
    ensures var c := st.slots[st.foreground];
            Reports(Update(st, Calls(acts), granted), c.id, st.slots[p].id, p, StatusOf(acts, c.id, c.exitStatus))
  {
    var f := st.foreground;
    var ran := PerformAll(st, f, acts);
    CallsPerform(st, f, acts);
    PerformAllKeeps(st, f, acts);
    EntryAsks(st, f, acts);
    CallsLeave(st, f, acts);
    NotTheFront(st, p);
    OthersUntouched(st, f, acts, p);
    assert SamePlace(st.slots[f], ran.slots[f]);
    FinishReturns(ran, f, p, granted);
  }

  lemma NotTheFront(st: State, p: nat)
    requires Shaped(st) && Inv(st) && 0 <= st.foreground && ParentOf(st, p)
    ensures p != st.foreground
  {
    assert st.stack[|st.stack| - 2] < st.stack[|st.stack| - 1];
  }

  /** Process 0 panics with the status of its last call that asked. */
  lemma RootPanics(st: State, acts: seq<Act>, granted: bool)
    requires Shaped(st) && Inv(st) && 0 <= st.foreground
    requires var r := st.slots[st.foreground]; r.id == 0 && r.state == Running && !r.exitRequested && AsksIn(acts, 0)
    ensures var r, now := st.slots[st.foreground], Update(st, Calls(acts), granted);
            && now.foreground == st.foreground && now.slots[st.foreground].state == Panicked
            && now.slots[st.foreground].cause == CauseOf(acts, 0, r.cause)
            && now.lastExitValid && now.lastExit == StatusOf(acts, 0, r.exitStatus)
  {
    CallsPerform(st, st.foreground, acts);
    PerformAllKeeps(st, st.foreground, acts);
    EntryAsks(st, st.foreground, acts);
    CallsLeave(st, st.foreground, acts);
  }

  // ----- What a launch answers -----

  /** All 16 slots are taken, or as many processes are stacked. */
  ghost predicate Full(st: State)
    requires Shaped(st)
  {
    (forall i :: 0 <= i < 16 ==> st.slots[i].occupied) || |st.stack| >= 16
  }

  lemma FullIs(st: State)
    requires Shaped(st)
    ensures Full(st) <==> !Room(st)
  {
    if FreeSlot(st.slots, 0) != NOBODY {
      assert !st.slots[FreeSlot(st.slots, 0)].occupied;
    }
  }

  lemma LaunchAnswers(st: State, p: nat, app: Application, granted: bool, regranted: bool)
    requires Shaped(st) && Inv(st) && p < CAPACITY
    ensures LaunchChild(st, p, app, granted, regranted).1
         == if st.foreground != p || st.slots[p].state != Running then BusyResult
            else if Full(st) || (app.console && !granted) || !app.started then StartFailed else Ok
  {
    FullIs(st);
  }

  /** The status of a child that is over at once: -1 when it is denied the console or does not start. */
  function FirstStatus(app: Application, granted: bool, id: nat): int {
    if (app.console && !granted) || !app.started then -1 else StatusOf(app.entry, id, 0)
  }

  lemma FailedReports(st: State, c: nat, p: nat, regranted: bool)
    requires Shaped(st) && Inv(st) && st.foreground == c && st.slots[c].id != 0 && ParentOf(st, p)
    ensures var now := Finish(Put(st, c, st.slots[c].(exitStatus := -1)), c, regranted);
            Reports(now, st.slots[c].id, st.slots[p].id, p, -1)
  {
    NotTheFront(st, p);
    StatusKeeps(st, c, -1);
    FinishReturns(Put(st, c, st.slots[c].(exitStatus := -1)), c, p, regranted);
  }

  lemma EndedReports(st: State, c: nat, p: nat, regranted: bool)
    requires Shaped(st) && Inv(st) && st.foreground == c && st.slots[c].id != 0 && ParentOf(st, p)
    ensures Reports(Finish(st, c, regranted), st.slots[c].id, st.slots[p].id, p, st.slots[c].exitStatus)
  {
    FinishReturns(st, c, p, regranted);
  }

  lemma EnteredReports(up: State, c: nat, p: nat, app: Application, granted: bool, regranted: bool)
    requires Shaped(up) && Inv(up) && up.foreground == c && up.slots[c].id != 0 && ParentOf(up, p) && p != c
    requires !up.slots[c].exitRequested && up.slots[c].exitStatus == 0 && up.slots[c].console == app.console
    requires OverAtOnce(app, granted, up.slots[c].id)
    ensures Reports(Enter(up, c, app, granted, regranted).0, up.slots[c].id, up.slots[p].id, p,
                    FirstStatus(app, granted, up.slots[c].id))
  {
    if Denied(up.slots[c], granted) {
      FailedReports(up, c, p, regranted);
    } else {
      var ready := Put(up, c, WithConsole(up.slots[c], granted));
      EnterRuns(up, c, p, app, granted);
      ConsoleKeeps(up, c, granted);
      CallsLeave(ready, c, app.entry);
      if app.started {
        EndedReports(PerformAll(ready, c, app.entry), c, p, regranted);
      } else {
        FailedReports(PerformAll(ready, c, app.entry), c, p, regranted);
      }
    }
  }

  /** A child that is over at once leaves its status like any other. */
  lemma LaunchReports(st: State, p: nat, app: Application, granted: bool, regranted: bool)
    requires Shaped(st) && Inv(st) && p < CAPACITY && st.foreground == p && st.slots[p].state == Running && !Full(st)
    requires OverAtOnce(app, granted, st.nextId)
    ensures Reports(LaunchChild(st, p, app, granted, regranted).0, st.nextId, st.slots[p].id, p,
                    FirstStatus(app, granted, st.nextId))
  {
    FullIs(st);
    var c := FreeSlot(st.slots, 0);
    PushKeeps(st, c, app);
    PushedShape(st, c, app);
    EnteredReports(Pushed(st, c, app), c, p, app, granted, regranted);
  }

  lemma {:induction false} RootCalls(st: State, p: nat, acts: seq<Act>)
    requires Shaped(st) && p < CAPACITY && st.foreground == p
    ensures var now := PerformAll(st, p, acts);
            now.foreground == p && now.stack == st.stack && now.nextId == st.nextId
            && forall i :: 0 <= i < CAPACITY && i != p ==> now.slots[i] == st.slots[i]
  {
    if acts != [] {
      RootCalls(st, p, acts[..|acts| - 1]);
      PerformStays(PerformAll(st, p, acts[..|acts| - 1]), p, acts[|acts| - 1]);
    }
  }

  /** The state with process 0 in its slot, before its entry. */
  function RootBegun(st: State, slot: nat, app: Application, granted: bool): (r: State)
    requires Shaped(st) && slot < CAPACITY
    ensures Shaped(r) && r.foreground == slot
  {
    Put(st, slot, WithConsole(NewProcess(0, NOBODY, app), granted))
    .(nextId := 1, stack := [0], foreground := slot, lastExitValid := false, log := [])
  }

  /** Process 0 starts when nobody is in front, the console is there if it wants it, and its entry says so; when its
      entry does not, nothing is left of it and the status is -1. */
  lemma RootAnswers(st: State, app: Application, granted: bool)
    requires Shaped(st) && Inv(st)
    ensures var n := LaunchRoot(st, app, granted);
            && n.1 == (if st.foreground != NOBODY then BusyResult
                       else if (app.console && !granted) || !app.started then StartFailed else Ok)
            && (n.1 == BusyResult ==> n.0 == st)
            && (n.1 == StartFailed ==> n.0.foreground == NOBODY && n.0.stack == [] && n.0.slots == st.slots)
            && (n.1 == StartFailed && (!app.console || granted) ==> n.0.lastExitValid && n.0.lastExit == -1)
            && (n.1 == Ok ==> n.0.foreground == 0 && n.0.stack == [0] && n.0.nextId == 1)
  {
    if st.foreground == NOBODY {
      assert FreeSlot(st.slots, 0) == 0 && st.slots[0] == EMPTY;
      RootCalls(RootBegun(st, 0, app, granted), 0, app.entry);
      var entered := PerformAll(RootBegun(st, 0, app, granted), 0, app.entry);
      assert entered.slots[0 := EMPTY] == st.slots;
      assert st.slots[0 := EMPTY] == st.slots;
    }
  }

  // ----- Who has the console -----

  lemma {:induction false} CallsLeaveConsole(st: State, p: nat, acts: seq<Act>, i: nat)
    requires Shaped(st) && p < CAPACITY && i < CAPACITY
    ensures var was, q := st.slots[i], PerformAll(st, p, acts).slots[i];
            q.console == was.console && q.consoleOwned == was.consoleOwned && q.state == was.state
    decreases |acts|
  {
    if |acts| > 0 {
      CallsLeaveConsole(st, p, acts[..|acts| - 1], i);
      PerformStays(PerformAll(st, p, acts[..|acts| - 1]), p, acts[|acts| - 1]);
    }
  }

  /** A child that stays has the console exactly when it wants it, and the process that launched it no longer. */
  lemma ConsoleGoesUp(st: State, p: nat, app: Application, granted: bool, regranted: bool)
    requires Shaped(st) && Inv(st) && p < CAPACITY && st.foreground == p && st.slots[p].state == Running && !Full(st)
    requires !OverAtOnce(app, granted, st.nextId)
    ensures var now := LaunchChild(st, p, app, granted, regranted).0;
            && 0 <= now.foreground && now.foreground != p
            && now.slots[now.foreground].consoleOwned == app.console && !now.slots[p].consoleOwned
  {
    FullIs(st);
    LaunchEither(st, p, app, granted, regranted);
    var c := FreeSlot(st.slots, 0);
    PushKeeps(st, c, app);
    PushedShape(st, c, app);
    var up := Pushed(st, c, app);
    EnterRuns(up, c, p, app, granted);
    CallsLeaveConsole(Put(up, c, WithConsole(up.slots[c], granted)), c, app.entry, c);
  }

  /** A process whose child ended has it again exactly when it wants it and is given it; without it a process other than
      process 0 is made to exit with -1, and process 0 panics with -1. */
  lemma ConsoleComesBack(st: State, p: nat, granted: bool)
    requires Shaped(st) && Inv(st) && 0 <= st.foreground && st.slots[st.foreground].id != 0 && ParentOf(st, p)
    ensures var was, now := st.slots[p], Finish(st, st.foreground, granted);
            && now.slots[p].consoleOwned == (was.console && granted)
            && (was.console && !granted ==>
                  && now.slots[p].exitStatus == -1
                  && (if was.id == 0 then now.slots[p].state == Panicked && now.lastExitValid && now.lastExit == -1
                      else now.slots[p].exitRequested))
            && (!was.console || granted ==>
                  now.lastExitValid && now.lastExit == st.slots[st.foreground].exitStatus)
  {
    NotTheFront(st, p);
    BehindHasNone(st, p);
    var f := Below(st);
    if f != p {
      IdsDiffer(st, f, p);
    }
    FinishIs(st, f, granted);
  }

  lemma BehindHasNone(st: State, p: nat)
    requires Shaped(st) && Inv(st) && 0 <= st.foreground && ParentOf(st, p)
    ensures !st.slots[p].consoleOwned
  {
    assert Placed(st.slots[p], st.stack, |st.stack| - 2);
  }
}
