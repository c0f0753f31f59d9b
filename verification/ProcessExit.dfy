/** Which process an update of process/process.c ends: the one that asked to exit, or the child it launched. */
module ProcessExit {
  import opened ProcessRuns
  import opened ProcessSpec

  // ----- What an update does, read off its calls -----

  /** A call of the process in front, of identifier `id`, that asks for its end. */
  predicate Asks(act: Act, id: nat) {
    act.RequestExit? || (act.Fail? && act.cause != NoCause) || (act.ForceTerminate? && act.id == id)
  }

  predicate AsksIn(acts: seq<Act>, id: nat) {
    exists k :: 0 <= k < |acts| && Asks(acts[k], id)
  }

  /** A child is over at once when it is denied the console it wants, does not start, or asks to exit while
      it enters. */
  predicate OverAtOnce(app: Application, granted: bool, id: nat) {
    (app.console && !granted) || !app.started || AsksIn(app.entry, id)
  }

  /** What an update has come to: whether the process asked to exit, whether a child it launched stayed in
      front, whether it panicked as process 0, and the next identifier. */
  datatype Course = Course(asked: bool, stayed: bool, panicked: bool, next: nat)

  /** A process back in front without the console it wants is made to exit; process 0 panics instead. */
  function Back(id: nat, wants: bool, c: Course, regranted: bool): Course {
    var back := c.(next := c.next + 1);
    if !wants || regranted then back
    else if id == 0 then back.(asked := false, panicked := true)
    else back.(asked := true)
  }

  /** One step of the process `id`, which may want the console; `room` says that a child finds a slot. */
  function CourseStep(id: nat, wants: bool, room: bool, c: Course, step: Step): Course {
    if c.stayed then c
    else
      match step
      case Do(act) => c.(asked := c.asked || Asks(act, id))
      case Exec(app, granted, regranted) =>
        if !room || c.panicked then c
        else if OverAtOnce(app, granted, c.next) then Back(id, wants, c, regranted)
        else c.(stayed := true, next := c.next + 1)
  }

  function CourseOf(id: nat, wants: bool, room: bool, next: nat, steps: seq<Step>): Course {
    if steps == [] then Course(false, false, false, next)
    else CourseStep(id, wants, room, CourseOf(id, wants, room, next, steps[..|steps| - 1]), steps[|steps| - 1])
  }

  lemma CourseMore(id: nat, wants: bool, room: bool, next: nat, steps: seq<Step>, step: Step)
    ensures CourseOf(id, wants, room, next, steps + [step])
         == CourseStep(id, wants, room, CourseOf(id, wants, room, next, steps), step)
  {
    assert (steps + [step])[..|steps + [step]| - 1] == steps;
  }

  predicate Room(st: State)
    requires Shaped(st)
  {
    FreeSlot(st.slots, 0) != NOBODY && |st.stack| < CAPACITY
  }

  /** The course of an update; a process that panicked or asked before is not run. */
  function UpdateCourse(st: State, steps: seq<Step>): Course
    requires Shaped(st) && 0 <= st.foreground
  {
    var p := st.slots[st.foreground];
    if p.state == Running && !p.exitRequested then CourseOf(p.id, p.console, Room(st), st.nextId, steps)
    else Course(p.exitRequested, false, false, st.nextId)
  }

  // ----- Calls -----

  lemma AskStep(st: State, p: nat, act: Act)
    requires Shaped(st) && Sound(st) && p < CAPACITY && st.foreground == p
    ensures Perform(st, p, act).slots[p].exitRequested
         == (st.slots[p].exitRequested || Asks(act, st.slots[p].id))
  {
    if act.ForceTerminate? && Find(st.slots, act.id, 0) >= 0 && Find(st.slots, act.id, 0) != p {
      IdsDiffer(st, Find(st.slots, act.id, 0), p);
    }
  }

  /** Calls made by the process in front touch no other slot. */
  lemma {:induction false} OthersUntouched(st: State, p: nat, acts: seq<Act>, i: nat)
    requires Shaped(st) && p < CAPACITY && st.foreground == p && i < CAPACITY && i != p
    ensures PerformAll(st, p, acts).foreground == p && PerformAll(st, p, acts).slots[i] == st.slots[i]
    ensures PerformAll(st, p, acts).nextId == st.nextId
  {
    if acts != [] {
      OthersUntouched(st, p, acts[..|acts| - 1], i);
    }
  }

  lemma {:induction false} EntryAsks(st: State, p: nat, acts: seq<Act>)
    requires Shaped(st) && Inv(st) && p < CAPACITY && st.foreground == p
    ensures PerformAll(st, p, acts).slots[p].exitRequested
         == (st.slots[p].exitRequested || AsksIn(acts, st.slots[p].id))
  {
    if acts != [] {
      var front := acts[..|acts| - 1];
      EntryAsks(st, p, front);
      PerformAllKeeps(st, p, front);
      assert SamePlace(st.slots[p], PerformAll(st, p, front).slots[p]);
      AskStep(PerformAll(st, p, front), p, acts[|acts| - 1]);
      AsksMore(front, acts, st.slots[p].id);
    }
  }

  lemma AsksMore(front: seq<Act>, acts: seq<Act>, id: nat)
    requires acts != [] && front == acts[..|acts| - 1]
    ensures AsksIn(acts, id) == (AsksIn(front, id) || Asks(acts[|acts| - 1], id))
  {
    if AsksIn(front, id) {
      var k :| 0 <= k < |front| && Asks(front[k], id);
      assert Asks(acts[k], id);
    }
    if k :| 0 <= k < |acts| && Asks(acts[k], id) {
      assert k < |front| ==> Asks(front[k], id);
    }
  }

  // ----- Ending and launching -----

  /** `p` is the slot right below the one in front. */
  predicate ParentOf(st: State, p: nat)
    requires Shaped(st)
  {
    p < CAPACITY && |st.stack| > 1 && st.slots[p].occupied && st.slots[p].id == st.stack[|st.stack| - 2]
  }

  /** Ending the process in front gives its parent the status and puts it in front, with the console or not. */
  ghost predicate BackTo(st: State, c: nat, p: nat, granted: bool, now: State)
    requires Shaped(st) && c < CAPACITY && p < CAPACITY
  {
    var was := st.slots[p];
    && Shaped(now) && now.foreground == p && now.stack == Popped(st.stack) && now.nextId == st.nextId
    && !now.slots[c].occupied && now.slots[p].id == was.id && now.slots[p].console == was.console
    && now.slots[p].childStatusValid && now.slots[p].childStatus == st.slots[c].exitStatus
    && now.log == st.log + [Ended(st.slots[c].id, was.id, st.slots[c].exitStatus)]
    && (if Denied(was, granted)
        then now.slots[p].exitRequested == (was.id != 0)
             && now.slots[p].state == if was.id == 0 then Panicked else Running
        else now.slots[p].exitRequested == was.exitRequested && now.slots[p].state == Running)
  }

  lemma FinishReturns(st: State, c: nat, p: nat, granted: bool)
    requires Shaped(st) && Inv(st) && st.foreground == c && st.slots[c].id != 0 && ParentOf(st, p)
    ensures p != c && BackTo(st, c, p, granted, Finish(st, c, granted))
  {
    var f := Below(st);
    if f != p {
      IdsDiffer(st, f, p);
    }
    FinishIs(st, f, granted);
  }

  lemma PushedShape(st: State, c: nat, app: Application)
    requires Shaped(st) && Sound(st) && 0 <= st.foreground && c < CAPACITY && !st.slots[c].occupied
    ensures var up := Pushed(st, c, app);
            && up.foreground == c && up.stack == st.stack + [st.nextId]
            && up.slots[c] == NewProcess(st.nextId, st.slots[st.foreground].id, app)
            && up.slots[st.foreground] == st.slots[st.foreground].(state := Blocked, consoleOwned := false)
            && ParentOf(up, st.foreground)
  {
    var up := Pushed(st, c, app);
    assert up.stack[|up.stack| - 2] == st.stack[|st.stack| - 1];
  }

  lemma EnterRuns(st: State, c: nat, p: nat, app: Application, granted: bool)
    requires Shaped(st) && Inv(st) && st.foreground == c && st.slots[c].id != 0 && p != c && ParentOf(st, p)
    ensures var entered := PerformAll(Put(st, c, WithConsole(st.slots[c], granted)), c, app.entry);
            && Inv(entered) && entered.foreground == c && entered.slots[c].id == st.slots[c].id
            && ParentOf(entered, p) && entered.stack == st.stack && entered.slots[p] == st.slots[p]
            && entered.slots[c].occupied && entered.nextId == st.nextId
            && entered.slots[c].exitRequested == (st.slots[c].exitRequested || AsksIn(app.entry, st.slots[c].id))
  {
    var ready := Put(st, c, WithConsole(st.slots[c], granted));
    ConsoleKeeps(st, c, granted);
    PerformAllKeeps(ready, c, app.entry);
    OthersUntouched(ready, c, app.entry, p);
    EntryAsks(ready, c, app.entry);
    assert SamePlace(ready.slots[c], PerformAll(ready, c, app.entry).slots[c]);
  }

  /** What a launch leads to when the child is over at once. */
  ghost predicate CameBack(st: State, p: nat, regranted: bool, now: State)
    requires Shaped(st) && p < CAPACITY
  {
    && Shaped(now) && now.foreground == p && now.stack == st.stack && now.nextId == st.nextId + 1 && Room(now)
    && now.slots[p].id == st.slots[p].id && now.slots[p].console == st.slots[p].console
    && (if Denied(st.slots[p], regranted)
        then now.slots[p].exitRequested == (st.slots[p].id != 0)
             && now.slots[p].state == if st.slots[p].id == 0 then Panicked else Running
        else now.slots[p].exitRequested == st.slots[p].exitRequested && now.slots[p].state == Running)
  }

  /** And when it stays. */
  ghost predicate WentUp(st: State, p: nat, now: State)
    requires Shaped(st) && p < CAPACITY
  {
    && Shaped(now) && 0 <= now.foreground && now.foreground != p && now.slots[now.foreground].id == st.nextId != 0
    && now.stack == st.stack + [st.nextId] && now.nextId == st.nextId + 1 && ParentOf(now, p)
    && now.slots[p] == st.slots[p].(state := Blocked, consoleOwned := false)
  }

  lemma BackIsCameBack(st: State, up: State, c: nat, p: nat, regranted: bool, now: State)
    requires Shaped(st) && Shaped(up) && p < CAPACITY && c < CAPACITY && |st.stack| < CAPACITY
    requires BackTo(up, c, p, regranted, now) && up.stack == st.stack + [st.nextId] && up.nextId == st.nextId + 1
    requires up.slots[p] == st.slots[p].(state := Blocked, consoleOwned := false)
    ensures CameBack(st, p, regranted, now)
  {
    assert Popped(up.stack) == st.stack;
    FreeIsFound(now.slots, c);
  }

  lemma FreeIsFound(slots: seq<Process>, c: nat)
    requires c < |slots| && !slots[c].occupied
    ensures FreeSlot(slots, 0) != NOBODY
  {
  }

  lemma LaunchEither(st: State, p: nat, app: Application, granted: bool, regranted: bool)
    requires Shaped(st) && Inv(st) && p < CAPACITY && st.foreground == p && st.slots[p].state == Running && Room(st)
    ensures var now := LaunchChild(st, p, app, granted, regranted).0;
            if OverAtOnce(app, granted, st.nextId) then CameBack(st, p, regranted, now) else WentUp(st, p, now)
  {
    var c := FreeSlot(st.slots, 0);
    var up := Pushed(st, c, app);
    PushKeeps(st, c, app);
    PushedShape(st, c, app);
    if Denied(up.slots[c], granted) {
      var failed := Put(up, c, up.slots[c].(exitStatus := -1));
      StatusKeeps(up, c, -1);
      FinishReturns(failed, c, p, regranted);
      BackIsCameBack(st, failed, c, p, regranted, Finish(failed, c, regranted));
    } else {
      EnteredEither(st, up, c, p, app, granted, regranted);
    }
  }

  lemma EnteredEither(st: State, up: State, c: nat, p: nat, app: Application, granted: bool, regranted: bool)
    requires Shaped(st) && p < CAPACITY && c < CAPACITY && p != c && |st.stack| < CAPACITY
    requires Shaped(up) && Inv(up) && up.foreground == c && up.slots[c].id == st.nextId != 0 && ParentOf(up, p)
    requires up.stack == st.stack + [st.nextId] && up.nextId == st.nextId + 1 && !up.slots[c].exitRequested
    requires up.slots[p] == st.slots[p].(state := Blocked, consoleOwned := false)
    requires !Denied(up.slots[c], granted) && up.slots[c].console == app.console
    ensures var now := Enter(up, c, app, granted, regranted).0;
            if OverAtOnce(app, granted, st.nextId) then CameBack(st, p, regranted, now) else WentUp(st, p, now)
  {
    EnterRuns(up, c, p, app, granted);
    var entered := PerformAll(Put(up, c, WithConsole(up.slots[c], granted)), c, app.entry);
    if !app.started {
      var failed := Put(entered, c, entered.slots[c].(exitStatus := -1));
      StatusKeeps(entered, c, -1);
      FinishReturns(failed, c, p, regranted);
      BackIsCameBack(st, failed, c, p, regranted, Finish(failed, c, regranted));
    } else if entered.slots[c].exitRequested {
      FinishReturns(entered, c, p, regranted);
      BackIsCameBack(st, entered, c, p, regranted, Finish(entered, c, regranted));
    }
  }

  // ----- A whole update -----

  /** The state agrees with the course of the steps so far. */
  ghost predicate Tracks(st: State, p: nat, c: Course, now: State)
    requires Shaped(st) && p < CAPACITY
  {
    && Shaped(now) && Inv(now) && now.nextId == c.next
    && now.slots[p].id == st.slots[p].id && now.slots[p].console == st.slots[p].console
    && now.slots[p].exitRequested == c.asked
    && if c.stayed
       then 0 <= now.foreground && now.foreground != p && now.slots[now.foreground].id + 1 == c.next
            && now.slots[now.foreground].id != 0 && !c.panicked
            && now.stack == st.stack + [now.slots[now.foreground].id] && ParentOf(now, p)
       else now.foreground == p && now.stack == st.stack && Room(now) == Room(st)
            && now.slots[p].state == if c.panicked then Panicked else Running
  }

  lemma CallTracks(st: State, p: nat, c: Course, now: State, act: Act)
    requires Shaped(st) && p < CAPACITY && Tracks(st, p, c, now)
    ensures Tracks(st, p, CourseStep(st.slots[p].id, st.slots[p].console, Room(st), c, Do(act)), Perform(now, p, act))
  {
    PerformKeeps(now, p, act);
    PerformStays(now, p, act);
    if c.stayed {
      BlockedAsksNothing(now, p, act);
    } else {
      AskStep(now, p, act);
      SameRoom(now, Perform(now, p, act));
    }
  }

  lemma LaunchedTracks(st: State, p: nat, c: Course, now: State, app: Application, granted: bool, regranted: bool)
    requires Shaped(st) && p < CAPACITY && Tracks(st, p, c, now) && !c.stayed && Room(st) && !c.panicked
    ensures Tracks(st, p, CourseStep(st.slots[p].id, st.slots[p].console, Room(st), c, Exec(app, granted, regranted)),
                   LaunchChild(now, p, app, granted, regranted).0)
  {
    LaunchChildKeeps(now, p, app, granted, regranted);
    LaunchEither(now, p, app, granted, regranted);
  }

  lemma LaunchTracks(st: State, p: nat, c: Course, now: State, app: Application, granted: bool, regranted: bool)
    requires Shaped(st) && p < CAPACITY && Tracks(st, p, c, now)
    ensures Tracks(st, p, CourseStep(st.slots[p].id, st.slots[p].console, Room(st), c, Exec(app, granted, regranted)),
                   LaunchChild(now, p, app, granted, regranted).0)
  {
    if !c.stayed && Room(st) && !c.panicked {
      LaunchedTracks(st, p, c, now, app, granted, regranted);
    } else {
      assert LaunchChild(now, p, app, granted, regranted).0 == now;
    }
  }

  lemma StepTracks(st: State, p: nat, c: Course, now: State, step: Step)
    requires Shaped(st) && p < CAPACITY && Tracks(st, p, c, now)
    ensures Tracks(st, p, CourseStep(st.slots[p].id, st.slots[p].console, Room(st), c, step), RunStep(now, p, step))
  {
    match step
    case Do(act) => CallTracks(st, p, c, now, act);
    case Exec(app, granted, regranted) => LaunchTracks(st, p, c, now, app, granted, regranted);
  }

  lemma BlockedAsksNothing(st: State, p: nat, act: Act)
    requires Shaped(st) && p < CAPACITY && st.foreground != p
    ensures Perform(st, p, act).slots[p].exitRequested == st.slots[p].exitRequested
  {
  }

  lemma SameRoom(st: State, now: State)
    requires Shaped(st) && Shaped(now) && st.stack == now.stack
    requires forall i :: 0 <= i < CAPACITY ==> st.slots[i].occupied == now.slots[i].occupied
    ensures Room(st) == Room(now)
  {
  }

  lemma {:induction false} StepsTrack(st: State, p: nat, steps: seq<Step>)
    requires Shaped(st) && Inv(st) && p < CAPACITY && st.foreground == p
    requires st.slots[p].state == Running && !st.slots[p].exitRequested
    ensures Tracks(st, p, CourseOf(st.slots[p].id, st.slots[p].console, Room(st), st.nextId, steps),
                   RunSteps(st, p, steps))
  {
    if steps != [] {
      var front := steps[..|steps| - 1];
      StepsTrack(st, p, front);
      StepTracks(st, p, CourseOf(st.slots[p].id, st.slots[p].console, Room(st), st.nextId, front),
                 RunSteps(st, p, front), steps[|steps| - 1]);
    }
  }

  /** Who an update ends, for a course. */
  ghost predicate Outcome(st: State, c: Course, granted: bool, now: State)
    requires Shaped(st) && 0 <= st.foreground
  {
    var p := st.slots[st.foreground];
    && Shaped(now)
    && (p.id != 0 ==> (p.id !in now.stack <==> c.asked && !c.stayed))
    && (p.id == 0 ==>
          (now.slots[st.foreground].state == Panicked <==>
             p.state == Panicked || c.panicked || (c.asked && (!c.stayed || Denied(p, granted)))))
    && (!c.asked ==> now.stack == if c.stayed then st.stack + [c.next - 1] else st.stack)
    && (c.asked && !c.stayed && p.id != 0 ==> now.stack == Popped(st.stack))
    && (c.asked && c.stayed ==>
          && now.stack == st.stack && now.foreground == st.foreground && now.slots[now.foreground].childStatusValid
          && |now.log| > 0 && now.log[|now.log| - 1].Ended?
          && now.log[|now.log| - 1].child == c.next - 1 && now.log[|now.log| - 1].parent == p.id
          && (!Denied(p, granted) ==> now.slots[now.foreground].exitRequested))
  }

  /** It asked, and a child it launched is in front. */
  lemma ChildEnds(st: State, c: Course, ran: State, granted: bool)
    requires Shaped(st) && Inv(st) && 0 <= st.foreground && Tracks(st, st.foreground, c, ran)
    requires st.slots[st.foreground].state == Running && c.asked && c.stayed
    ensures Outcome(st, c, granted, Finish(ran, ran.foreground, granted))
  {
    TopIsLast(st);
    FinishReturns(ran, ran.foreground, st.foreground, granted);
    assert Popped(ran.stack) == st.stack;
  }

  /** It asked and is in front. */
  lemma ItselfEnds(st: State, c: Course, ran: State, granted: bool)
    requires Shaped(st) && Inv(st) && 0 <= st.foreground && Tracks(st, st.foreground, c, ran)
    requires st.slots[st.foreground].state == Running && c.asked && !c.stayed
    ensures Outcome(st, c, granted, if ran.slots[ran.foreground].id == 0 then Panic(ran, ran.foreground)
                                    else Finish(ran, ran.foreground, granted))
  {
    TopIsLast(st);
    if ran.slots[ran.foreground].id != 0 {
      var f := Below(ran);
      FinishIs(ran, f, granted);
    }
  }

  /** It did not ask. */
  lemma NobodyEnds(st: State, c: Course, ran: State, granted: bool)
    requires Shaped(st) && Inv(st) && 0 <= st.foreground && Tracks(st, st.foreground, c, ran)
    requires st.slots[st.foreground].state == Running && !c.asked
    ensures Outcome(st, c, granted, ran)
  {
    TopIsLast(st);
    if c.stayed {
      assert ran.stack[|st.stack| - 1] == st.slots[st.foreground].id;
      assert Placed(ran.slots[st.foreground], ran.stack, |ran.stack| - 2);
    }
  }

  lemma EndsAs(st: State, c: Course, ran: State, granted: bool)
    requires Shaped(st) && Inv(st) && 0 <= st.foreground && Tracks(st, st.foreground, c, ran)
    requires st.slots[st.foreground].state == Running
    ensures Outcome(st, c, granted,
                    if !ran.slots[st.foreground].exitRequested then ran
                    else if ran.slots[ran.foreground].id == 0 then Panic(ran, ran.foreground)
                    else Finish(ran, ran.foreground, granted))
  {
    if !c.asked {
      NobodyEnds(st, c, ran, granted);
    } else if c.stayed {
      ChildEnds(st, c, ran, granted);
    } else {
      ItselfEnds(st, c, ran, granted);
    }
  }

  /** The process in front is on the stack once, on top. */
  lemma TopIsLast(st: State)
    requires Shaped(st) && Sound(st) && 0 <= st.foreground
    ensures st.slots[st.foreground].id in st.stack && st.slots[st.foreground].id !in Popped(st.stack)
  {
    var n := |st.stack| - 1;
    assert st.stack[n] == st.slots[st.foreground].id;
    forall k | 0 <= k < n ensures Popped(st.stack)[k] != st.stack[n] {
      assert st.stack[k] < st.stack[n];
    }
  }

  /** In every reachable state an update ends the process that was updated exactly when it asked to exit and no
      child it launched stayed in front; if it asked and one stayed, that child is ended in its place.  Who asks
      and who stays is read off the steps.  (Process 0 panics in place of ending, and also when a child's end
      brings it back without the console it wants.) */
  lemma UpdateEnds(ops: seq<Op>, steps: seq<Step>, granted: bool)
    requires After(ops).foreground != NOBODY
    ensures var st := After(ops); Outcome(st, UpdateCourse(st, steps), granted, Update(st, steps, granted))
  {
    var st := After(ops);
    var p := st.foreground;
    RunKeeps(ops);
    if st.slots[p].state == Running && !st.slots[p].exitRequested {
      StepsTrack(st, p, steps);
      EndsAs(st, UpdateCourse(st, steps), RunSteps(st, p, steps), granted);
    } else if st.slots[p].state == Running {
      EndsAs(st, UpdateCourse(st, steps), st, granted);
    } else {
      var k :| 0 <= k < |st.stack| && st.stack[k] == st.slots[p].id;
      assert Placed(st.slots[p], st.stack, k);
    }
  }

  // ----- A child ended in place of its parent -----

  /** A process that asks nothing, starts, and wants no console. */
  const QUIET := Application(false, [], true)

  /** A root process is launched. */
  function Launched(): State {
    After([StartRoot(QUIET, false)])
  }

  lemma LaunchedIs()
    ensures var st := Launched();
            && Shaped(st) && st.foreground == 0 && st.slots[0] == NewProcess(0, NOBODY, QUIET) && st.nextId == 1
            && st.stack == [0] && Room(st)
  {
    assert [StartRoot(QUIET, false)][..0] == [];
    assert After([]) == START;
    assert !Launched().slots[1].occupied;
    assert PerformAll(START, 0, []) == START;
  }

  lemma ExitThenExecStays(status: int)
    ensures CourseOf(0, false, true, 1, [Do(RequestExit(status)), Exec(QUIET, false, false)])
         == Course(true, true, false, 2)
  {
    var first, second := Do(RequestExit(status)), Exec(QUIET, false, false);
    CourseMore(0, false, true, 1, [], first);
    CourseMore(0, false, true, 1, [first], second);
    assert [] + [first] == [first] && [first] + [second] == [first, second];
  }

  /** It asks to exit and launches a child that stays: the child is ended, its parent runs on with its request
      still to come. */
  lemma ExitThenExecEndsTheChild(status: int)
    ensures var now := Update(Launched(), [Do(RequestExit(status)), Exec(QUIET, false, false)], false);
            && now.stack == [0] && now.foreground == 0 && now.slots[0].state == Running && now.slots[0].exitRequested
            && now.slots[0].childStatusValid && |now.log| > 0
            && now.log[|now.log| - 1].Ended? && now.log[|now.log| - 1].child == 1
  {
    LaunchedIs();
    ExitThenExecStays(status);
    RunKeeps([StartRoot(QUIET, false)]);
    EndsInPlace([StartRoot(QUIET, false)], [Do(RequestExit(status)), Exec(QUIET, false, false)], 2);
  }

  lemma EndsInPlace(ops: seq<Op>, steps: seq<Step>, next: nat)
    requires var st := After(ops);
             && st.foreground == 0 && st.slots[0].id == 0 && !st.slots[0].console && st.stack == [0]
             && st.slots[0].state == Running && UpdateCourse(st, steps) == Course(true, true, false, next)
    ensures var now := Update(After(ops), steps, false);
            && now.stack == [0] && now.foreground == 0 && now.slots[0].state == Running && now.slots[0].exitRequested
            && now.slots[0].childStatusValid && |now.log| > 0
            && now.log[|now.log| - 1].Ended? && now.log[|now.log| - 1].child == next - 1
  {
    RunKeeps(ops);
    NextKeeps(After(ops), Tick(steps, false));
    UpdateEnds(ops, steps, false);
    var now := Update(After(ops), steps, false);
    assert Placed(now.slots[0], now.stack, 0);
  }
}
