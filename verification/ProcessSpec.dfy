/** The foreground process stack of process/process.c on values.  Applications are data: what their entry
    function and their updates call, and what they return. */
module ProcessSpec {
  const CAPACITY: nat := 16
  const NOBODY: int := -1

  datatype RunState = Running | Blocked | Panicked

  datatype Cause = NoCause | ExitRequest | Returned | Fault | Forced

  /** `parent` is NOBODY for process 0. */
  datatype Process = Process(
    occupied: bool, id: nat, parent: int, state: RunState, console: bool, exitRequested: bool, exitStatus: int,
    cause: Cause, consoleOwned: bool, childStatusValid: bool, childStatus: int)

  const EMPTY := Process(false, 0, 0, Running, false, false, 0, NoCause, false, false, 0)

  /** What an application may do from any of its callbacks. */
  datatype Act =
    | RequestExit(status: int)
    | Fail(cause: Cause, status: int)
    | ForceTerminate(id: nat, status: int)
    | TakeChildStatus
    | ReportDiagnostic(status: int)

  /** `console` is the capability; `entry` is what the entry function does before it returns `started`. */
  datatype Application = Application(console: bool, entry: seq<Act>, started: bool)

  /** `granted` and `regranted` say whether the console is given to the child and, if the child is over at
      once, back to its parent. */
  datatype Step = Do(act: Act) | Exec(app: Application, granted: bool, regranted: bool)

  datatype Result = Ok | BusyResult | StartFailed

  /** What happened to children: a child ended, or a status was taken. */
  datatype Event = Ended(child: nat, parent: nat, status: int) | Taken(taker: nat, status: int)

  /** `foreground` is a slot or NOBODY; `log` records the events since process 0 started. */
  datatype State = State(
    slots: seq<Process>, stack: seq<nat>, foreground: int, nextId: nat, lastExitValid: bool, lastExit: int,
    log: seq<Event>)

  predicate Shaped(st: State) {
    |st.slots| == CAPACITY && NOBODY <= st.foreground < CAPACITY
  }

  // ----- Slots -----

  /** find_process: the first slot holding `id` from `from` on, or NOBODY. */
  function Find(slots: seq<Process>, id: nat, from: nat): (r: int)
    requires from <= |slots|
    ensures r == NOBODY || (from <= r < |slots| && slots[r].occupied && slots[r].id == id)
    ensures r == NOBODY ==> forall i :: from <= i < |slots| ==> !(slots[i].occupied && slots[i].id == id)
    decreases |slots| - from
  {
    if from == |slots| then NOBODY
    else if slots[from].occupied && slots[from].id == id then from
    else Find(slots, id, from + 1)
  }

  /** free_process_slot: the first free slot, or NOBODY. */
  function FreeSlot(slots: seq<Process>, from: nat): (r: int)
    requires from <= |slots|
    ensures r == NOBODY || (from <= r < |slots| && !slots[r].occupied)
    ensures r == NOBODY ==> forall i :: from <= i < |slots| ==> slots[i].occupied
    decreases |slots| - from
  {
    if from == |slots| then NOBODY else if !slots[from].occupied then from else FreeSlot(slots, from + 1)
  }

  function Put(st: State, i: nat, p: Process): State
    requires Shaped(st) && i < CAPACITY
  {
    st.(slots := st.slots[i := p])
  }

  // ----- Calls of an application -----

  function FailWith(st: State, p: nat, cause: Cause, status: int): (r: State)
    requires Shaped(st) && p < CAPACITY
    ensures Shaped(r)
  {
    if st.foreground != p || cause == NoCause then st
    else Put(st, p, st.slots[p].(cause := cause, exitRequested := true, exitStatus := status))
  }

  /** One call made with the context of slot `p`. */
  function Perform(st: State, p: nat, act: Act): (r: State)
    requires Shaped(st) && p < CAPACITY
    ensures Shaped(r)
  {
    match act
    case RequestExit(status) =>
      if st.foreground != p then st
      else
        var cause := if st.slots[p].cause == NoCause then ExitRequest else st.slots[p].cause;
        Put(st, p, st.slots[p].(cause := cause, exitRequested := true, exitStatus := status))
    case Fail(cause, status) => FailWith(st, p, cause, status)
    case ForceTerminate(id, status) =>
      var target := Find(st.slots, id, 0);
      if target == NOBODY || target != st.foreground then st else FailWith(st, target, Forced, status)
    case TakeChildStatus =>
      if !st.slots[p].childStatusValid then st
      else
        Put(st, p, st.slots[p].(childStatusValid := false))
        .(log := st.log + [Taken(st.slots[p].id, st.slots[p].childStatus)])
    case ReportDiagnostic(status) =>
      if st.foreground != p then st else st.(lastExit := status, lastExitValid := true)
  }

  function PerformAll(st: State, p: nat, acts: seq<Act>): (r: State)
    requires Shaped(st) && p < CAPACITY
    ensures Shaped(r)
  {
    if acts == [] then st else Perform(PerformAll(st, p, acts[..|acts| - 1]), p, acts[|acts| - 1])
  }

  // ----- Ending processes -----

  function Panic(st: State, p: nat): (r: State)
    requires Shaped(st) && p < CAPACITY
    ensures Shaped(r)
  {
    Put(st, p, st.slots[p].(state := Panicked, exitRequested := false))
    .(lastExit := st.slots[p].exitStatus, lastExitValid := true)
  }

  /** Give a process the console when it wants it. */
  function WithConsole(p: Process, granted: bool): Process {
    if p.console && granted then p.(consoleOwned := true) else p
  }

  predicate Denied(p: Process, granted: bool) {
    p.console && !granted
  }

  function Popped(stack: seq<nat>): seq<nat> {
    if stack == [] then [] else stack[..|stack| - 1]
  }

  /** The parent's side of a child's end: it runs again with the child's status and, if it can, the console. */
  function Resume(st: State, f: nat, status: int, granted: bool): (r: State)
    requires Shaped(st) && f < CAPACITY
    ensures Shaped(r)
  {
    var p := st.slots[f].(state := Running, childStatus := status, childStatusValid := true);
    if !Denied(p, granted) then Put(st, f, WithConsole(p, granted))
    else if p.id == 0 then Panic(Put(st, f, p.(exitStatus := -1)), f)
    else Put(st, f, p.(exitStatus := -1, exitRequested := true))
  }

  /** finish_child_process for slot `c`. */
  function Finish(st: State, c: nat, granted: bool): (r: State)
    requires Shaped(st) && c < CAPACITY
    ensures Shaped(r)
  {
    var status := st.slots[c].exitStatus;
    var stack := Popped(st.stack);
    var slots := st.slots[c := EMPTY];
    var f := if stack == [] then NOBODY else Find(slots, stack[|stack| - 1], 0);
    var left := st.(slots := slots, stack := stack, foreground := f, lastExit := status, lastExitValid := true);
    if f == NOBODY then left
    else
      Resume(left.(log := st.log + [Ended(st.slots[c].id, slots[f].id, status)]), f, status, granted)
  }

  // ----- Launching -----

  function NewProcess(id: nat, parent: int, app: Application): Process {
    Process(true, id, parent, Running, app.console, false, 0, NoCause, false, false, 0)
  }

  function LaunchRoot(st: State, app: Application, granted: bool): (r: (State, Result))
    requires Shaped(st)
    ensures Shaped(r.0)
  {
    var slot := FreeSlot(st.slots, 0);
    if st.foreground != NOBODY then (st, BusyResult)
    else if slot == NOBODY then (st, StartFailed)
    else
      var process := NewProcess(0, NOBODY, app);
      if Denied(process, granted) then (Put(st, slot, EMPTY).(nextId := 1), StartFailed)
      else
        var up := Put(st, slot, WithConsole(process, granted))
                  .(nextId := 1, stack := [0], foreground := slot, lastExitValid := false, log := []);
        var entered := PerformAll(up, slot, app.entry);
        if !app.started then
          (Put(entered, slot, EMPTY).(stack := [], foreground := NOBODY, lastExit := -1, lastExitValid := true),
           StartFailed)
        else (if entered.slots[slot].exitRequested then Panic(entered, slot) else entered, Ok)
  }

  /** The child's slot filled, its parent blocked without the console, and the child in the foreground. */
  function Pushed(st: State, c: nat, app: Application): (r: State)
    requires Shaped(st) && 0 <= st.foreground && c < CAPACITY
    ensures Shaped(r)
  {
    var parent := st.slots[st.foreground];
    var child := NewProcess(st.nextId, parent.id, app);
    st.(slots := st.slots[c := child][st.foreground := parent.(state := Blocked, consoleOwned := false)],
        stack := st.stack + [st.nextId], foreground := c, nextId := st.nextId + 1)
  }

  /** The child in slot `c` of the foreground enters; it is over at once when that fails or it asks to exit. */
  function Enter(st: State, c: nat, app: Application, granted: bool, regranted: bool): (r: (State, Result))
    requires Shaped(st) && c < CAPACITY
    ensures Shaped(r.0)
  {
    if Denied(st.slots[c], granted) then (Finish(Put(st, c, st.slots[c].(exitStatus := -1)), c, regranted), StartFailed)
    else
      var entered := PerformAll(Put(st, c, WithConsole(st.slots[c], granted)), c, app.entry);
      if !app.started then
        (Finish(Put(entered, c, entered.slots[c].(exitStatus := -1)), c, regranted), StartFailed)
      else (if entered.slots[c].exitRequested then Finish(entered, c, regranted) else entered, Ok)
  }

  function LaunchChild(st: State, p: nat, app: Application, granted: bool, regranted: bool): (r: (State, Result))
    requires Shaped(st) && p < CAPACITY
    ensures Shaped(r.0)
  {
    var c := FreeSlot(st.slots, 0);
    if st.foreground != p || st.slots[p].state != Running then (st, BusyResult)
    else if c == NOBODY || |st.stack| >= CAPACITY then (st, StartFailed)
    else Enter(Pushed(st, c, app), c, app, granted, regranted)
  }

  // ----- The update loop -----

  function RunStep(st: State, p: nat, step: Step): (r: State)
    requires Shaped(st) && p < CAPACITY
    ensures Shaped(r)
  {
    match step
    case Do(act) => Perform(st, p, act)
    case Exec(app, granted, regranted) => LaunchChild(st, p, app, granted, regranted).0
  }

  function RunSteps(st: State, p: nat, steps: seq<Step>): (r: State)
    requires Shaped(st) && p < CAPACITY
    ensures Shaped(r)
  {
    if steps == [] then st else RunStep(RunSteps(st, p, steps[..|steps| - 1]), p, steps[|steps| - 1])
  }

  /** kernel_application_system_update: `steps` is what the foreground application's update does.  The exit
      flag is looked up in the process that was updated, the process to end is the one then in front. */
  function Update(st: State, steps: seq<Step>, granted: bool): (r: State)
    requires Shaped(st)
    ensures Shaped(r)
  {
    if st.foreground == NOBODY then st
    else
      var p := st.foreground;
      var ran :=
        if st.slots[p].state == Running && !st.slots[p].exitRequested then RunSteps(st, p, steps) else st;
      if !ran.slots[p].exitRequested || ran.foreground == NOBODY then ran
      else if ran.slots[ran.foreground].id == 0 then Panic(ran, ran.foreground)
      else Finish(ran, ran.foreground, granted)
  }

  /** The exit status left behind by destroying the occupied slots below `n` from the highest down. */
  function LastDestroyed(st: State, n: nat): (r: (bool, int))
    requires Shaped(st) && n <= CAPACITY
    decreases CAPACITY - n
  {
    if n == CAPACITY then (st.lastExitValid, st.lastExit)
    else if st.slots[n].occupied then (true, st.slots[n].exitStatus)
    else LastDestroyed(st, n + 1)
  }

  function NoProcesses(n: nat): (r: seq<Process>)
    ensures |r| == n && forall i :: 0 <= i < n ==> r[i] == EMPTY
  {
    if n == 0 then [] else NoProcesses(n - 1) + [EMPTY]
  }

  function Shutdown(st: State): (r: State)
    requires Shaped(st)
    ensures Shaped(r)
  {
    var last := LastDestroyed(st, 0);
    st.(slots := NoProcesses(CAPACITY), stack := [], foreground := NOBODY, lastExitValid := last.0, lastExit := last.1)
  }

  datatype Op =
    | StartRoot(app: Application, granted: bool)
    | Tick(steps: seq<Step>, granted: bool)
    | Call(slot: nat, act: Act)
    | ShutDown

  function Next(st: State, op: Op): (r: State)
    requires Shaped(st)
    ensures Shaped(r)
  {
    match op
    case StartRoot(app, granted) => LaunchRoot(st, app, granted).0
    case Tick(steps, granted) => Update(st, steps, granted)
    case Call(slot, act) => if slot < CAPACITY then Perform(st, slot, act) else st
    case ShutDown => Shutdown(st)
  }

  const START := State(NoProcesses(CAPACITY), [], NOBODY, 0, false, 0, [])

  function After(ops: seq<Op>): (st: State)
    ensures Shaped(st)
  {
    if ops == [] then START else Next(After(ops[..|ops| - 1]), ops[|ops| - 1])
  }
}
