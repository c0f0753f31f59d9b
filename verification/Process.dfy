/** The process table of process/process.c, updated in place. */
module ProcessTable {
  import opened ProcessSpec
  import opened ProcessRuns

  class ProcessManager {
    const slots: array<Process>
    const foregroundStack: array<nat>
    var depth: nat
    var foreground: int
    var nextId: nat
    var lastExitValid: bool
    var lastExit: int
    ghost var log: seq<Event>

    ghost predicate Valid()
      reads this
    {
      && slots.Length == CAPACITY && foregroundStack.Length == CAPACITY && depth <= CAPACITY
      && NOBODY <= foreground < CAPACITY
    }

    ghost function Snapshot(): (st: State)
      requires Valid()
      reads this, slots, foregroundStack
      ensures Shaped(st)
    {
      State(slots[..], foregroundStack[..depth], foreground, nextId, lastExitValid, lastExit, log)
    }

    constructor ()
      ensures Valid() && fresh(slots) && fresh(foregroundStack) && Snapshot() == START
    {
      slots := new Process[CAPACITY](_ => EMPTY);
      foregroundStack := new nat[CAPACITY];
      depth, foreground, nextId, lastExitValid, lastExit, log := 0, NOBODY, 0, false, 0, [];
      new;
      assert slots[..] == NoProcesses(CAPACITY);
    }

    method FindProcess(id: nat) returns (slot: int)
      requires Valid()
      ensures slot == Find(slots[..], id, 0)
    {
      slot := 0;
      while slot < CAPACITY && !(slots[slot].occupied && slots[slot].id == id)
        invariant 0 <= slot <= CAPACITY && Find(slots[..], id, slot) == Find(slots[..], id, 0)
      {
        slot := slot + 1;
      }
      if slot == CAPACITY {
        slot := NOBODY;
      }
    }

    method FreeProcessSlot() returns (slot: int)
      requires Valid()
      ensures slot == FreeSlot(slots[..], 0)
    {
      slot := 0;
      while slot < CAPACITY && slots[slot].occupied
        invariant 0 <= slot <= CAPACITY && FreeSlot(slots[..], slot) == FreeSlot(slots[..], 0)
      {
        slot := slot + 1;
      }
      if slot == CAPACITY {
        slot := NOBODY;
      }
    }

    method FailProcess(p: nat, cause: Cause, status: int)
      requires Valid() && p < CAPACITY
      modifies slots
      ensures Snapshot() == FailWith(old(Snapshot()), p, cause, status)
    {
      if foreground != p || cause == NoCause {
        return;
      }
      slots[p] := slots[p].(cause := cause, exitRequested := true, exitStatus := status);
    }

    /** tabos_app_request_exit. */
    method AskExit(p: nat, status: int)
      requires Valid() && p < CAPACITY
      modifies slots
      ensures Snapshot() == Perform(old(Snapshot()), p, RequestExit(status))
    {
      if foreground != p {
        return;
      }
      if slots[p].cause == NoCause {
        slots[p] := slots[p].(cause := ExitRequest);
      }
      slots[p] := slots[p].(exitRequested := true, exitStatus := status);
    }

    method Force(id: nat, status: int) returns (ok: bool)
      requires Valid()
      modifies slots
      ensures forall p: nat :: p < CAPACITY ==> Snapshot() == Perform(old(Snapshot()), p, ForceTerminate(id, status))
      ensures ok == (old(foreground) != NOBODY && Find(old(slots[..]), id, 0) == old(foreground))
    {
      var target := FindProcess(id);
      if target == NOBODY || target != foreground {
        return false;
      }
      FailProcess(target, Forced, status);
      return true;
    }

    /** tabos_app_take_child_status: a status is there for one taking. */
    method TakeStatus(p: nat) returns (taken: bool, status: int)
      requires Valid() && p < CAPACITY
      modifies this`log, slots
      ensures Valid() && Snapshot() == Perform(old(Snapshot()), p, TakeChildStatus)
      ensures taken == old(slots[p].childStatusValid) && (taken ==> status == old(slots[p].childStatus))
      ensures !slots[p].childStatusValid
    {
      if !slots[p].childStatusValid {
        return false, 0;
      }
      status := slots[p].childStatus;
      slots[p] := slots[p].(childStatusValid := false);
      log := log + [Taken(slots[p].id, status)];
      taken := true;
    }

    method Invoke(p: nat, act: Act)
      requires Valid() && p < CAPACITY
      modifies this, slots
      ensures Valid() && Snapshot() == Perform(old(Snapshot()), p, act)
    {
      match act {
        case RequestExit(status) => AskExit(p, status);
        case Fail(cause, status) => FailProcess(p, cause, status);
        case ForceTerminate(id, status) => var ok := Force(id, status);
        case TakeChildStatus => var taken, status := TakeStatus(p);
        case ReportDiagnostic(status) =>
          if foreground == p {
            lastExit := status;
            lastExitValid := true;
          }
      }
    }

    /** An entry function at work. */
    method InvokeAll(p: nat, acts: seq<Act>)
      requires Valid() && p < CAPACITY
      modifies this, slots
      ensures Valid() && Snapshot() == PerformAll(old(Snapshot()), p, acts)
    {
      for i := 0 to |acts|
        invariant Valid() && Snapshot() == PerformAll(old(Snapshot()), p, acts[..i])
      {
        Invoke(p, acts[i]);
        assert acts[..i + 1][..i] == acts[..i];
      }
      assert acts[..|acts|] == acts;
    }

    method PanicRoot(p: nat)
      requires Valid() && p < CAPACITY
      modifies this`lastExit, this`lastExitValid, slots
      ensures Valid() && Snapshot() == Panic(old(Snapshot()), p)
    {
      slots[p] := slots[p].(state := Panicked, exitRequested := false);
      lastExit := slots[p].exitStatus;
      lastExitValid := true;
    }

    /** acquire_process_console. */
    method AcquireConsole(p: nat, granted: bool) returns (ok: bool)
      requires Valid() && p < CAPACITY
      modifies slots
      ensures ok == !Denied(old(slots[p]), granted)
      ensures slots[..] == old(slots[..])[p := WithConsole(old(slots[p]), granted)]
    {
      ghost var before := slots[..];
      if !slots[p].console {
        assert slots[..] == before[p := before[p]];
        return true;
      }
      if !granted {
        assert slots[..] == before[p := before[p]];
        return false;
      }
      slots[p] := slots[p].(consoleOwned := true);
      return true;
    }

    method ResumeParent(f: nat, status: int, granted: bool)
      requires Valid() && f < CAPACITY
      modifies this, slots
      ensures Valid() && Snapshot() == Resume(old(Snapshot()), f, status, granted)
    {
      ghost var before := slots[..];
      slots[f] := slots[f].(state := Running, childStatus := status, childStatusValid := true);
      ghost var p := slots[f];
      var ok := AcquireConsole(f, granted);
      assert slots[..] == before[f := WithConsole(p, granted)];
      if !ok {
        slots[f] := slots[f].(exitStatus := -1);
        assert slots[..] == before[f := p.(exitStatus := -1)];
        if slots[f].id == 0 {
          PanicRoot(f);
        } else {
          slots[f] := slots[f].(exitRequested := true);
          assert slots[..] == before[f := p.(exitStatus := -1, exitRequested := true)];
        }
      }
    }

    /** finish_child_process. */
    method FinishChild(c: nat, granted: bool)
      requires Valid() && c < CAPACITY
      modifies this, slots
      ensures Valid() && Snapshot() == Finish(old(Snapshot()), c, granted)
    {
      var status, id := slots[c].exitStatus, slots[c].id;
      slots[c] := EMPTY;
      lastExit := status;
      lastExitValid := true;
      if depth > 0 {
        depth := depth - 1;
      }
      assert foregroundStack[..depth] == Popped(old(foregroundStack[..depth]));
      foreground := NOBODY;
      if depth > 0 {
        foreground := FindProcess(foregroundStack[depth - 1]);
      }
      if foreground == NOBODY {
        return;
      }
      log := log + [Ended(id, slots[foreground].id, status)];
      ResumeParent(foreground, status, granted);
    }

    method LaunchRootProcess(app: Application, granted: bool) returns (result: Result)
      requires Valid()
      modifies this, slots, foregroundStack
      ensures Valid() && (Snapshot(), result) == LaunchRoot(old(Snapshot()), app, granted)
    {
      if foreground != NOBODY {
        return BusyResult;
      }
      var slot := FreeProcessSlot();
      if slot == NOBODY {
        return StartFailed;
      }
      ghost var before := slots[..];
      slots[slot] := NewProcess(0, NOBODY, app);
      nextId := 1;
      var ok := AcquireConsole(slot, granted);
      if !ok {
        slots[slot] := EMPTY;
        assert slots[..] == before[slot := EMPTY];
        return StartFailed;
      }
      assert slots[..] == before[slot := WithConsole(NewProcess(0, NOBODY, app), granted)];
      foreground := slot;
      foregroundStack[0] := 0;
      depth := 1;
      lastExitValid := false;
      log := [];
      assert foregroundStack[..depth] == [0];
      result := EnterRoot(slot, app);
    }

    method EnterRoot(slot: nat, app: Application) returns (result: Result)
      requires Valid() && slot < CAPACITY
      modifies this, slots
      ensures Valid() && result == if app.started then Ok else StartFailed
      ensures var entered := PerformAll(old(Snapshot()), slot, app.entry);
              Snapshot() ==
                if !app.started then
                  Put(entered, slot, EMPTY).(stack := [], foreground := NOBODY, lastExit := -1, lastExitValid := true)
                else if entered.slots[slot].exitRequested then Panic(entered, slot) else entered
    {
      InvokeAll(slot, app.entry);
      if !app.started {
        lastExit := -1;
        lastExitValid := true;
        slots[slot] := EMPTY;
        foreground := NOBODY;
        depth := 0;
        return StartFailed;
      }
      if slots[slot].exitRequested {
        PanicRoot(slot);
      }
      return Ok;
    }

    method EnterChild(c: nat, app: Application, granted: bool, regranted: bool) returns (result: Result)
      requires Valid() && c < CAPACITY
      modifies this, slots
      ensures Valid() && (Snapshot(), result) == Enter(old(Snapshot()), c, app, granted, regranted)
    {
      ghost var before := slots[..];
      var ok := AcquireConsole(c, granted);
      assert !ok ==> slots[..] == before;
      if ok {
        InvokeAll(c, app.entry);
        ok := app.started;
      }
      if !ok {
        slots[c] := slots[c].(exitStatus := -1);
        FinishChild(c, regranted);
        return StartFailed;
      }
      if slots[c].exitRequested {
        FinishChild(c, regranted);
      }
      return Ok;
    }

    method LaunchChildProcess(p: nat, app: Application, granted: bool, regranted: bool) returns (result: Result)
      requires Valid() && p < CAPACITY
      modifies this, slots, foregroundStack
      ensures Valid() && (Snapshot(), result) == LaunchChild(old(Snapshot()), p, app, granted, regranted)
    {
      if foreground != p || slots[p].state != Running {
        return BusyResult;
      }
      var c := FreeProcessSlot();
      if c == NOBODY || depth >= CAPACITY {
        return StartFailed;
      }
      Push(c, app);
      result := EnterChild(c, app, granted, regranted);
    }

    method Push(c: nat, app: Application)
      requires Valid() && 0 <= foreground && c < CAPACITY && depth < CAPACITY
      modifies this, slots, foregroundStack
      ensures Valid() && Snapshot() == Pushed(old(Snapshot()), c, app)
    {
      var parent := slots[foreground];
      slots[c] := NewProcess(nextId, parent.id, app);
      slots[foreground] := parent.(state := Blocked, consoleOwned := false);
      foregroundStack[depth] := nextId;
      depth := depth + 1;
      foreground := c;
      nextId := nextId + 1;
    }

    /** An update function at work. */
    method RunUpdate(p: nat, steps: seq<Step>)
      requires Valid() && p < CAPACITY
      modifies this, slots, foregroundStack
      ensures Valid() && Snapshot() == RunSteps(old(Snapshot()), p, steps)
    {
      for i := 0 to |steps|
        invariant Valid() && Snapshot() == RunSteps(old(Snapshot()), p, steps[..i])
      {
        match steps[i] {
          case Do(act) => Invoke(p, act);
          case Exec(app, granted, regranted) => var result := LaunchChildProcess(p, app, granted, regranted);
        }
        assert steps[..i + 1][..i] == steps[..i];
      }
      assert steps[..|steps|] == steps;
    }

    method UpdateForeground(steps: seq<Step>, granted: bool)
      requires Valid() && Inv(Snapshot())
      modifies this, slots, foregroundStack
      ensures Valid() && Snapshot() == Update(old(Snapshot()), steps, granted) && Inv(Snapshot())
    {
      UpdateKeeps(Snapshot(), steps, granted);
      if foreground == NOBODY {
        return;
      }
      var p := foreground;
      if slots[p].state == Running && !slots[p].exitRequested {
        RunStepsKeeps(Snapshot(), p, steps);
        RunUpdate(p, steps);
      }
      if slots[p].exitRequested {
        if slots[foreground].id == 0 {
          PanicRoot(foreground);
        } else {
          FinishChild(foreground, granted);
        }
      }
    }

    /** destroy_process. */
    method DestroyProcess(i: nat)
      requires Valid() && i < CAPACITY
      modifies this`lastExit, this`lastExitValid, slots
      ensures slots[..] == if old(slots[i].occupied) then old(slots[..])[i := EMPTY] else old(slots[..])
      ensures (lastExitValid, lastExit)
           == if old(slots[i].occupied) then (true, old(slots[i].exitStatus)) else old((lastExitValid, lastExit))
    {
      if !slots[i].occupied {
        return;
      }
      lastExit := slots[i].exitStatus;
      lastExitValid := true;
      slots[i] := EMPTY;
    }

    method DestroyAll()
      requires Valid()
      modifies this`lastExit, this`lastExitValid, slots
      ensures (lastExitValid, lastExit) == LastDestroyed(old(Snapshot()), 0)
      ensures forall i :: 0 <= i < CAPACITY ==>
                slots[i] == if old(slots[i].occupied) then EMPTY else old(slots[i])
    {
      ghost var before := Snapshot();
      var n: int := CAPACITY;
      while n > 0
        invariant 0 <= n <= CAPACITY && (lastExitValid, lastExit) == LastDestroyed(before, n)
        invariant forall i :: 0 <= i < n ==> slots[i] == before.slots[i]
        invariant forall i :: n <= i < CAPACITY ==>
                    slots[i] == if before.slots[i].occupied then EMPTY else before.slots[i]
      {
        n := n - 1;
        assert slots[n] == before.slots[n];
        DestroyProcess(n);
      }
    }

    method ShutDownAll()
      requires Valid() && Inv(Snapshot())
      modifies this, slots
      ensures Valid() && Snapshot() == Shutdown(old(Snapshot()))
    {
      DestroyAll();
      assert slots[..] == NoProcesses(CAPACITY);
      foreground := NOBODY;
      depth := 0;
    }
  }
}
