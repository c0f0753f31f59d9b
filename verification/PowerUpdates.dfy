/** When an update of kernel/power.c wakes the system, begins a cycle or goes idle, and what it leaves alone. */
module PowerUpdates {
  import opened PowerCycle

  // ----- What a drive does to a cycle that is under way -----

  /** The cycle under way goes on: either it is still the one, with more to tell, or it is over and told whole. */
  predicate GoesOn(m: Manager, n: Manager) {
    || (n.done == m.done && m.log <= n.log)
    || (|n.done| == |m.done| + 1 && n.done[..|m.done|] == m.done && m.log <= n.done[|m.done|] && n.phase == NoPhase)
  }

  /** What no turn of the driver changes. */
  predicate SameTerms(m: Manager, n: Manager) {
    n.generation == m.generation && n.available == m.available && n.inhibited == m.inhibited
  }

  /** On the way back up, or at the end of it. */
  predicate Returning(m: Manager) {
    || (m.state == Resuming && (m.phase == Resume || m.phase == WaitResume))
    || (m.state == Active && m.phase == NoPhase)
  }

  /** The same cycle with as much or more to tell. */
  predicate Grew(m: Manager, n: Manager) {
    n.done == m.done && m.log <= n.log && SameTerms(m, n)
  }

  lemma GrewTwice(a: Manager, b: Manager, c: Manager)
    requires Grew(a, b) && Grew(b, c)
    ensures Grew(a, c)
  {
  }

  lemma RecordGrew(m: Manager, e: Event, n: Manager)
    requires n.done == m.done && n.log == m.log + [e] && SameTerms(m, n)
    ensures Grew(m, n)
  {
  }

  lemma RollbackGrew(m: Manager, e: Event)
    ensures Grew(m, Rollback(Record(m, e)))
  {
    RecordGrew(m, e, Record(m, e));
    if m.prepared {
      RecordGrew(Record(m, e), Aborted, Rollback(Record(m, e)));
    }
  }

  lemma WaitGrew(m: Manager, ok: bool)
    requires m.Waiting()
    ensures Grew(m, WaitStep(m, ok))
  {
    var p := m.expected.participant;
    if m.phase == WaitResume {
      RecordGrew(m, Reported(Up, p, ok), WaitStep(m, ok));
    } else if ok {
      RecordGrew(m, Reported(Down, p, true), WaitStep(m, ok));
    } else {
      RollbackGrew(m.(ready := None), Reported(Down, p, false));
    }
  }

  lemma SleepGrew(m: Manager, a: Answer)
    ensures Grew(m, SleepStep(m, a))
  {
    if !a.prepares {
      RollbackGrew(m, Prepared(false));
    } else {
      var asleep := Record(m, Prepared(true)).(prepared := true, state := Suspended, phase := Sleep);
      RecordGrew(m, Prepared(true), asleep);
      if a.sleeps {
        RecordGrew(asleep, Slept(true), SleepStep(m, a));
      } else {
        RollbackGrew(asleep, Slept(false));
      }
      GrewTwice(m, asleep, SleepStep(m, a));
    }
  }

  lemma InvokeGrew(m: Manager, p: nat, operation: Operation, posts: seq<Post>)
    ensures Grew(m, Invoke(m, p, operation, posts))
  {
    RecordGrew(m, Called(operation, p), Invoke(m, p, operation, posts));
  }

  lemma DownAnsweredGrew(m: Manager, p: nat, result: CallbackResult)
    ensures Grew(m, DownAnswered(m, p, result))
  {
    if result == Failure {
      RollbackGrew(m, Reported(Down, p, false));
    } else if result == Success {
      RecordGrew(m, Reported(Down, p, true), DownAnswered(m, p, result));
    }
  }

  lemma CallDownGrew(m: Manager, a: Answer)
    requires m.cursor < |m.order|
    ensures Grew(m, CallDown(m, a))
  {
    var p := DownTarget(m.order, m.cursor);
    InvokeGrew(m, p, Down, a.posts);
    DownAnsweredGrew(Invoke(m, p, Down, a.posts), p, a.result);
    GrewTwice(m, Invoke(m, p, Down, a.posts), CallDown(m, a));
  }

  lemma CallUpGrew(m: Manager, a: Answer)
    requires m.cursor < |m.suspended|
    ensures Grew(m, CallUp(m, a))
  {
    var called := Invoke(m, UpTarget(m), Up, a.posts);
    InvokeGrew(m, UpTarget(m), Up, a.posts);
    if a.result != Pending {
      RecordGrew(called, Reported(Up, UpTarget(m), a.result == Success), CallUp(m, a));
    }
    GrewTwice(m, called, CallUp(m, a));
  }

  /** One turn of the driver tells more, or ends the cycle. */
  lemma StepGrew(m: Manager, a: Answer)
    ensures var n := DriveStep(m, a).0;
            Grew(m, n) || (m.phase == Resume && n == Finish(m) && DriveStep(m, a).1)
  {
    match m.phase
    case WaitSuspend => if m.ready != None { WaitGrew(m, m.ready.value); }
    case WaitResume => if m.ready != None { WaitGrew(m, m.ready.value); }
    case Suspend => if m.cursor >= |m.order| { SleepGrew(m, a); } else { CallDownGrew(m, a); }
    case Resume => if m.cursor < |m.suspended| { CallUpGrew(m, a); }
    case _ =>
  }

  lemma FinishGoesOn(m: Manager)
    ensures GoesOn(m, Finish(m)) && SameTerms(m, Finish(m))
  {
    assert Finish(m).done[|m.done|] == m.log + [Returned];
  }

  lemma UpReturning(m: Manager, a: Answer)
    requires m.state == Resuming && m.phase == Resume && m.cursor < |m.suspended|
    ensures Returning(CallUp(m, a))
  {
    assert Invoke(m, UpTarget(m), Up, a.posts).phase == Resume;
  }

  lemma WaitReturning(m: Manager, ok: bool)
    requires m.state == Resuming && m.phase == WaitResume
    ensures Returning(WaitStep(m, ok))
  {
  }

  lemma StepReturning(m: Manager, a: Answer)
    requires Returning(m)
    ensures Returning(DriveStep(m, a).0)
  {
    if m.phase == WaitResume && m.ready != None {
      WaitReturning(m, m.ready.value);
    } else if m.phase == Resume && m.cursor < |m.suspended| {
      UpReturning(m, a);
    }
  }

  lemma StepGoesOn(m: Manager, a: Answer)
    ensures var (n, stop) := DriveStep(m, a);
            && GoesOn(m, n) && SameTerms(m, n) && (stop || n.done == m.done) && (Returning(m) ==> Returning(n))
  {
    StepGrew(m, a);
    FinishGoesOn(m);
    if Returning(m) {
      StepReturning(m, a);
    }
  }

  lemma {:induction false} DriveGoesOn(m: Manager, answers: seq<Answer>)
    ensures var n := Drive(m, answers).0;
            && GoesOn(m, n) && SameTerms(m, n) && (Returning(m) ==> Returning(n)) && (m.phase == NoPhase ==> n == m)
    decreases answers
  {
    if answers != [] {
      StepGoesOn(m, answers[0]);
      var (next, stop) := DriveStep(m, answers[0]);
      if !stop {
        DriveGoesOn(next, answers[1..]);
      }
    }
  }

  // ----- Waking -----

  /** Only the requests are taken. */
  predicate OnlyRequests(m: Manager, n: Manager) {
    n == m.(suspendRequested := false, activityRequested := false)
  }

  /** An update of a sleeping system wakes it exactly when there is a power event with a cause to wake: then the cycle
      tells of the wake and goes on to its resumes.  Otherwise nothing changes, whatever else there is to do. */
  lemma WakesExactly(m: Manager, input: Input)
    requires Inv(m) && m.state == Suspended
    ensures var n := Update(m, input);
            if input.powerEvent && input.wakes then
              && Returning(n) && n.generation == m.generation
              && GoesOn(m.(log := m.log + [Woken(input.restores)]), n)
            else OnlyRequests(m, n)
  {
    var n := Update(m, input);
    var taken := m.(suspendRequested := false, activityRequested := false);
    if input.powerEvent && input.wakes {
      var woken := taken.(log := m.log + [Woken(input.restores)], state := Resuming, phase := Resume, cursor := 0);
      assert n == Drive(woken, input.answers).0;
      DriveGoesOn(woken, input.answers);
    } else {
      assert n == Drive(taken, input.answers).0;
    }
  }

  // ----- Beginning -----

  /** An update of a system that is up begins a cycle exactly when one is asked for, by a request or by the deadlines
      of a system that may go idle, and nothing forbids it.  Otherwise it only decides between ACTIVE and IDLE. */
  lemma BeginsExactly(m: Manager, input: Input)
    requires Inv(m) && (m.state == Active || m.state == Idle)
    ensures var n := Update(m, input);
            var asked := m.suspendRequested || (input.idleDue && input.suspendDue && !m.inhibited);
            var idle := if m.inhibited || !input.idleDue then m.state == Idle && !m.activityRequested else true;
            if asked && m.available && !m.inhibited && !input.blocked then n.generation == m.generation + 1
            else
              && n.generation == m.generation
              && n == m.(suspendRequested := false, activityRequested := false, state := if idle then Idle else Active)
  {
    var asked := m.suspendRequested || (input.idleDue && input.suspendDue && !m.inhibited);
    if asked && m.available && !m.inhibited && !input.blocked {
      BeginsAttended(m, input);
      DriveGoesOn(NewCycle(m), input.starting);
    } else {
      StaysUp(m, input);
    }
    DriveGoesOn(Attend(m, input), input.answers);
  }

  /** The manager with a cycle begun and nothing told yet. */
  function NewCycle(m: Manager): Manager {
    m.(suspendRequested := false, activityRequested := false, generation := m.generation + 1, state := Suspending,
       phase := Suspend, cursor := 0, suspended := [], log := [])
  }

  lemma BeginsAttended(m: Manager, input: Input)
    requires m.state == Active || m.state == Idle
    requires m.suspendRequested || (input.idleDue && input.suspendDue && !m.inhibited)
    requires m.available && !m.inhibited && !input.blocked
    ensures Attend(m, input) == Drive(NewCycle(m), input.starting).0
  {
    assert Begun(Wake(Refresh(m, input), input)) == NewCycle(m);
  }

  lemma StaysUp(m: Manager, input: Input)
    requires m.phase == NoPhase && (m.state == Active || m.state == Idle)
    requires !((m.suspendRequested || (input.idleDue && input.suspendDue && !m.inhibited))
               && m.available && !m.inhibited && !input.blocked)
    ensures var idle := if m.inhibited || !input.idleDue then m.state == Idle && !m.activityRequested else true;
            Attend(m, input)
            == m.(suspendRequested := false, activityRequested := false, state := if idle then Idle else Active)
  {
  }

  /** In every other state no update begins a cycle. */
  lemma BeginsNothing(m: Manager, input: Input)
    requires m.state != Active && m.state != Idle
    ensures Update(m, input).generation == m.generation
  {
    DriveGoesOn(Attend(m, input), input.answers);
  }

  /** A cycle that begins first asks the last participant of the order to suspend, and with no participant prepares the
      platform for sleep. */
  lemma BeginsWith(m: Manager, input: Input)
    requires Inv(m) && (m.state == Active || m.state == Idle) && m.suspendRequested
    requires m.available && !m.inhibited && !input.blocked && input.starting != []
    ensures var n := Update(m, input);
            var first := if m.order != [] then Called(Down, m.order[|m.order| - 1])
                         else Prepared(input.starting[0].prepares);
            GoesOn(m.(log := [first]), n)
  {
    BeginsAttended(m, input);
    CycleTells(NewCycle(m), input.starting);
    DriveGoesOn(Drive(NewCycle(m), input.starting).0, input.answers);
    GoesOnTwice(NewCycle(m).(log := Attended(m, input)), Drive(NewCycle(m), input.starting).0, Update(m, input));
  }

  /** What a cycle begun now tells first. */
  function Attended(m: Manager, input: Input): seq<Event>
    requires input.starting != []
  {
    [if m.order != [] then Called(Down, m.order[|m.order| - 1]) else Prepared(input.starting[0].prepares)]
  }

  lemma GoesOnTwice(a: Manager, b: Manager, c: Manager)
    requires GoesOn(a, b) && GoesOn(b, c) && (b.phase == NoPhase ==> c == b)
    ensures GoesOn(a, c)
  {
  }

  /** What a cycle tells first stays first. */
  lemma CycleTells(m: Manager, answers: seq<Answer>)
    requires m.phase == Suspend && m.cursor == 0 && m.log == [] && answers != []
    ensures var first := if m.order != [] then Called(Down, m.order[|m.order| - 1]) else Prepared(answers[0].prepares);
            GoesOn(m.(log := [first]), Drive(m, answers).0)
  {
    var (next, stop) := DriveStep(m, answers[0]);
    BegunTells(m, answers[0]);
    if !stop {
      DriveGoesOn(next, answers[1..]);
    }
  }

  /** What the first turn of a cycle tells first. */
  lemma BegunTells(m: Manager, a: Answer)
    requires m.phase == Suspend && m.cursor == 0 && m.log == []
    ensures var n := DriveStep(m, a).0;
            && n.done == m.done
            && [if m.order != [] then Called(Down, m.order[|m.order| - 1]) else Prepared(a.prepares)] <= n.log
  {
    if m.order != [] {
      FirstCall(m, a);
    } else {
      FirstPrepare(m, a);
    }
  }

  lemma FirstCall(m: Manager, a: Answer)
    requires m.order != [] && m.cursor == 0 && m.log == []
    ensures var n := CallDown(m, a); n.done == m.done && [Called(Down, m.order[|m.order| - 1])] <= n.log
  {
    var p := DownTarget(m.order, 0);
    DownAnsweredGrew(Invoke(m, p, Down, a.posts), p, a.result);
  }

  lemma FirstPrepare(m: Manager, a: Answer)
    requires m.log == []
    ensures var n := SleepStep(m, a); n.done == m.done && [Prepared(a.prepares)] <= n.log
  {
    var prepared := Record(m, Prepared(a.prepares));
    if a.prepares {
      var asleep := prepared.(prepared := true, state := Suspended, phase := Sleep);
      if !a.sleeps {
        RollbackGrew(asleep, Slept(false));
      }
    } else {
      assert Rollback(prepared).log[0] == Prepared(false);
    }
  }

  // ----- The other calls -----

  /** Requests wait for the next update; going idle or active and inhibitors count at once, in a system that is up and
      not shutting down; shutting down ends the protocol. */
  lemma CallsTell(m: Manager, idle: bool, on: bool)
    ensures Apply(m, RequestSuspend) == m.(suspendRequested := true)
    ensures Apply(m, RequestActivity) == m.(activityRequested := true)
    ensures var up := m.state == Active || m.state == Idle;
            && Apply(m, SetPolicy(idle)).state
               == (if up && !m.inhibited then if idle then Idle else Active else m.state)
            && Apply(m, SetInhibited(on)).inhibited == (if m.state == ShuttingDown then m.inhibited else on)
            && Apply(m, SetInhibited(on)).state
               == (if m.state == Idle && (on || m.inhibited) then Active else m.state)
    ensures Apply(m, BeginShutdown).state == ShuttingDown && Apply(m, BeginShutdown).phase == NoPhase
  {
  }
}
