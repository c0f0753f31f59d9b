/** The failure kernel/power.c keeps of a cycle, and what of the cycle it tells. */
module PowerReasons {
  import opened PowerCycle
  import opened PowerFailure
  import opened PowerUpdates

  // ----- The failure after each call, as the source sets it -----

  function TurnFault(m: Manager, a: Answer, f: FailureCode): FailureCode {
    match m.phase
    case WaitSuspend => if m.ready == Some(false) then Callback else f
    case WaitResume => if m.ready == Some(false) then Callback else f
    case Suspend =>
      if m.cursor < |m.order| then if a.result == Failure then Callback else f
      else if !a.prepares then PlatformPrepare
      else if !a.sleeps then PlatformSleep
      else f
    case Resume => if m.cursor < |m.suspended| && a.result == Failure then Callback else f
    case _ => f
  }

  function DriveFault(m: Manager, answers: seq<Answer>, f: FailureCode): FailureCode
    decreases answers
  {
    if answers == [] then f
    else
      var (next, stop) := DriveStep(m, answers[0]);
      var now := TurnFault(m, answers[0], f);
      if stop then now else DriveFault(next, answers[1..], now)
  }

  function StartFault(m: Manager, blocked: bool, answers: seq<Answer>, f: FailureCode): FailureCode {
    if !m.available then Registration
    else if m.inhibited || blocked then Blocked
    else DriveFault(Begun(m), answers, NoFailure)
  }

  function WakeFault(m: Manager, input: Input, f: FailureCode): FailureCode {
    if m.state == Suspended && input.powerEvent && input.wakes && !input.restores then PlatformRestore else f
  }

  function LaunchFault(m: Manager, request: bool, input: Input, f: FailureCode): FailureCode {
    if !request then f
    else if m.state == Active || m.state == Idle then StartFault(m, input.blocked, input.starting, f)
    else InvalidState
  }

  function AttendFault(m: Manager, input: Input, f: FailureCode): FailureCode {
    LaunchFault(Wake(Refresh(m, input), input), Requested(m, input), input, WakeFault(Refresh(m, input), input, f))
  }

  function UpdateFault(m: Manager, input: Input, f: FailureCode): FailureCode {
    if m.state == ShuttingDown then f else DriveFault(Attend(m, input), input.answers, AttendFault(m, input, f))
  }

  // ----- What is told of a manager's cycles -----

  function Flat(cycles: seq<seq<Event>>): seq<Event> {
    if cycles == [] then [] else Flat(cycles[..|cycles| - 1]) + cycles[|cycles| - 1]
  }

  /** All events of its cycles, the one under way last. */
  function History(m: Manager): seq<Event> {
    Flat(m.done) + m.log
  }

  /** What an event that is a failure makes of the failure kept. */
  function FaultOf(f: FailureCode, e: Event): FailureCode {
    match e
    case Reported(_, _, ok) => if ok then f else Callback
    case Prepared(ok) => if ok then f else PlatformPrepare
    case Slept(ok) => if ok then f else PlatformSleep
    case Woken(restored) => if restored then f else PlatformRestore
    case _ => f
  }

  /** The last failure among events, or the one kept before them. */
  function LastFault(f: FailureCode, events: seq<Event>): FailureCode {
    if events == [] then f else FaultOf(LastFault(f, events[..|events| - 1]), events[|events| - 1])
  }

  /** From m to n the failure kept becomes the last one told. */
  ghost predicate Noted(m: Manager, n: Manager, f: FailureCode, g: FailureCode) {
    exists events :: History(n) == History(m) + events && g == LastFault(f, events)
  }

  lemma {:induction false} FaultsAppend(f: FailureCode, a: seq<Event>, b: seq<Event>)
    ensures LastFault(f, a + b) == LastFault(LastFault(f, a), b)
  {
    if b == [] {
      assert a + b == a;
    } else {
      assert (a + b)[..|a + b| - 1] == a + b[..|b| - 1];
      FaultsAppend(f, a, b[..|b| - 1]);
    }
  }

  lemma NotedTwice(a: Manager, b: Manager, c: Manager, f: FailureCode, g: FailureCode, h: FailureCode)
    requires Noted(a, b, f, g) && Noted(b, c, g, h)
    ensures Noted(a, c, f, h)
  {
    var first :| History(b) == History(a) + first && g == LastFault(f, first);
    var then' :| History(c) == History(b) + then' && h == LastFault(g, then');
    FaultsAppend(f, first, then');
    assert History(c) == History(a) + (first + then');
  }

  lemma NotedNothing(m: Manager, n: Manager, f: FailureCode)
    requires n.done == m.done && n.log == m.log
    ensures Noted(m, n, f, f)
  {
    assert History(n) == History(m) + [];
  }

  lemma NotedOne(m: Manager, n: Manager, f: FailureCode, e: Event)
    requires n.done == m.done && n.log == m.log + [e]
    ensures Noted(m, n, f, FaultOf(f, e))
  {
    assert History(n) == History(m) + [e];
    assert LastFault(f, []) == f && [e][..0] == [];
  }

  /** A failure after which the cycle turns back. */
  lemma NotedRollback(m: Manager, f: FailureCode, e: Event)
    requires FaultOf(f, e) == FaultOf(FaultOf(f, e), Aborted)
    ensures Noted(m, Rollback(Record(m, e)), f, FaultOf(f, e))
  {
    NotedOne(m, Record(m, e), f, e);
    if m.prepared {
      NotedOne(Record(m, e), Rollback(Record(m, e)), FaultOf(f, e), Aborted);
    } else {
      NotedNothing(Record(m, e), Rollback(Record(m, e)), FaultOf(f, e));
    }
    NotedTwice(m, Record(m, e), Rollback(Record(m, e)), f, FaultOf(f, e), FaultOf(f, e));
  }

  lemma NotedFinish(m: Manager, f: FailureCode)
    ensures Noted(m, Finish(m), f, f)
  {
    var n := Finish(m);
    assert n.done[..|n.done| - 1] == m.done && n.done[|n.done| - 1] == m.log + [Returned];
    assert History(n) == History(m) + [Returned];
    assert LastFault(f, []) == f && [Returned][..0] == [];
  }

  lemma WaitNoted(m: Manager, ok: bool, f: FailureCode)
    requires m.Waiting()
    ensures Noted(m, WaitStep(m, ok), f, if ok then f else Callback)
  {
    var p := m.expected.participant;
    if m.phase == WaitResume {
      NotedOne(m, WaitStep(m, ok), f, Reported(Up, p, ok));
    } else if ok {
      NotedOne(m, WaitStep(m, ok), f, Reported(Down, p, true));
    } else {
      var heard := m.(ready := None);
      NotedRollback(heard, f, Reported(Down, p, false));
      NotedNothing(m, heard, f);
      NotedTwice(m, heard, WaitStep(m, ok), f, f, Callback);
    }
  }

  lemma SleepNoted(m: Manager, a: Answer, f: FailureCode)
    ensures Noted(m, SleepStep(m, a), f,
                  if !a.prepares then PlatformPrepare else if !a.sleeps then PlatformSleep else f)
  {
    if !a.prepares {
      NotedRollback(m, f, Prepared(false));
    } else {
      var asleep := Record(m, Prepared(true)).(prepared := true, state := Suspended, phase := Sleep);
      NotedOne(m, asleep, f, Prepared(true));
      if a.sleeps {
        NotedOne(asleep, SleepStep(m, a), f, Slept(true));
        NotedTwice(m, asleep, SleepStep(m, a), f, f, f);
      } else {
        NotedRollback(asleep, f, Slept(false));
        NotedTwice(m, asleep, SleepStep(m, a), f, f, PlatformSleep);
      }
    }
  }

  lemma DownAnsweredNoted(m: Manager, p: nat, result: CallbackResult, f: FailureCode)
    ensures Noted(m, DownAnswered(m, p, result), f, if result == Failure then Callback else f)
  {
    match result
    case Pending => NotedNothing(m, DownAnswered(m, p, result), f);
    case Failure => NotedRollback(m, f, Reported(Down, p, false));
    case Success => NotedOne(m, DownAnswered(m, p, result), f, Reported(Down, p, true));
  }

  lemma CallDownNoted(m: Manager, a: Answer, f: FailureCode)
    requires m.cursor < |m.order|
    ensures Noted(m, CallDown(m, a), f, if a.result == Failure then Callback else f)
  {
    var p := DownTarget(m.order, m.cursor);
    var called := Invoke(m, p, Down, a.posts);
    NotedOne(m, called, f, Called(Down, p));
    DownAnsweredNoted(called, p, a.result, f);
    NotedTwice(m, called, CallDown(m, a), f, f, if a.result == Failure then Callback else f);
  }

  lemma UpAnsweredNoted(m: Manager, p: nat, result: CallbackResult, f: FailureCode)
    ensures Noted(m, UpAnswered(m, p, result), f, if result == Failure then Callback else f)
  {
    if result == Pending {
      NotedNothing(m, UpAnswered(m, p, result), f);
    } else {
      NotedOne(m, UpAnswered(m, p, result), f, Reported(Up, p, result == Success));
    }
  }

  lemma CallUpNoted(m: Manager, a: Answer, f: FailureCode)
    requires m.cursor < |m.suspended|
    ensures Noted(m, CallUp(m, a), f, if a.result == Failure then Callback else f)
  {
    var p := UpTarget(m);
    var called := Invoke(m, p, Up, a.posts);
    NotedOne(m, called, f, Called(Up, p));
    UpAnsweredNoted(called, p, a.result, f);
    NotedTwice(m, called, CallUp(m, a), f, f, if a.result == Failure then Callback else f);
  }

  lemma WaitTurnNoted(m: Manager, a: Answer, f: FailureCode)
    requires m.Waiting()
    ensures Noted(m, DriveStep(m, a).0, f, TurnFault(m, a, f))
  {
    if m.ready == None {
      NotedNothing(m, m, f);
    } else {
      WaitNoted(m, m.ready.value, f);
    }
  }

  lemma SuspendTurnNoted(m: Manager, a: Answer, f: FailureCode)
    requires m.phase == Suspend
    ensures Noted(m, DriveStep(m, a).0, f, TurnFault(m, a, f))
  {
    if m.cursor < |m.order| {
      CallDownNoted(m, a, f);
    } else {
      SleepNoted(m, a, f);
    }
  }

  lemma ResumeTurnNoted(m: Manager, a: Answer, f: FailureCode)
    requires m.phase == Resume
    ensures Noted(m, DriveStep(m, a).0, f, TurnFault(m, a, f))
  {
    if m.cursor < |m.suspended| {
      CallUpNoted(m, a, f);
    } else {
      NotedFinish(m, f);
    }
  }

  lemma TurnNoted(m: Manager, a: Answer, f: FailureCode)
    ensures Noted(m, DriveStep(m, a).0, f, TurnFault(m, a, f))
  {
    if m.Waiting() {
      WaitTurnNoted(m, a, f);
    } else if m.phase == Suspend {
      SuspendTurnNoted(m, a, f);
    } else if m.phase == Resume {
      ResumeTurnNoted(m, a, f);
    } else {
      NotedNothing(m, m, f);
    }
  }

  lemma {:induction false} DriveNoted(m: Manager, answers: seq<Answer>, f: FailureCode)
    ensures Noted(m, Drive(m, answers).0, f, DriveFault(m, answers, f))
    decreases answers
  {
    if answers == [] {
      NotedNothing(m, m, f);
    } else {
      var (next, stop) := DriveStep(m, answers[0]);
      TurnNoted(m, answers[0], f);
      if !stop {
        DriveNoted(next, answers[1..], TurnFault(m, answers[0], f));
        NotedTwice(m, next, Drive(m, answers).0, f, TurnFault(m, answers[0], f), DriveFault(m, answers, f));
      }
    }
  }

  // ----- The failure after an update -----

  /** An update of a system that is up: without a request the failure stays; a request that is refused says why; and a
      cycle that begins forgets the failure and leaves the last one that it tells, if any. */
  lemma FailureWhenUp(m: Manager, input: Input, f: FailureCode)
    requires Inv(m) && (m.state == Active || m.state == Idle)
    ensures var g := UpdateFault(m, input, f);
            if !(m.suspendRequested || (input.idleDue && input.suspendDue && !m.inhibited)) then g == f
            else if !m.available then g == Registration
            else if m.inhibited || input.blocked then g == Blocked
            else Noted(m, Update(m, input), NoFailure, g)
  {
    var held := AttendFault(m, input, f);
    if (m.suspendRequested || (input.idleDue && input.suspendDue && !m.inhibited))
       && m.available && !m.inhibited && !input.blocked {
      BegunNoted(m, input, f);
      DriveNoted(Attend(m, input), input.answers, held);
      NotedTwice(m, Attend(m, input), Update(m, input), NoFailure, held, UpdateFault(m, input, f));
    } else {
      NothingBegun(m, input, f);
    }
  }

  lemma NothingBegun(m: Manager, input: Input, f: FailureCode)
    requires m.phase == NoPhase && (m.state == Active || m.state == Idle)
    requires !((m.suspendRequested || (input.idleDue && input.suspendDue && !m.inhibited))
               && m.available && !m.inhibited && !input.blocked)
    ensures UpdateFault(m, input, f)
         == if !(m.suspendRequested || (input.idleDue && input.suspendDue && !m.inhibited)) then f
            else if !m.available then Registration else Blocked
  {
    StaysUp(m, input);
    Unmoved(Attend(m, input), input.answers, AttendFault(m, input, f));
  }

  lemma BegunNoted(m: Manager, input: Input, f: FailureCode)
    requires m.log == [] && (m.state == Active || m.state == Idle)
    requires m.suspendRequested || (input.idleDue && input.suspendDue && !m.inhibited)
    requires m.available && !m.inhibited && !input.blocked
    ensures Noted(m, Attend(m, input), NoFailure, AttendFault(m, input, f))
  {
    BeginsAttended(m, input);
    BegunFault(m, input, f);
    NotedNothing(m, NewCycle(m), NoFailure);
    DriveNoted(NewCycle(m), input.starting, NoFailure);
    NotedTwice(m, NewCycle(m), Attend(m, input), NoFailure, NoFailure, AttendFault(m, input, f));
  }

  lemma BegunFault(m: Manager, input: Input, f: FailureCode)
    requires m.state == Active || m.state == Idle
    requires m.suspendRequested || (input.idleDue && input.suspendDue && !m.inhibited)
    requires m.available && !m.inhibited && !input.blocked
    ensures AttendFault(m, input, f) == DriveFault(NewCycle(m), input.starting, NoFailure)
  {
    assert Begun(Wake(Refresh(m, input), input)) == NewCycle(m);
  }

  lemma Unmoved(m: Manager, answers: seq<Answer>, f: FailureCode)
    requires m.phase == NoPhase
    ensures DriveFault(m, answers, f) == f
  {
  }

  /** An update during a cycle: the failure is the last one the cycle tells in it, a wake that does not restore the
      platform among them; a request counts as a failure of its own before what the cycle tells next. */
  lemma FailureInCycle(m: Manager, input: Input, f: FailureCode)
    requires Inv(m) && m.state != Active && m.state != Idle && m.state != ShuttingDown
    ensures var g := UpdateFault(m, input, f);
            var wakes := m.state == Suspended && input.powerEvent && input.wakes;
            var woken := if wakes then m.(log := m.log + [Woken(input.restores)]) else m;
            Noted(woken, Update(m, input),
                  if m.suspendRequested then InvalidState
                  else if wakes && !input.restores then PlatformRestore else f, g)
  {
    var wakes := m.state == Suspended && input.powerEvent && input.wakes;
    var woken := if wakes then m.(log := m.log + [Woken(input.restores)]) else m;
    CycleNoted(m, woken, input, f);
  }

  lemma CycleNoted(m: Manager, woken: Manager, input: Input, f: FailureCode)
    requires m.state != Active && m.state != Idle && m.state != ShuttingDown
    requires var wakes := m.state == Suspended && input.powerEvent && input.wakes;
             woken == if wakes then m.(log := m.log + [Woken(input.restores)]) else m
    ensures Noted(woken, Update(m, input), AttendFault(m, input, f), UpdateFault(m, input, f))
    ensures AttendFault(m, input, f)
         == if m.suspendRequested then InvalidState else WakeFault(m, input, f)
  {
    var attended, held := Attend(m, input), AttendFault(m, input, f);
    assert attended.done == woken.done && attended.log == woken.log;
    NotedNothing(woken, attended, held);
    DriveNoted(attended, input.answers, held);
    NotedTwice(woken, attended, Update(m, input), held, held, UpdateFault(m, input, f));
  }
}
