/** The suspend/resume protocol of kernel/power.c as a state machine over values.
    Callbacks, the platform and the completions posted by other threads are inputs (`Answer`,
    `Action`), so a statement about all inputs is a statement about every environment. */
module PowerCycle {
  const PARTICIPANT_CAPACITY: nat := 16
  const DRIVE_BUDGET: nat := PARTICIPANT_CAPACITY * 2 + 8

  datatype Option<T> = None | Some(value: T)

  datatype CallbackResult = Success | Pending | Failure
  datatype Operation = Down | Up
  datatype Token = Token(generation: nat, participant: nat, operation: Operation)
  datatype Phase = NoPhase | Suspend | WaitSuspend | Sleep | Resume | WaitResume
  datatype State = Active | Idle | Suspending | Suspended | Resuming | ShuttingDown

  /** What a cycle does, in order: callbacks entered, outcomes learned, platform calls, the end. */
  datatype Event =
    | Called(operation: Operation, participant: nat)
    | Reported(operation: Operation, participant: nat, ok: bool)
    | Prepared(ok: bool)
    | Slept(ok: bool)
    | Aborted
    | Woken(restored: bool)
    | Returned

  /** One completion posted by any thread; `ok` is false for a reported failure. */
  datatype Post = Post(token: Token, ok: bool)

  /** What the outside does during one step of the driver: the callback's result and the
      completions posted while it runs, and whether the platform prepares and sleeps. */
  datatype Answer = Answer(result: CallbackResult, posts: seq<Post>, prepares: bool, sleeps: bool)

  datatype Manager = Manager(
    order: seq<nat>, state: State, phase: Phase, cursor: nat, suspended: seq<nat>,
    generation: nat, expected: Token, ready: Option<bool>, prepared: bool,
    available: bool, inhibited: bool, suspendRequested: bool, activityRequested: bool,
    log: seq<Event>, done: seq<seq<Event>>)
  {
    predicate Waiting() {
      phase == WaitSuspend || phase == WaitResume
    }
  }

  // ----- The steps of the source -----

  /** power_manager_complete: only the expected token counts, and only once. */
  function Complete(m: Manager, post: Post): Manager {
    if m.ready == None && post.token == m.expected then m.(ready := Some(post.ok)) else m
  }

  function CompleteAll(m: Manager, posts: seq<Post>): (r: Manager)
    ensures r == m.(ready := r.ready)
    decreases posts
  {
    if posts == [] then m else CompleteAll(Complete(m, posts[0]), posts[1..])
  }

  function Record(m: Manager, e: Event): Manager {
    m.(log := m.log + [e])
  }

  function Expect(m: Manager, participant: nat, operation: Operation): Manager {
    m.(expected := Token(m.generation, participant, operation), ready := None)
  }

  function BeginResume(m: Manager): Manager {
    m.(state := Resuming, phase := Resume, cursor := 0)
  }

  function Rollback(m: Manager): Manager {
    BeginResume(if m.prepared then Record(m, Aborted) else m)
  }

  function Finish(m: Manager): Manager {
    m.(state := Active, phase := NoPhase, cursor := 0, suspended := [], prepared := false,
       log := [], done := m.done + [m.log + [Returned]])
  }

  /** The participant the suspend phase calls at a cursor: dependency order backwards. */
  function DownTarget(order: seq<nat>, cursor: nat): nat
    requires cursor < |order|
  {
    order[|order| - 1 - cursor]
  }

  /** A completion is in for the suspend or resume that waits for it. */
  function WaitStep(m: Manager, ok: bool): (r: Manager)
    requires m.Waiting()
    ensures r.order == m.order
  {
    var p := m.expected.participant;
    var heard := m.(ready := None);
    if m.phase == WaitResume then
      Record(heard, Reported(Up, p, ok)).(phase := Resume, cursor := m.cursor + 1)
    else if ok then
      Record(heard, Reported(Down, p, true)).(suspended := m.suspended + [p], cursor := m.cursor + 1, phase := Suspend)
    else
      Rollback(Record(heard, Reported(Down, p, false)))
  }

  function SleepStep(m: Manager, a: Answer): Manager {
    if !a.prepares then Rollback(Record(m, Prepared(false)))
    else
      var asleep := Record(m, Prepared(true)).(prepared := true, state := Suspended, phase := Sleep);
      if a.sleeps then Record(asleep, Slept(true)) else Rollback(Record(asleep, Slept(false)))
  }

  /** Call a participant; completions may arrive while its callback runs. */
  function Invoke(m: Manager, p: nat, operation: Operation, posts: seq<Post>): (r: Manager)
    ensures r == m.(expected := Token(m.generation, p, operation), ready := r.ready,
                    log := m.log + [Called(operation, p)])
  {
    CompleteAll(Record(Expect(m, p, operation), Called(operation, p)), posts)
  }

  /** What the result of a suspend callback leads to. */
  function DownAnswered(m: Manager, p: nat, result: CallbackResult): (r: Manager)
    ensures r.order == m.order
  {
    match result
    case Pending => m.(phase := WaitSuspend)
    case Failure => Rollback(Record(m, Reported(Down, p, false)))
    case Success => Record(m, Reported(Down, p, true)).(suspended := m.suspended + [p], cursor := m.cursor + 1)
  }

  /** What the result of a resume callback leads to: a failure is only reported. */
  function UpAnswered(m: Manager, p: nat, result: CallbackResult): (r: Manager)
    ensures r.order == m.order
  {
    if result == Pending then m.(phase := WaitResume)
    else Record(m, Reported(Up, p, result == Success)).(cursor := m.cursor + 1)
  }

  function CallDown(m: Manager, a: Answer): (r: Manager)
    requires m.cursor < |m.order|
    ensures r.order == m.order
  {
    var p := DownTarget(m.order, m.cursor);
    DownAnswered(Invoke(m, p, Down, a.posts), p, a.result)
  }

  function CallUp(m: Manager, a: Answer): (r: Manager)
    requires m.cursor < |m.suspended|
    ensures r.order == m.order
  {
    UpAnswered(Invoke(m, UpTarget(m), Up, a.posts), UpTarget(m), a.result)
  }

  /** One turn of the driver loop, and whether the loop returns after it. */
  function DriveStep(m: Manager, a: Answer): (r: (Manager, bool))
    ensures r.0.order == m.order
  {
    match m.phase
    case WaitSuspend => if m.ready == None then (m, true) else (WaitStep(m, m.ready.value), false)
    case WaitResume => if m.ready == None then (m, true) else (WaitStep(m, m.ready.value), false)
    case Suspend =>
      if m.cursor >= |m.order| then (SleepStep(m, a), a.prepares && a.sleeps)
      else (CallDown(m, a), a.result == Pending)
    case Resume =>
      if m.cursor >= |m.suspended| then (Finish(m), true)
      else (CallUp(m, a), a.result == Pending)
    case NoPhase => (m, true)
    case Sleep => (m, true)
  }

  /** The driver loop over the answers given; the flag says that it returned, not ran out. */
  function Drive(m: Manager, answers: seq<Answer>): (r: (Manager, bool))
    ensures r.0.order == m.order
    decreases answers
  {
    if answers == [] then (m, false)
    else
      var (next, stop) := DriveStep(m, answers[0]);
      if stop then (next, true) else Drive(next, answers[1..])
  }

  /** start(), for a caller that allows it; `blocked` says that some participant blocks or
      lacks a callback. */
  function Start(m: Manager, blocked: bool, answers: seq<Answer>): (r: Manager)
    ensures r.order == m.order
  {
    if !m.available || m.inhibited || blocked then m else Drive(Begun(m), answers).0
  }

  function Begun(m: Manager): Manager {
    m.(generation := m.generation + 1, state := Suspending, phase := Suspend, cursor := 0, suspended := [], log := [])
  }

  /** Inputs of power_manager_update: which deadlines have passed, what the hardware says and
      what the participants answer. */
  datatype Input = Input(
    idleDue: bool, suspendDue: bool, powerEvent: bool, wakes: bool, restores: bool,
    blocked: bool, starting: seq<Answer>, answers: seq<Answer>)

  function Rouse(m: Manager): Manager {
    if m.state == Idle then m.(state := Active) else m
  }

  function Wake(m: Manager, input: Input): (r: Manager)
    ensures r.order == m.order
  {
    if m.state == Suspended && input.powerEvent && input.wakes
    then BeginResume(Record(m, Woken(input.restores))) else m
  }

  /** Take the requests; activity rouses an idle manager. */
  function TakeRequests(m: Manager): Manager {
    var taken := m.(suspendRequested := false, activityRequested := false);
    if m.activityRequested then Rouse(taken) else taken
  }

  /** Take the requests, note activity, and go idle at the deadline. */
  function Refresh(m: Manager, input: Input): (r: Manager)
    ensures r.order == m.order
  {
    var roused := TakeRequests(m);
    if input.idleDue && !m.inhibited && roused.state == Active then roused.(state := Idle) else roused
  }

  /** A suspend is asked for explicitly or by the automatic deadline of an idle manager. */
  predicate Requested(m: Manager, input: Input) {
    || m.suspendRequested
    || (input.idleDue && !m.inhibited && input.suspendDue && Refresh(m, input).state == Idle)
  }

  function Launch(m: Manager, request: bool, input: Input): (r: Manager)
    ensures r.order == m.order
  {
    if request && (m.state == Active || m.state == Idle) then Start(m, input.blocked, input.starting) else m
  }

  /** Everything an update does before its own drive. */
  function Attend(m: Manager, input: Input): (r: Manager)
    ensures r.order == m.order
  {
    Launch(Wake(Refresh(m, input), input), Requested(m, input), input)
  }

  function Update(m: Manager, input: Input): (r: Manager)
    ensures r.order == m.order
  {
    if m.state == ShuttingDown then m else Drive(Attend(m, input), input.answers).0
  }

  datatype Action =
    | Post(post: Post)
    | RequestSuspend
    | RequestActivity
    | SetPolicy(idle: bool)
    | SetInhibited(inhibited: bool)
    | BeginShutdown
    | Step(input: Input)

  /** Going between ACTIVE and IDLE, which no cycle in progress allows. */
  predicate IdleSwitch(from: State, to: State) {
    from == to || ((from == Active || from == Idle) && (to == Active || to == Idle))
  }

  /** The actions that only leave a note or switch between ACTIVE and IDLE. */
  function Touch(m: Manager, action: Action): (r: Manager)
    requires !action.Step? && !action.BeginShutdown?
    ensures r == m.(state := r.state, ready := r.ready, inhibited := r.inhibited,
                    suspendRequested := r.suspendRequested, activityRequested := r.activityRequested)
    ensures IdleSwitch(m.state, r.state)
  {
    match action
    case Post(post) => Complete(m, post)
    case RequestSuspend => m.(suspendRequested := true)
    case RequestActivity => m.(activityRequested := true)
    case SetPolicy(idle) =>
      if m.inhibited || (m.state != Active && m.state != Idle) then m
      else m.(state := if idle then Idle else Active)
    case SetInhibited(inhibited) =>
      if m.state == ShuttingDown then m
      else if inhibited || m.inhibited then Rouse(m.(inhibited := inhibited))
      else m
  }

  function Apply(m: Manager, action: Action): (r: Manager)
    ensures r.order == m.order
  {
    match action
    case Step(input) => Update(m, input)
    case BeginShutdown => m.(state := ShuttingDown, phase := NoPhase)
    case _ => Touch(m, action)
  }

  function Run(m: Manager, actions: seq<Action>): (r: Manager)
    ensures r.order == m.order
  {
    if actions == [] then m else Apply(Run(m, actions[..|actions| - 1]), actions[|actions| - 1])
  }

  function Initial(order: seq<nat>, available: bool): Manager {
    Manager(order, Active, NoPhase, 0, [], 0, Token(0, 0, Down), None, false, available, false, false, false, [], [])
  }

  // ----- What a cycle must look like -----

  /** The first k suspends, each reported successful, dependents before dependencies. */
  function Downs(order: seq<nat>, k: nat): seq<Event>
    requires k <= |order|
  {
    if k == 0 then []
    else Downs(order, k - 1) + [Called(Down, DownTarget(order, k - 1)), Reported(Down, DownTarget(order, k - 1), true)]
  }

  /** Resumes of the first k suspended, last suspended first, with whatever outcomes. */
  function Ups(order: seq<nat>, k: nat, outcomes: seq<bool>): seq<Event>
    requires |outcomes| <= k <= |order|
  {
    if outcomes == [] then []
    else
      var n := |outcomes| - 1;
      var p := DownTarget(order, k - 1 - n);
      Ups(order, k, outcomes[..n]) + [Called(Up, p), Reported(Up, p, outcomes[n])]
  }

  /** What lies between the last successful suspend and the first resume: a failed callback, a
      platform that will not prepare or will not sleep, or sleep and a wake. */
  predicate Turn(order: seq<nat>, k: nat, turn: seq<Event>)
    requires k <= |order|
  {
    || (k < |order| && turn == [Called(Down, DownTarget(order, k)), Reported(Down, DownTarget(order, k), false)])
    || (k == |order| && turn == [Prepared(false)])
    || (k == |order| && turn == [Prepared(true), Slept(false), Aborted])
    || (k == |order| && exists restored :: turn == [Prepared(true), Slept(true), Woken(restored)])
  }

  ghost predicate ResumeLog(order: seq<nat>, k: nat, turn: seq<Event>, outcomes: seq<bool>, log: seq<Event>) {
    && |outcomes| <= k <= |order|
    && Turn(order, k, turn)
    && log == Downs(order, k) + turn + Ups(order, k, outcomes)
  }

  /** k suspends, a turning point and the first n resumes. */
  ghost predicate ResumesTo(order: seq<nat>, k: nat, n: nat, log: seq<Event>) {
    exists turn, outcomes :: |outcomes| == n && ResumeLog(order, k, turn, outcomes, log)
  }

  /** A whole cycle: k suspends, a turning point, k resumes in exact reverse, then ACTIVE. */
  ghost predicate WholeCycle(order: seq<nat>, cycle: seq<Event>) {
    exists k: nat, log: seq<Event> :: ResumesTo(order, k, k, log) && cycle == log + [Returned]
  }

  ghost predicate IsOrder(order: seq<nat>) {
    && |order| <= PARTICIPANT_CAPACITY
    && (forall i :: 0 <= i < |order| ==> order[i] < |order|)
    && (forall i, j :: 0 <= i < j < |order| ==> order[i] != order[j])
  }

  /** The suspended participants are the first k called. */
  ghost predicate SuspendedPrefix(m: Manager) {
    && |m.suspended| <= |m.order|
    && (forall i :: 0 <= i < |m.suspended| ==> m.suspended[i] == DownTarget(m.order, i))
  }

  ghost predicate Goes(m: Manager) {
    match m.phase
    case NoPhase => m.state == Active || m.state == Idle || m.state == ShuttingDown
    case Suspend =>
      m.state == Suspending && !m.prepared && m.cursor == |m.suspended| <= |m.order|
      && m.log == Downs(m.order, m.cursor)
    case WaitSuspend =>
      && m.state == Suspending && !m.prepared && m.cursor == |m.suspended| < |m.order|
      && m.expected == Token(m.generation, DownTarget(m.order, m.cursor), Down)
      && m.log == Downs(m.order, m.cursor) + [Called(Down, DownTarget(m.order, m.cursor))]
    case Sleep =>
      && m.state == Suspended && m.prepared && |m.suspended| == |m.order|
      && m.log == Downs(m.order, |m.order|) + [Prepared(true), Slept(true)]
    case Resume =>
      && m.state == Resuming && m.cursor <= |m.suspended|
      && ResumesTo(m.order, |m.suspended|, m.cursor, m.log)
    case WaitResume =>
      && m.state == Resuming && m.cursor < |m.suspended| && |m.log| > 0
      && m.expected == Token(m.generation, UpTarget(m), Up)
      && m.log[|m.log| - 1] == Called(Up, UpTarget(m))
      && ResumesTo(m.order, |m.suspended|, m.cursor, m.log[..|m.log| - 1])
  }

  function UpTarget(m: Manager): nat
    requires m.cursor < |m.suspended|
  {
    m.suspended[|m.suspended| - 1 - m.cursor]
  }

  ghost predicate Inv(m: Manager) {
    && IsOrder(m.order) && SuspendedPrefix(m) && Goes(m)
    && (!m.available ==> m.phase == NoPhase)
    && (m.phase == NoPhase && m.state != ShuttingDown ==> !m.prepared && m.suspended == [] && m.log == [])
    && (forall i :: 0 <= i < |m.done| ==> WholeCycle(m.order, m.done[i]))
  }

  // ----- Every step keeps the protocol -----

  /** A turning point reached with k participants suspended starts the resumes. */
  lemma TurnsBack(m: Manager, turn: seq<Event>)
    requires IsOrder(m.order) && SuspendedPrefix(m) && m.available
    requires Turn(m.order, |m.suspended|, turn) && m.log == Downs(m.order, |m.suspended|) + turn
    requires forall i :: 0 <= i < |m.done| ==> WholeCycle(m.order, m.done[i])
    ensures Inv(BeginResume(m))
  {
    assert m.log == Downs(m.order, |m.suspended|) + turn + Ups(m.order, |m.suspended|, []);
    assert ResumeLog(m.order, |m.suspended|, turn, [], m.log);
  }

  lemma WaitDownKeeps(m: Manager, ok: bool)
    requires Inv(m) && m.phase == WaitSuspend
    ensures Inv(WaitStep(m, ok))
  {
    var p := m.expected.participant;
    if ok {
      assert WaitStep(m, ok).log == Downs(m.order, m.cursor + 1);
    } else {
      var heard := Record(m.(ready := None), Reported(Down, p, false));
      assert heard.log == Downs(m.order, m.cursor) + [Called(Down, p), Reported(Down, p, false)];
      TurnsBack(heard, [Called(Down, p), Reported(Down, p, false)]);
    }
  }

  lemma WaitUpKeeps(m: Manager, ok: bool)
    requires Inv(m) && m.phase == WaitResume
    ensures Inv(WaitStep(m, ok))
  {
    ResumedOne(m, m.log[..|m.log| - 1], UpTarget(m), ok);
    assert m.log == m.log[..|m.log| - 1] + [Called(Up, UpTarget(m))];
  }

  lemma Reassociate<T>(log: seq<T>, front: seq<T>, back: seq<T>, a: T, b: T)
    requires log == front + back
    ensures log + [a] + [b] == front + (back + [a, b])
  {
  }

  /** One more resume, called and reported. */
  lemma ResumedOne(m: Manager, log: seq<Event>, p: nat, ok: bool)
    requires SuspendedPrefix(m) && m.cursor < |m.suspended| && p == UpTarget(m)
    requires ResumesTo(m.order, |m.suspended|, m.cursor, log)
    ensures ResumesTo(m.order, |m.suspended|, m.cursor + 1, log + [Called(Up, p)] + [Reported(Up, p, ok)])
  {
    var k := |m.suspended|;
    var turn, outcomes :| |outcomes| == m.cursor && ResumeLog(m.order, k, turn, outcomes, log);
    var more := outcomes + [ok];
    UpsStep(m.order, k, outcomes, ok);
    assert p == DownTarget(m.order, k - 1 - m.cursor);
    Reassociate(log, Downs(m.order, k) + turn, Ups(m.order, k, outcomes), Called(Up, p), Reported(Up, p, ok));
    assert ResumeLog(m.order, k, turn, more, log + [Called(Up, p)] + [Reported(Up, p, ok)]);
  }

  lemma UpsStep(order: seq<nat>, k: nat, outcomes: seq<bool>, ok: bool)
    requires |outcomes| < k <= |order|
    ensures var p := DownTarget(order, k - 1 - |outcomes|);
            Ups(order, k, outcomes + [ok]) == Ups(order, k, outcomes) + [Called(Up, p), Reported(Up, p, ok)]
  {
    var more := outcomes + [ok];
    assert more[..|more| - 1] == outcomes;
  }

  lemma SleepKeeps(m: Manager, a: Answer)
    requires Inv(m) && m.phase == Suspend && m.cursor == |m.order|
    ensures Inv(SleepStep(m, a))
  {
    var n := |m.order|;
    if !a.prepares {
      TurnsBack(Record(m, Prepared(false)), [Prepared(false)]);
    } else if !a.sleeps {
      var turn := [Prepared(true), Slept(false), Aborted];
      var r := Record(Record(m, Prepared(true)).(prepared := true, state := Suspended, phase := Sleep), Slept(false));
      assert Record(r, Aborted).log == Downs(m.order, n) + turn;
      TurnsBack(Record(r, Aborted), turn);
    } else {
      assert SleepStep(m, a).log == Downs(m.order, n) + [Prepared(true), Slept(true)];
    }
  }

  lemma DownPendingKeeps(m: Manager, a: Answer)
    requires Inv(m) && m.phase == Suspend && m.cursor < |m.order| && a.result == Pending
    ensures Inv(CallDown(m, a))
  {
    assert CallDown(m, a) == Invoke(m, DownTarget(m.order, m.cursor), Down, a.posts).(phase := WaitSuspend);
  }

  lemma DownFailureKeeps(m: Manager, a: Answer)
    requires Inv(m) && m.phase == Suspend && m.cursor < |m.order| && a.result == Failure
    ensures Inv(CallDown(m, a))
  {
    var p := DownTarget(m.order, m.cursor);
    var heard := Record(Invoke(m, DownTarget(m.order, m.cursor), Down, a.posts), Reported(Down, p, false));
    var turn := [Called(Down, p), Reported(Down, p, false)];
    assert heard.log == Downs(m.order, m.cursor) + turn;
    TurnsBack(heard, turn);
  }

  lemma DownSuccessKeeps(m: Manager, a: Answer)
    requires Inv(m) && m.phase == Suspend && m.cursor < |m.order| && a.result == Success
    ensures Inv(CallDown(m, a))
  {
    var p := DownTarget(m.order, m.cursor);
    var heard := Record(Invoke(m, DownTarget(m.order, m.cursor), Down, a.posts), Reported(Down, p, true));
    assert heard.log == Downs(m.order, m.cursor + 1);
    assert CallDown(m, a) == heard.(suspended := m.suspended + [p], cursor := m.cursor + 1);
  }

  lemma UpReportedKeeps(m: Manager, a: Answer)
    requires Inv(m) && m.phase == Resume && m.cursor < |m.suspended| && a.result != Pending
    ensures Inv(CallUp(m, a))
  {
    var p := UpTarget(m);
    ResumedOne(m, m.log, p, a.result == Success);
    assert CallUp(m, a).log == m.log + [Called(Up, p)] + [Reported(Up, p, a.result == Success)];
  }

  lemma UpPendingKeeps(m: Manager, r: Manager)
    requires Inv(m) && m.phase == Resume && m.cursor < |m.suspended|
    requires r == m.(expected := Token(m.generation, UpTarget(m), Up), ready := r.ready,
                     log := m.log + [Called(Up, UpTarget(m))], phase := WaitResume)
    ensures Inv(r)
  {
    assert r.log[..|r.log| - 1] == m.log;
  }

  lemma FinishKeeps(m: Manager)
    requires Inv(m) && m.phase == Resume && m.cursor == |m.suspended|
    ensures Inv(Finish(m)) && WholeCycle(m.order, m.log + [Returned])
  {
    var cycle := m.log + [Returned];
    assert cycle[..|cycle| - 1] == m.log;
    var r := Finish(m);
    assert forall i :: 0 <= i < |r.done| ==> r.done[i] == if i < |m.done| then m.done[i] else cycle;
  }

  lemma SuspendKeeps(m: Manager, a: Answer)
    requires Inv(m) && m.phase == Suspend
    ensures Inv(DriveStep(m, a).0)
  {
    if m.cursor == |m.order| {
      SleepKeeps(m, a);
    } else {
      match a.result
      case Pending => DownPendingKeeps(m, a);
      case Failure => DownFailureKeeps(m, a);
      case Success => DownSuccessKeeps(m, a);
    }
  }

  lemma ResumeKeeps(m: Manager, a: Answer)
    requires Inv(m) && m.phase == Resume
    ensures Inv(DriveStep(m, a).0)
  {
    if m.cursor == |m.suspended| {
      FinishKeeps(m);
    } else if a.result == Pending {
      UpPendingKeeps(m, CallUp(m, a));
    } else {
      UpReportedKeeps(m, a);
    }
  }

  lemma StepKeeps(m: Manager, a: Answer)
    requires Inv(m)
    ensures Inv(DriveStep(m, a).0)
  {
    match m.phase
    case WaitSuspend => if m.ready != None { WaitDownKeeps(m, m.ready.value); }
    case WaitResume => if m.ready != None { WaitUpKeeps(m, m.ready.value); }
    case Suspend => SuspendKeeps(m, a);
    case Resume => ResumeKeeps(m, a);
    case NoPhase =>
    case Sleep =>
  }

  lemma {:induction false} DriveKeeps(m: Manager, answers: seq<Answer>)
    requires Inv(m)
    ensures Inv(Drive(m, answers).0)
    decreases answers
  {
    if answers != [] {
      StepKeeps(m, answers[0]);
      DriveKeeps(DriveStep(m, answers[0]).0, answers[1..]);
    }
  }

  lemma BegunKeeps(m: Manager)
    requires Inv(m) && (m.state == Active || m.state == Idle) && m.available
    ensures Inv(Begun(m))
  {
    assert Downs(m.order, 0) == [];
  }

  lemma StartKeeps(m: Manager, blocked: bool, answers: seq<Answer>)
    requires Inv(m) && (m.state == Active || m.state == Idle)
    ensures Inv(Start(m, blocked, answers))
  {
    if m.available {
      BegunKeeps(m);
      DriveKeeps(Begun(m), answers);
    }
  }

  lemma WakeKeeps(m: Manager, input: Input)
    requires Inv(m)
    ensures Inv(Wake(m, input))
  {
    if m.state == Suspended && input.powerEvent && input.wakes {
      var turn := [Prepared(true), Slept(true), Woken(input.restores)];
      assert Record(m, Woken(input.restores)).log == Downs(m.order, |m.order|) + turn;
      TurnsBack(Record(m, Woken(input.restores)), turn);
    }
  }

  lemma LaunchKeeps(m: Manager, request: bool, input: Input)
    requires Inv(m)
    ensures Inv(Launch(m, request, input))
  {
    if m.state == Active || m.state == Idle {
      StartKeeps(m, input.blocked, input.starting);
    }
  }

  lemma RefreshKeeps(m: Manager, input: Input)
    requires Inv(m)
    ensures Inv(Refresh(m, input))
  {
  }

  lemma AttendKeeps(m: Manager, input: Input)
    requires Inv(m)
    ensures Inv(Attend(m, input))
  {
    RefreshKeeps(m, input);
    WakeKeeps(Refresh(m, input), input);
    LaunchKeeps(Wake(Refresh(m, input), input), Requested(m, input), input);
  }

  lemma UpdateKeeps(m: Manager, input: Input)
    requires Inv(m)
    ensures Inv(Update(m, input))
  {
    AttendKeeps(m, input);
    DriveKeeps(Attend(m, input), input.answers);
  }

  /** Requests, completions and ACTIVE/IDLE changes do not touch the protocol. */
  lemma TouchKeeps(m: Manager, r: Manager)
    requires Inv(m)
    requires r == m.(state := r.state, ready := r.ready, inhibited := r.inhibited,
                     suspendRequested := r.suspendRequested, activityRequested := r.activityRequested)
    requires IdleSwitch(m.state, r.state)
    ensures Inv(r)
  {
  }

  lemma ShutdownKeeps(m: Manager)
    requires Inv(m)
    ensures Inv(Apply(m, BeginShutdown))
  {
  }

  lemma ApplyKeeps(m: Manager, action: Action)
    requires Inv(m)
    ensures Inv(Apply(m, action))
  {
    match action
    case Step(input) => UpdateKeeps(m, input);
    case BeginShutdown => ShutdownKeeps(m);
    case _ => TouchKeeps(m, Touch(m, action));
  }

  /** The protocol invariant holds after any sequence of requests, posted completions,
      policy changes, updates and a shutdown, whatever callbacks and platform answer. */
  lemma {:induction false} RunKeeps(order: seq<nat>, available: bool, actions: seq<Action>)
    requires IsOrder(order)
    ensures Inv(Run(Initial(order, available), actions))
  {
    if actions != [] {
      RunKeeps(order, available, actions[..|actions| - 1]);
      ApplyKeeps(Run(Initial(order, available), actions[..|actions| - 1]), actions[|actions| - 1]);
    }
  }

  // ----- The driver loop never runs out of budget -----

  /** Turns the loop can still take before it must return. */
  function Rank(m: Manager): int {
    match m.phase
    case Suspend => 2 * |m.order| + 2 - m.cursor
    case WaitSuspend => 2 * |m.order| + 2 - m.cursor
    case Resume => |m.suspended| - m.cursor
    case WaitResume => |m.suspended| - m.cursor
    case NoPhase => 0
    case Sleep => 0
  }

  /** A step either returns in a phase the loop may return in, or lowers the rank. */
  ghost predicate Progress(m: Manager, next: Manager, stop: bool) {
    if stop then next.phase != Suspend && next.phase != Resume else Rank(next) < Rank(m)
  }

  lemma DownProgress(m: Manager, a: Answer)
    requires Inv(m) && m.phase == Suspend && m.cursor < |m.order|
    ensures Progress(m, CallDown(m, a), a.result == Pending)
  {
  }

  lemma UpProgress(m: Manager, a: Answer)
    requires Inv(m) && m.phase == Resume && m.cursor < |m.suspended|
    ensures Progress(m, CallUp(m, a), a.result == Pending)
  {
  }

  lemma SleepProgress(m: Manager, a: Answer)
    requires Inv(m) && m.phase == Suspend && m.cursor == |m.order|
    ensures Progress(m, SleepStep(m, a), a.prepares && a.sleeps)
  {
  }

  lemma WaitProgress(m: Manager, ok: bool)
    requires Inv(m) && m.Waiting()
    ensures Progress(m, WaitStep(m, ok), false)
  {
  }

  lemma StepProgress(m: Manager, a: Answer)
    requires Inv(m)
    ensures 0 <= Rank(m) <= 2 * |m.order| + 2
    ensures Progress(m, DriveStep(m, a).0, DriveStep(m, a).1)
  {
    match m.phase
    case WaitSuspend => if m.ready != None { WaitProgress(m, m.ready.value); }
    case WaitResume => if m.ready != None { WaitProgress(m, m.ready.value); }
    case Suspend => if m.cursor == |m.order| { SleepProgress(m, a); } else { DownProgress(m, a); }
    case Resume => if m.cursor < |m.suspended| { UpProgress(m, a); }
    case NoPhase =>
    case Sleep =>
  }

  /** With the source's budget the loop always returns by itself, and then either nothing is in
      progress, the platform sleeps, or one callback's completion is awaited. */
  lemma {:induction false} DriveReturns(m: Manager, answers: seq<Answer>)
    requires Inv(m) && |answers| > Rank(m)
    ensures Drive(m, answers).1
    ensures Drive(m, answers).0.phase != Suspend && Drive(m, answers).0.phase != Resume
    decreases answers
  {
    StepProgress(m, answers[0]);
    if !DriveStep(m, answers[0]).1 {
      StepKeeps(m, answers[0]);
      DriveReturns(DriveStep(m, answers[0]).0, answers[1..]);
    }
  }

  lemma BudgetSuffices(m: Manager, answers: seq<Answer>)
    requires Inv(m) && |answers| == DRIVE_BUDGET
    ensures Drive(m, answers).1
    ensures Drive(m, answers).0.phase != Suspend && Drive(m, answers).0.phase != Resume
  {
    StepProgress(m, answers[0]);
    DriveReturns(m, answers);
  }

  // ----- Completion tokens -----

  /** What the first of the completions that carries the token says. */
  function FirstFor(posts: seq<Post>, token: Token): Option<bool> {
    if posts == [] then None
    else if posts[0].token == token then Some(posts[0].ok)
    else FirstFor(posts[1..], token)
  }

  /** Of any completions only the first that carries the awaited token counts, and only when none has come in. */
  lemma {:induction false} FirstCompletionDecides(m: Manager, posts: seq<Post>)
    ensures CompleteAll(m, posts) == if m.ready == None then m.(ready := FirstFor(posts, m.expected)) else m
    decreases posts
  {
    if posts != [] {
      FirstCompletionDecides(Complete(m, posts[0]), posts[1..]);
    }
  }

  lemma {:induction false} FirstForNone(posts: seq<Post>, token: Token)
    requires forall post :: post in posts ==> post.token != token
    ensures FirstFor(posts, token) == None
  {
    if posts != [] {
      assert posts[0] in posts;
      FirstForNone(posts[1..], token);
    }
  }

  /** While a completion is awaited, any number of completions with tokens of other callbacks or cycles
      change nothing, neither now nor in a drive that follows. */
  lemma StaleTokenIgnored(m: Manager, posts: seq<Post>, answers: seq<Answer>)
    requires m.Waiting() && m.ready == None && answers != []
    requires forall post :: post in posts ==> post.token != m.expected
    ensures Drive(CompleteAll(m, posts), answers) == (m, true)
  {
    FirstCompletionDecides(m, posts);
    FirstForNone(posts, m.expected);
  }

  lemma LateDown(m: Manager, ready: Option<bool>, a: Answer)
    requires m.cursor < |m.order|
    ensures CallDown(m.(ready := ready), a) == CallDown(m, a)
  {
    var p := DownTarget(m.order, m.cursor);
    assert Expect(m.(ready := ready), p, Down) == Expect(m, p, Down);
  }

  lemma LateUp(m: Manager, ready: Option<bool>, a: Answer)
    requires m.cursor < |m.suspended|
    ensures CallUp(m.(ready := ready), a) == CallUp(m, a)
  {
    assert Expect(m.(ready := ready), UpTarget(m), Up) == Expect(m, UpTarget(m), Up);
  }

  lemma LateSleep(m: Manager, ready: Option<bool>, a: Answer)
    ensures SleepStep(m.(ready := ready), a) == SleepStep(m, a).(ready := ready)
  {
    if !a.prepares {
      LateRollback(Record(m, Prepared(false)), ready);
    } else {
      var asleep := Record(m, Prepared(true)).(prepared := true, state := Suspended, phase := Sleep);
      if !a.sleeps {
        LateRollback(Record(asleep, Slept(false)), ready);
      }
    }
  }

  lemma LateRollback(m: Manager, ready: Option<bool>)
    ensures Rollback(m.(ready := ready)) == Rollback(m).(ready := ready)
  {
  }

  /** `left` is `m` but for a completion that nobody waits for. */
  predicate LeftOver(m: Manager, left: Manager) {
    left == m || (!m.Waiting() && left == m.(ready := left.ready))
  }

  lemma LeftOverTurn(m: Manager, left: Manager, a: Answer)
    requires LeftOver(m, left)
    ensures LeftOver(DriveStep(m, a).0, DriveStep(left, a).0) && DriveStep(left, a).1 == DriveStep(m, a).1
  {
    if m.phase == Suspend {
      if m.cursor < |m.order| { LateDown(m, left.ready, a); } else { LateSleep(m, left.ready, a); }
    } else if m.phase == Resume && m.cursor < |m.suspended| {
      LateUp(m, left.ready, a);
    }
  }

  lemma {:induction false} LeftOverDrive(m: Manager, left: Manager, answers: seq<Answer>)
    requires LeftOver(m, left)
    ensures LeftOver(Drive(m, answers).0, Drive(left, answers).0) && Drive(left, answers).1 == Drive(m, answers).1
    decreases answers
  {
    if answers != [] {
      LeftOverTurn(m, left, answers[0]);
      LeftOverDrive(DriveStep(m, answers[0]).0, DriveStep(left, answers[0]).0, answers[1..]);
    }
  }

  /** Outside the waiting phases completions, late or duplicate, never show in what a whole drive does: the next
      callback starts with a clean slate. */
  lemma LateTokenForgotten(m: Manager, posts: seq<Post>, answers: seq<Answer>)
    requires !m.Waiting()
    ensures LeftOver(Drive(m, answers).0, Drive(CompleteAll(m, posts), answers).0)
    ensures Drive(CompleteAll(m, posts), answers).1 == Drive(m, answers).1
  {
    LeftOverDrive(m, CompleteAll(m, posts), answers);
  }

  // ----- What the log of a cycle says -----

  /** Participants whose suspend was reported successful, in order. */
  function Successes(log: seq<Event>): seq<nat> {
    if log == [] then []
    else
      var e := log[|log| - 1];
      Successes(log[..|log| - 1]) + if e.Reported? && e.operation == Down && e.ok then [e.participant] else []
  }

  /** Participants whose resume was called, in order. */
  function Resumes(log: seq<Event>): seq<nat> {
    if log == [] then []
    else
      var e := log[|log| - 1];
      Resumes(log[..|log| - 1]) + if e.Called? && e.operation == Up then [e.participant] else []
  }

  function Reverse(s: seq<nat>): (r: seq<nat>)
    ensures |r| == |s| && forall i :: 0 <= i < |r| ==> r[i] == s[|s| - 1 - i]
  {
    seq(|s|, i requires 0 <= i < |s| => s[|s| - 1 - i])
  }

  lemma {:induction false} LogsConcatenate(a: seq<Event>, b: seq<Event>)
    ensures Successes(a + b) == Successes(a) + Successes(b)
    ensures Resumes(a + b) == Resumes(a) + Resumes(b)
  {
    if b == [] {
      assert a + b == a;
    } else {
      assert (a + b)[..|a + b| - 1] == a + b[..|b| - 1];
      LogsConcatenate(a, b[..|b| - 1]);
    }
  }

  lemma PairLogs(x: Event, y: Event)
    ensures Successes([x, y]) == Successes([x]) + Successes([y])
    ensures Resumes([x, y]) == Resumes([x]) + Resumes([y])
  {
    assert [x, y] == [x] + [y];
    LogsConcatenate([x], [y]);
  }

  lemma {:induction false} DownsLog(order: seq<nat>, k: nat)
    requires k <= |order|
    ensures Successes(Downs(order, k)) == Reverse(order)[..k]
    ensures Resumes(Downs(order, k)) == []
  {
    if k > 0 {
      DownsLog(order, k - 1);
      var p := DownTarget(order, k - 1);
      LogsConcatenate(Downs(order, k - 1), [Called(Down, p), Reported(Down, p, true)]);
      PairLogs(Called(Down, p), Reported(Down, p, true));
      assert Reverse(order)[..k] == Reverse(order)[..k - 1] + [p];
    }
  }

  lemma {:induction false} UpsLog(order: seq<nat>, k: nat, outcomes: seq<bool>)
    requires |outcomes| <= k <= |order|
    ensures Successes(Ups(order, k, outcomes)) == []
    ensures Resumes(Ups(order, k, outcomes)) == Reverse(Reverse(order)[..k])[..|outcomes|]
  {
    if outcomes != [] {
      var n := |outcomes| - 1;
      UpsLog(order, k, outcomes[..n]);
      var p := DownTarget(order, k - 1 - n);
      LogsConcatenate(Ups(order, k, outcomes[..n]), [Called(Up, p), Reported(Up, p, outcomes[n])]);
      PairLogs(Called(Up, p), Reported(Up, p, outcomes[n]));
      var back := Reverse(Reverse(order)[..k]);
      assert back[..n + 1] == back[..n] + [p];
    }
  }

  lemma TurnLog(order: seq<nat>, k: nat, turn: seq<Event>)
    requires k <= |order| && Turn(order, k, turn)
    ensures Successes(turn) == [] && Resumes(turn) == []
    ensures forall ok :: Slept(ok) in turn ==> k == |order|
  {
    if |turn| == 2 {
      PairLogs(turn[0], turn[1]);
      assert turn == [turn[0], turn[1]];
    } else if |turn| == 3 {
      assert turn == [turn[0], turn[1]] + [turn[2]];
      LogsConcatenate([turn[0], turn[1]], [turn[2]]);
      PairLogs(turn[0], turn[1]);
    } else {
      assert turn == [] + [turn[0]];
    }
  }

  lemma ResumeLogContents(order: seq<nat>, k: nat, turn: seq<Event>, outcomes: seq<bool>, log: seq<Event>)
    requires ResumeLog(order, k, turn, outcomes, log)
    ensures Successes(log) == Reverse(order)[..k]
    ensures Resumes(log) == Reverse(Reverse(order)[..k])[..|outcomes|]
    ensures forall ok :: Slept(ok) in log ==> k == |order|
  {
    DownsLog(order, k);
    TurnLog(order, k, turn);
    UpsLog(order, k, outcomes);
    LogsConcatenate(Downs(order, k), turn);
    LogsConcatenate(Downs(order, k) + turn, Ups(order, k, outcomes));
    NoSleepInDowns(order, k);
    NoSleepInUps(order, k, outcomes);
  }

  /** A whole cycle suspends a prefix of the reverse dependency order, resumes exactly the
      successfully suspended in exact reverse, and enters sleep only with all suspended. */
  lemma CycleResumesWhatItSuspended(order: seq<nat>, cycle: seq<Event>)
    requires WholeCycle(order, cycle)
    ensures Successes(cycle) <= Reverse(order)
    ensures Resumes(cycle) == Reverse(Successes(cycle))
    ensures forall ok :: Slept(ok) in cycle ==> Successes(cycle) == Reverse(order)
  {
    var k: nat, log :| ResumesTo(order, k, k, log) && cycle == log + [Returned];
    var turn, outcomes :| |outcomes| == k && ResumeLog(order, k, turn, outcomes, log);
    ResumeLogContents(order, k, turn, outcomes, log);
    LogsConcatenate(log, [Returned]);
    assert [Returned][..0] == [];
    assert Reverse(order)[..|order|] == Reverse(order);
    assert forall ok :: Slept(ok) in cycle ==> Slept(ok) in log;
  }

  lemma {:induction false} NoSleepInDowns(order: seq<nat>, k: nat)
    requires k <= |order|
    ensures forall ok :: Slept(ok) !in Downs(order, k)
  {
    if k > 0 {
      NoSleepInDowns(order, k - 1);
    }
  }

  lemma {:induction false} NoSleepInUps(order: seq<nat>, k: nat, outcomes: seq<bool>)
    requires |outcomes| <= k <= |order|
    ensures forall ok :: Slept(ok) !in Ups(order, k, outcomes)
  {
    if outcomes != [] {
      NoSleepInUps(order, k, outcomes[..|outcomes| - 1]);
    }
  }

  /** Over every run: each cycle that returned to ACTIVE resumed exactly what it suspended, and
      while the manager is ACTIVE or IDLE nothing is left suspended. */
  lemma EveryCycleBalances(order: seq<nat>, available: bool, actions: seq<Action>)
    requires IsOrder(order)
    ensures var m := Run(Initial(order, available), actions);
            && m.order == order
            && (forall i :: 0 <= i < |m.done| ==>
                  && Successes(m.done[i]) <= Reverse(order)
                  && Resumes(m.done[i]) == Reverse(Successes(m.done[i]))
                  && (forall ok :: Slept(ok) in m.done[i] ==> Successes(m.done[i]) == Reverse(order)))
            && (m.state == Active || m.state == Idle ==> m.suspended == [] && m.phase == NoPhase)
            && (m.state == Suspended ==> |m.suspended| == |order|)
  {
    RunKeeps(order, available, actions);
    var m := Run(Initial(order, available), actions);
    forall i | 0 <= i < |m.done|
      ensures Successes(m.done[i]) <= Reverse(order) && Resumes(m.done[i]) == Reverse(Successes(m.done[i]))
      ensures forall ok :: Slept(ok) in m.done[i] ==> Successes(m.done[i]) == Reverse(order)
    {
      CycleResumesWhatItSuspended(order, m.done[i]);
    }
  }
}
