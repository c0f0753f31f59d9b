/** Host I/O jobs of platform/posix/host_io.c: any number of scope owners and workers run
    interleaved, one atomic operation or mutex section at a time.  `Next` is one such step of one
    thread, so a run is any sequence of steps and the lemmas speak of every interleaving. */
module HostIo {
  const JOB_LIMIT: nat := 16

  datatype Option<T> = None | Some(value: T)

  /** Where a scope's owner stands inside host_io_call, host_io_cancel or job_free. */
  datatype OwnerPc =
    | Idle
    | Over                                // took the counter past the limit, must step back
    | Reserved                            // took a place within the limit
    | Giveup                              // could not allocate, must give the place back
    | Publishing(job: nat)                // worker started, scope does not know the job yet
    | Delivering(job: nat)                // saw the job done, copies its data next
    | Cancelling(job: nat)                // took the job out of the scope, lock comes next
    | Freeing(job: nat, delivered: bool)  // in job_free, before dispose
    | Disposed(job: nat)
    | Freed(job: nat)

  datatype WorkerPc = NoWorker | Working | Locking | WFreeing | WDisposed | WFreed | Exited

  /** `disposals` records the flag of each dispose call, `copied` a delivery to the caller,
      `released` the decrement of the job counter. */
  datatype Job = Job(done: bool, abandoned: bool, copied: bool, disposals: seq<bool>, freed: bool,
                     released: bool, worker: WorkerPc)

  datatype Scope = Scope(job: Option<nat>, pc: OwnerPc)

  /** `bad` becomes true when any step touches a freed job. */
  datatype State = State(scopes: seq<Scope>, jobs: seq<Job>, counter: int, bad: bool)

  datatype Step =
    | Acquire(scope: nat)
    | StepBack(scope: nat)
    | Create(scope: nat, memory: bool, threadStarted: bool)
    | Publish(scope: nat)
    | Poll(scope: nat)
    | Deliver(scope: nat)
    | BeginCancel(scope: nat)
    | CancelLock(scope: nat)
    | OwnerDispose(scope: nat)
    | OwnerFree(scope: nat)
    | OwnerRelease(scope: nat)
    | Work(job: nat)
    | WorkerLock(job: nat)
    | WorkerDispose(job: nat)
    | WorkerFree(job: nat)
    | WorkerRelease(job: nat)

  // ----- The steps -----

  function SetScope(s: State, i: nat, scope: Scope): State
    requires i < |s.scopes|
  {
    s.(scopes := s.scopes[i := scope])
  }

  function Go(s: State, i: nat, pc: OwnerPc): State
    requires i < |s.scopes|
  {
    SetScope(s, i, s.scopes[i].(pc := pc))
  }

  /** Any access to a job's memory; the change applies to the job as it is. */
  function Touch(s: State, j: nat, job: Job): State
    requires j < |s.jobs|
  {
    s.(jobs := s.jobs[j := job], bad := s.bad || s.jobs[j].freed)
  }

  function OwnerStep(s: State, i: nat, step: Step): State
    requires i < |s.scopes|
  {
    var scope := s.scopes[i];
    match step
    case Acquire(_) =>
      if scope.pc != Idle || scope.job != None then s
      else Go(s.(counter := s.counter + 1), i, if s.counter >= JOB_LIMIT then Over else Reserved)
    case StepBack(_) =>
      if scope.pc != Over && scope.pc != Giveup then s else Go(s.(counter := s.counter - 1), i, Idle)
    case Create(_, memory, threadStarted) =>
      if scope.pc != Reserved then s
      else if !memory then Go(s, i, Giveup)
      else
        var job := Job(false, false, false, [], false, false, if threadStarted then Working else NoWorker);
        Go(s.(jobs := s.jobs + [job]), i, if threadStarted then Publishing(|s.jobs|) else Freeing(|s.jobs|, false))
    case Publish(_) =>
      if !scope.pc.Publishing? then s else SetScope(s, i, Scope(Some(scope.pc.job), Idle))
    case Poll(_) =>
      if scope.pc != Idle || scope.job == None || scope.job.value >= |s.jobs| then s
      else
        var j := scope.job.value;
        var read := Touch(s, j, s.jobs[j]);
        if s.jobs[j].done then Go(read, i, Delivering(j)) else read
    case Deliver(_) =>
      if !scope.pc.Delivering? || scope.pc.job >= |s.jobs| then s
      else
        var j := scope.pc.job;
        SetScope(Touch(s, j, s.jobs[j].(copied := true)), i, Scope(None, Freeing(j, true)))
    case BeginCancel(_) =>
      if scope.pc != Idle || scope.job == None then s
      else SetScope(s, i, Scope(None, Cancelling(scope.job.value)))
    case CancelLock(_) =>
      if !scope.pc.Cancelling? || scope.pc.job >= |s.jobs| then s
      else
        var j := scope.pc.job;
        Go(Touch(s, j, s.jobs[j].(abandoned := true)), i, if s.jobs[j].done then Freeing(j, false) else Idle)
    case OwnerDispose(_) =>
      if !scope.pc.Freeing? || scope.pc.job >= |s.jobs| then s
      else
        var j := scope.pc.job;
        Go(Touch(s, j, s.jobs[j].(disposals := s.jobs[j].disposals + [scope.pc.delivered])), i, Disposed(j))
    case OwnerFree(_) =>
      if !scope.pc.Disposed? || scope.pc.job >= |s.jobs| then s
      else Go(Touch(s, scope.pc.job, s.jobs[scope.pc.job].(freed := true)), i, Freed(scope.pc.job))
    case OwnerRelease(_) =>
      if !scope.pc.Freed? || scope.pc.job >= |s.jobs| then s
      else
        var j := scope.pc.job;
        Go(s.(counter := s.counter - 1, jobs := s.jobs[j := s.jobs[j].(released := true)]), i, Idle)
    case _ => s
  }

  function WorkerStep(s: State, j: nat, step: Step): State
    requires j < |s.jobs|
  {
    var job := s.jobs[j];
    match step
    case Work(_) =>
      if job.worker != Working then s else Touch(s, j, job.(worker := Locking))
    case WorkerLock(_) =>
      if job.worker != Locking then s
      else Touch(s, j, job.(done := true, worker := if job.abandoned then WFreeing else Exited))
    case WorkerDispose(_) =>
      if job.worker != WFreeing then s
      else Touch(s, j, job.(disposals := job.disposals + [false], worker := WDisposed))
    case WorkerFree(_) =>
      if job.worker != WDisposed then s else Touch(s, j, job.(freed := true, worker := WFreed))
    case WorkerRelease(_) =>
      if job.worker != WFreed then s
      else s.(counter := s.counter - 1, jobs := s.jobs[j := job.(released := true, worker := Exited)])
    case _ => s
  }

  function Next(s: State, step: Step): State {
    if step.Work? || step.WorkerLock? || step.WorkerDispose? || step.WorkerFree? || step.WorkerRelease? then
      if step.job < |s.jobs| then WorkerStep(s, step.job, step) else s
    else if step.scope < |s.scopes| then OwnerStep(s, step.scope, step)
    else s
  }

  function Run(s: State, steps: seq<Step>): State {
    if steps == [] then s else Next(Run(s, steps[..|steps| - 1]), steps[|steps| - 1])
  }

  function Initial(scopes: nat): State {
    State(seq(scopes, _ => Scope(None, Idle)), [], 0, false)
  }

  // ----- The invariant -----

  /** The job a scope's owner is responsible for, if any. */
  function Held(scope: Scope): Option<nat> {
    if scope.job.Some? then scope.job
    else match scope.pc
      case Publishing(j) => Some(j)
      case Delivering(j) => Some(j)
      case Cancelling(j) => Some(j)
      case Freeing(j, _) => Some(j)
      case Disposed(j) => Some(j)
      case Freed(j) => Some(j)
      case _ => None
  }

  predicate ScopeOk(scope: Scope) {
    && (scope.job.Some? ==> scope.pc == Idle || scope.pc == Delivering(scope.job.value))
    && (scope.pc.Delivering? ==> scope.job == Some(scope.pc.job))
  }

  /** What a held job looks like, by what its holder is about to do. */
  predicate HeldOk(pc: OwnerPc, job: Job) {
    && !job.released
    && match pc
       case Freeing(_, delivered) =>
         !job.freed && job.disposals == [] && job.copied == delivered
         && (job.worker == Exited || job.worker == NoWorker)
       case Disposed(_) =>
         !job.freed && job.disposals == [job.copied] && (job.worker == Exited || job.worker == NoWorker)
       case Freed(_) =>
         job.freed && job.disposals == [job.copied] && (job.worker == Exited || job.worker == NoWorker)
       case _ =>
         && !job.freed && job.disposals == [] && !job.copied && !job.abandoned
         && (job.worker == Working || job.worker == Locking || job.worker == Exited)
         && (job.done <==> job.worker == Exited) && (pc.Delivering? ==> job.done)
  }

  /** A job no owner holds: its worker frees it, or it is gone for good. */
  predicate LooseOk(job: Job) {
    match job.worker
    case Working => job.abandoned && !job.done && !job.freed && !job.released && job.disposals == [] && !job.copied
    case Locking => job.abandoned && !job.done && !job.freed && !job.released && job.disposals == [] && !job.copied
    case WFreeing => !job.freed && !job.released && job.disposals == [] && !job.copied
    case WDisposed => !job.freed && !job.released && job.disposals == [false] && !job.copied
    case WFreed => job.freed && !job.released && job.disposals == [false] && !job.copied
    case Exited => job.freed && job.released && job.disposals == [job.copied]
    case NoWorker => job.freed && job.released && job.disposals == [job.copied]
  }

  ghost predicate HeldBy(scopes: seq<Scope>, i: int, j: int) {
    0 <= i < |scopes| && Held(scopes[i]).Some? && Held(scopes[i]).value == j
  }

  predicate HasReservation(scope: Scope) {
    scope.pc == Reserved || scope.pc == Giveup
  }

  predicate Overshot(scope: Scope) {
    scope.pc == Over
  }

  predicate Unreleased(job: Job) {
    !job.released
  }

  predicate Alive(job: Job) {
    !job.freed
  }

  function Count<T>(s: seq<T>, p: T -> bool): nat {
    if s == [] then 0 else Count(s[..|s| - 1], p) + if p(s[|s| - 1]) then 1 else 0
  }

  function One(b: bool): nat {
    if b then 1 else 0
  }

  /** The counter holds one unit per place taken, and at most JOB_LIMIT of them are within the limit. */
  ghost predicate Counted(s: State) {
    && s.counter == Count(s.scopes, HasReservation) + Count(s.scopes, Overshot) + Count(s.jobs, Unreleased)
    && Count(s.scopes, HasReservation) + Count(s.jobs, Unreleased) <= JOB_LIMIT
  }

  /** Each job is either held by exactly one owner, in order for what that owner is about to do,
      or held by none and in order by itself. */
  ghost predicate Owned(scopes: seq<Scope>, jobs: seq<Job>) {
    && (forall i :: 0 <= i < |scopes| ==> ScopeOk(scopes[i]))
    && (forall i, j :: HeldBy(scopes, i, j) ==> j < |jobs| && HeldOk(scopes[i].pc, jobs[j]))
    && (forall i, k, j :: HeldBy(scopes, i, j) && HeldBy(scopes, k, j) ==> i == k)
    && (forall j :: 0 <= j < |jobs| ==> LooseOk(jobs[j]) || exists i :: HeldBy(scopes, i, j))
  }

  ghost predicate Inv(s: State) {
    !s.bad && Counted(s) && Owned(s.scopes, s.jobs)
  }

  // ----- Counting -----

  lemma {:induction false} CountUpdate<T>(s: seq<T>, i: nat, x: T, p: T -> bool)
    requires i < |s|
    ensures Count(s[i := x], p) + One(p(s[i])) == Count(s, p) + One(p(x))
  {
    var n := |s| - 1;
    if i < n {
      assert s[i := x][..n] == s[..n][i := x];
      CountUpdate(s[..n], i, x, p);
    } else {
      assert s[i := x][..n] == s[..n];
    }
  }

  lemma CountAppend<T>(s: seq<T>, x: T, p: T -> bool)
    ensures Count(s + [x], p) == Count(s, p) + One(p(x))
  {
    assert (s + [x])[..|s|] == s;
  }

  lemma {:induction false} CountLess<T>(s: seq<T>, p: T -> bool, q: T -> bool)
    requires forall x :: x in s && p(x) ==> q(x)
    ensures Count(s, p) <= Count(s, q)
  {
    if s != [] {
      CountLess(s[..|s| - 1], p, q);
    }
  }

  /** A step of one owner that keeps every place it has. */
  lemma ScopeCounts(s: State, i: nat, scope: Scope)
    requires i < |s.scopes| && Counted(s)
    requires HasReservation(scope) == HasReservation(s.scopes[i]) && Overshot(scope) == Overshot(s.scopes[i])
    ensures Counted(SetScope(s, i, scope))
  {
    CountUpdate(s.scopes, i, scope, HasReservation);
    CountUpdate(s.scopes, i, scope, Overshot);
  }

  lemma JobCounts(s: State, j: nat, job: Job)
    requires j < |s.jobs| && Counted(s) && job.released == s.jobs[j].released
    ensures Counted(s.(jobs := s.jobs[j := job]))
  {
    CountUpdate(s.jobs, j, job, Unreleased);
  }

  // ----- Responsibility -----

  /** An owner acts on the job it holds: it keeps it, or lets go of a job that is then in order. */
  lemma OwnerActs(scopes: seq<Scope>, jobs: seq<Job>, i: nat, scope: Scope, j: nat, job: Job)
    requires Owned(scopes, jobs) && HeldBy(scopes, i, j) && j < |jobs| && ScopeOk(scope)
    requires (Held(scope) == Some(j) && HeldOk(scope.pc, job)) || (Held(scope) == None && LooseOk(job))
    ensures Owned(scopes[i := scope], jobs[j := job])
  {
    var scopes', jobs' := scopes[i := scope], jobs[j := job];
    forall k, h | HeldBy(scopes', k, h) ensures h < |jobs'| && HeldOk(scopes'[k].pc, jobs'[h]) {
      assert k != i ==> HeldBy(scopes, k, h);
    }
    forall k, l, h | HeldBy(scopes', k, h) && HeldBy(scopes', l, h) ensures k == l {
      assert k != i ==> HeldBy(scopes, k, h);
      assert l != i ==> HeldBy(scopes, l, h);
    }
    forall h | 0 <= h < |jobs'| ensures LooseOk(jobs'[h]) || exists k :: HeldBy(scopes', k, h) {
      if h == j {
        assert Held(scope) == Some(j) ==> HeldBy(scopes', i, j);
      } else if !LooseOk(jobs'[h]) {
        var k :| HeldBy(scopes, k, h);
        assert HeldBy(scopes', k, h);
      }
    }
  }

  /** A worker acts on its own job without breaking what the job's holder relies on. */
  lemma WorkerActs(scopes: seq<Scope>, jobs: seq<Job>, j: nat, job: Job)
    requires Owned(scopes, jobs) && j < |jobs|
    requires forall i :: HeldBy(scopes, i, j) ==> HeldOk(scopes[i].pc, job)
    requires LooseOk(jobs[j]) ==> LooseOk(job) || exists i :: HeldBy(scopes, i, j)
    ensures Owned(scopes, jobs[j := job])
  {
    var jobs' := jobs[j := job];
    forall h | 0 <= h < |jobs'| ensures LooseOk(jobs'[h]) || exists k :: HeldBy(scopes, k, h) {
      assert LooseOk(jobs[h]) || exists k :: HeldBy(scopes, k, h);
    }
  }

  /** An owner that holds nothing goes on holding nothing. */
  lemma IdleOwnerActs(scopes: seq<Scope>, jobs: seq<Job>, i: nat, scope: Scope)
    requires Owned(scopes, jobs) && i < |scopes| && Held(scopes[i]) == None && Held(scope) == None && ScopeOk(scope)
    ensures Owned(scopes[i := scope], jobs)
  {
    var scopes' := scopes[i := scope];
    forall k, h ensures HeldBy(scopes', k, h) <==> HeldBy(scopes, k, h) {
    }
    forall h | 0 <= h < |jobs| ensures LooseOk(jobs[h]) || exists k :: HeldBy(scopes', k, h) {
      if !LooseOk(jobs[h]) {
        var k :| HeldBy(scopes, k, h);
        assert HeldBy(scopes', k, h);
      }
    }
  }

  /** An owner takes up a job it has just created. */
  lemma OwnerCreates(scopes: seq<Scope>, jobs: seq<Job>, i: nat, scope: Scope, job: Job)
    requires Owned(scopes, jobs) && i < |scopes| && Held(scopes[i]) == None
    requires Held(scope) == Some(|jobs|) && HeldOk(scope.pc, job) && ScopeOk(scope)
    ensures Owned(scopes[i := scope], jobs + [job])
  {
    var scopes', jobs' := scopes[i := scope], jobs + [job];
    forall k, h | HeldBy(scopes', k, h) ensures h < |jobs'| && HeldOk(scopes'[k].pc, jobs'[h]) {
      assert k != i ==> HeldBy(scopes, k, h);
    }
    forall k, l, h | HeldBy(scopes', k, h) && HeldBy(scopes', l, h) ensures k == l {
      assert k != i ==> HeldBy(scopes, k, h);
      assert l != i ==> HeldBy(scopes, l, h);
    }
    forall h | 0 <= h < |jobs'| ensures LooseOk(jobs'[h]) || exists k :: HeldBy(scopes', k, h) {
      if h == |jobs| {
        assert HeldBy(scopes', i, h);
      } else if !LooseOk(jobs'[h]) {
        var k :| HeldBy(scopes, k, h);
        assert HeldBy(scopes', k, h);
      }
    }
  }

  // ----- Every step of every thread keeps the invariant -----

  lemma AcquireKeeps(s: State, i: nat)
    requires Inv(s) && i < |s.scopes|
    ensures Inv(OwnerStep(s, i, Acquire(i)))
  {
    var scope := s.scopes[i];
    if scope.pc == Idle && scope.job == None {
      var pc := if s.counter >= JOB_LIMIT then Over else Reserved;
      IdleOwnerActs(s.scopes, s.jobs, i, scope.(pc := pc));
      CountUpdate(s.scopes, i, scope.(pc := pc), HasReservation);
      CountUpdate(s.scopes, i, scope.(pc := pc), Overshot);
    }
  }

  lemma StepBackKeeps(s: State, i: nat)
    requires Inv(s) && i < |s.scopes|
    ensures Inv(OwnerStep(s, i, StepBack(i)))
  {
    var scope := s.scopes[i];
    if scope.pc == Over || scope.pc == Giveup {
      IdleOwnerActs(s.scopes, s.jobs, i, scope.(pc := Idle));
      CountUpdate(s.scopes, i, scope.(pc := Idle), HasReservation);
      CountUpdate(s.scopes, i, scope.(pc := Idle), Overshot);
    }
  }

  /** The place an owner reserved becomes the place of its new job. */
  lemma CreatedCounts(s: State, i: nat, scope: Scope, job: Job)
    requires Counted(s) && i < |s.scopes| && s.scopes[i].pc == Reserved && !HasReservation(scope) && !Overshot(scope)
    requires !job.released
    ensures Counted(s.(scopes := s.scopes[i := scope], jobs := s.jobs + [job]))
  {
    CountUpdate(s.scopes, i, scope, HasReservation);
    CountUpdate(s.scopes, i, scope, Overshot);
    CountAppend(s.jobs, job, Unreleased);
  }

  lemma CreateKeeps(s: State, i: nat, memory: bool, threadStarted: bool)
    requires Inv(s) && i < |s.scopes|
    ensures Inv(OwnerStep(s, i, Create(i, memory, threadStarted)))
  {
    var scope := s.scopes[i];
    if scope.pc == Reserved {
      if memory {
        var job := Job(false, false, false, [], false, false, if threadStarted then Working else NoWorker);
        var pc := if threadStarted then Publishing(|s.jobs|) else Freeing(|s.jobs|, false);
        OwnerCreates(s.scopes, s.jobs, i, Scope(None, pc), job);
        CreatedCounts(s, i, Scope(None, pc), job);
      } else {
        IdleOwnerActs(s.scopes, s.jobs, i, scope.(pc := Giveup));
        ScopeCounts(s, i, scope.(pc := Giveup));
      }
    }
  }

  /** Owner steps that touch or move the held job and keep the counter. */
  lemma OwnerMoveKeeps(s: State, i: nat, scope: Scope, j: nat, job: Job)
    requires Inv(s) && HeldBy(s.scopes, i, j) && j < |s.jobs| && ScopeOk(scope)
    requires (Held(scope) == Some(j) && HeldOk(scope.pc, job)) || (Held(scope) == None && LooseOk(job))
    requires HasReservation(scope) == HasReservation(s.scopes[i]) && Overshot(scope) == Overshot(s.scopes[i])
    requires job.released == s.jobs[j].released
    ensures var r := s.(scopes := s.scopes[i := scope], jobs := s.jobs[j := job]); Owned(r.scopes, r.jobs) && Counted(r)
  {
    OwnerActs(s.scopes, s.jobs, i, scope, j, job);
    ScopeCounts(s, i, scope);
    JobCounts(SetScope(s, i, scope), j, job);
  }

  lemma PublishKeeps(s: State, i: nat)
    requires Inv(s) && i < |s.scopes|
    ensures Inv(OwnerStep(s, i, Publish(i)))
  {
    var scope := s.scopes[i];
    if scope.pc.Publishing? {
      var j := scope.pc.job;
      assert HeldBy(s.scopes, i, j);
      OwnerMoveKeeps(s, i, Scope(Some(j), Idle), j, s.jobs[j]);
      assert s.jobs[j := s.jobs[j]] == s.jobs;
    }
  }

  lemma PollKeeps(s: State, i: nat)
    requires Inv(s) && i < |s.scopes|
    ensures Inv(OwnerStep(s, i, Poll(i)))
  {
    var scope := s.scopes[i];
    if scope.pc == Idle && scope.job.Some? {
      var j := scope.job.value;
      assert HeldBy(s.scopes, i, j);
      var pc := if s.jobs[j].done then Delivering(j) else Idle;
      OwnerMoveKeeps(s, i, scope.(pc := pc), j, s.jobs[j]);
      assert s.scopes[i := scope] == s.scopes && s.jobs[j := s.jobs[j]] == s.jobs;
    }
  }

  lemma DeliverKeeps(s: State, i: nat)
    requires Inv(s) && i < |s.scopes|
    ensures Inv(OwnerStep(s, i, Deliver(i)))
  {
    var scope := s.scopes[i];
    if scope.pc.Delivering? {
      var j := scope.pc.job;
      assert HeldBy(s.scopes, i, j);
      OwnerMoveKeeps(s, i, Scope(None, Freeing(j, true)), j, s.jobs[j].(copied := true));
    }
  }

  lemma BeginCancelKeeps(s: State, i: nat)
    requires Inv(s) && i < |s.scopes|
    ensures Inv(OwnerStep(s, i, BeginCancel(i)))
  {
    var scope := s.scopes[i];
    if scope.pc == Idle && scope.job.Some? {
      var j := scope.job.value;
      assert HeldBy(s.scopes, i, j);
      OwnerMoveKeeps(s, i, Scope(None, Cancelling(j)), j, s.jobs[j]);
      assert s.jobs[j := s.jobs[j]] == s.jobs;
    }
  }

  lemma CancelLockKeeps(s: State, i: nat)
    requires Inv(s) && i < |s.scopes|
    ensures Inv(OwnerStep(s, i, CancelLock(i)))
  {
    var scope := s.scopes[i];
    if scope.pc.Cancelling? {
      var j := scope.pc.job;
      assert HeldBy(s.scopes, i, j);
      var pc := if s.jobs[j].done then Freeing(j, false) else Idle;
      OwnerMoveKeeps(s, i, scope.(pc := pc), j, s.jobs[j].(abandoned := true));
    }
  }

  lemma OwnerDisposeKeeps(s: State, i: nat)
    requires Inv(s) && i < |s.scopes|
    ensures Inv(OwnerStep(s, i, OwnerDispose(i)))
  {
    var scope := s.scopes[i];
    if scope.pc.Freeing? {
      var j := scope.pc.job;
      assert HeldBy(s.scopes, i, j);
      OwnerMoveKeeps(s, i, scope.(pc := Disposed(j)), j,
                     s.jobs[j].(disposals := s.jobs[j].disposals + [scope.pc.delivered]));
    }
  }

  lemma OwnerFreeKeeps(s: State, i: nat)
    requires Inv(s) && i < |s.scopes|
    ensures Inv(OwnerStep(s, i, OwnerFree(i)))
  {
    var scope := s.scopes[i];
    if scope.pc.Disposed? {
      var j := scope.pc.job;
      assert HeldBy(s.scopes, i, j);
      OwnerMoveKeeps(s, i, scope.(pc := Freed(j)), j, s.jobs[j].(freed := true));
    }
  }

  lemma OwnerReleaseKeeps(s: State, i: nat)
    requires Inv(s) && i < |s.scopes|
    ensures Inv(OwnerStep(s, i, OwnerRelease(i)))
  {
    var scope := s.scopes[i];
    if scope.pc.Freed? {
      var j := scope.pc.job;
      assert HeldBy(s.scopes, i, j);
      var job := s.jobs[j].(released := true);
      OwnerActs(s.scopes, s.jobs, i, scope.(pc := Idle), j, job);
      ReleasedCounts(s, i, scope.(pc := Idle), j, job);
    }
  }

  /** The place of a released job is given back. */
  lemma ReleasedCounts(s: State, i: nat, scope: Scope, j: nat, job: Job)
    requires Counted(s) && i < |s.scopes| && j < |s.jobs| && !s.jobs[j].released && job.released
    requires HasReservation(scope) == HasReservation(s.scopes[i]) && Overshot(scope) == Overshot(s.scopes[i])
    ensures Counted(s.(counter := s.counter - 1, scopes := s.scopes[i := scope], jobs := s.jobs[j := job]))
  {
    CountUpdate(s.scopes, i, scope, HasReservation);
    CountUpdate(s.scopes, i, scope, Overshot);
    CountUpdate(s.jobs, j, job, Unreleased);
  }

  lemma OwnerKeeps(s: State, i: nat, step: Step)
    requires Inv(s) && i < |s.scopes|
    ensures Inv(OwnerStep(s, i, step))
  {
    match step
    case Acquire(_) => AcquireKeeps(s, i);
    case StepBack(_) => StepBackKeeps(s, i);
    case Create(_, memory, threadStarted) => CreateKeeps(s, i, memory, threadStarted);
    case Publish(_) => PublishKeeps(s, i);
    case Poll(_) => PollKeeps(s, i);
    case Deliver(_) => DeliverKeeps(s, i);
    case BeginCancel(_) => BeginCancelKeeps(s, i);
    case CancelLock(_) => CancelLockKeeps(s, i);
    case OwnerDispose(_) => OwnerDisposeKeeps(s, i);
    case OwnerFree(_) => OwnerFreeKeeps(s, i);
    case OwnerRelease(_) => OwnerReleaseKeeps(s, i);
    case _ =>
  }

  /** A worker step keeps what the holder of its job, or nobody, relies on. */
  lemma WorkerKeeps(s: State, j: nat, step: Step)
    requires Inv(s) && j < |s.jobs|
    ensures Inv(WorkerStep(s, j, step))
  {
    var job := s.jobs[j];
    var r := WorkerStep(s, j, step);
    if r != s {
      WorkerActs(s.scopes, s.jobs, j, r.jobs[j]);
      assert r.jobs == s.jobs[j := r.jobs[j]];
      assert LooseOk(job) || exists i :: HeldBy(s.scopes, i, j);
      if step.WorkerRelease? {
        CountUpdate(s.jobs, j, r.jobs[j], Unreleased);
      } else {
        JobCounts(s, j, r.jobs[j]);
      }
    }
  }

  lemma NextKeeps(s: State, step: Step)
    requires Inv(s)
    ensures Inv(Next(s, step))
  {
    if step.Work? || step.WorkerLock? || step.WorkerDispose? || step.WorkerFree? || step.WorkerRelease? {
      if step.job < |s.jobs| {
        WorkerKeeps(s, step.job, step);
      }
    } else if step.scope < |s.scopes| {
      OwnerKeeps(s, step.scope, step);
    }
  }

  lemma InitialOk(scopes: nat)
    ensures Inv(Initial(scopes))
  {
    NoneCounted(scopes);
  }

  lemma {:induction false} NoneCounted(scopes: nat)
    ensures var s := seq(scopes, _ => Scope(None, Idle));
            Count(s, HasReservation) == 0 && Count(s, Overshot) == 0
  {
    if scopes > 0 {
      var s := seq(scopes, _ => Scope(None, Idle));
      assert s[..scopes - 1] == seq(scopes - 1, _ => Scope(None, Idle));
      NoneCounted(scopes - 1);
    }
  }

  lemma {:induction false} RunKeeps(scopes: nat, steps: seq<Step>)
    ensures Inv(Run(Initial(scopes), steps))
  {
    if steps == [] {
      InitialOk(scopes);
    } else {
      RunKeeps(scopes, steps[..|steps| - 1]);
      NextKeeps(Run(Initial(scopes), steps[..|steps| - 1]), steps[|steps| - 1]);
    }
  }

  // ----- What that means -----

  /** Under every interleaving: no freed job is ever touched; a job is disposed at most once, with
      delivered true exactly if its result was copied back, and freed only after that; and at
      most JOB_LIMIT jobs are alive. */
  lemma JobsAreSafe(scopes: nat, steps: seq<Step>)
    ensures var s := Run(Initial(scopes), steps);
            && !s.bad
            && (forall j :: 0 <= j < |s.jobs| ==>
                  && (s.jobs[j].disposals == [] || s.jobs[j].disposals == [s.jobs[j].copied])
                  && (s.jobs[j].freed ==> s.jobs[j].disposals == [s.jobs[j].copied]))
            && Count(s.jobs, Alive) <= JOB_LIMIT
  {
    RunKeeps(scopes, steps);
    var s := Run(Initial(scopes), steps);
    forall j | 0 <= j < |s.jobs|
      ensures s.jobs[j].disposals == [] || s.jobs[j].disposals == [s.jobs[j].copied]
      ensures s.jobs[j].freed ==> s.jobs[j].disposals == [s.jobs[j].copied]
      ensures s.jobs[j].released ==> s.jobs[j].freed
    {
      if !LooseOk(s.jobs[j]) {
        var i :| HeldBy(s.scopes, i, j);
      }
    }
    forall job | job in s.jobs && Alive(job) ensures Unreleased(job) {
      var j :| 0 <= j < |s.jobs| && s.jobs[j] == job;
    }
    CountLess(s.jobs, Alive, Unreleased);
  }

  /** No thread has anything left to do. */
  predicate Quiescent(s: State) {
    && (forall i :: 0 <= i < |s.scopes| ==> s.scopes[i] == Scope(None, Idle))
    && (forall j :: 0 <= j < |s.jobs| ==> s.jobs[j].worker == Exited || s.jobs[j].worker == NoWorker)
  }

  /** When every scope is empty and every worker has ended, every job ever created has been
      disposed once, freed, and its place given back. */
  lemma NothingLeaks(scopes: nat, steps: seq<Step>)
    requires Quiescent(Run(Initial(scopes), steps))
    ensures var s := Run(Initial(scopes), steps);
            && s.counter == 0
            && forall j :: 0 <= j < |s.jobs| ==>
                 s.jobs[j].freed && s.jobs[j].released && s.jobs[j].disposals == [s.jobs[j].copied]
  {
    RunKeeps(scopes, steps);
    var s := Run(Initial(scopes), steps);
    forall j | 0 <= j < |s.jobs| ensures LooseOk(s.jobs[j]) {
      assert forall i :: !HeldBy(s.scopes, i, j);
    }
    NoneMatch(s.scopes, HasReservation);
    NoneMatch(s.scopes, Overshot);
    NoneMatch(s.jobs, Unreleased);
  }

  lemma {:induction false} NoneMatch<T>(s: seq<T>, p: T -> bool)
    requires forall x :: x in s ==> !p(x)
    ensures Count(s, p) == 0
  {
    if s != [] {
      NoneMatch(s[..|s| - 1], p);
    }
  }
}
