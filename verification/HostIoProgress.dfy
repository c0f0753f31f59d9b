/** Host I/O jobs of platform/posix/host_io.c come to an end: each has a thread that can act for it, and the
    threads cannot act for ever without a new call. */
module HostIoProgress {
  import opened HostIo

  // ----- Every job has a thread that can act for it -----

  /** A step of the job's worker, or of the owner that holds the job. */
  ghost predicate ActsFor(s: State, step: Step, j: nat) {
    if step.Work? || step.WorkerLock? || step.WorkerDispose? || step.WorkerFree? || step.WorkerRelease?
    then step.job == j
    else HeldBy(s.scopes, step.scope, j)
  }

  function WorkerNext(job: Job, j: nat): Step {
    match job.worker
    case Working => Work(j)
    case Locking => WorkerLock(j)
    case WFreeing => WorkerDispose(j)
    case WDisposed => WorkerFree(j)
    case _ => WorkerRelease(j)
  }

  lemma WorkerCanMove(s: State, j: nat)
    requires j < |s.jobs| && s.jobs[j].worker != Exited && s.jobs[j].worker != NoWorker
    ensures Next(s, WorkerNext(s.jobs[j], j)) != s
  {
    assert Next(s, WorkerNext(s.jobs[j], j)).jobs[j].worker != s.jobs[j].worker;
  }

  function OwnerNext(scope: Scope, i: nat): Step {
    match scope.pc
    case Idle => Poll(i)
    case Over => StepBack(i)
    case Reserved => Create(i, false, false)
    case Giveup => StepBack(i)
    case Publishing(_) => Publish(i)
    case Delivering(_) => Deliver(i)
    case Cancelling(_) => CancelLock(i)
    case Freeing(_, _) => OwnerDispose(i)
    case Disposed(_) => OwnerFree(i)
    case Freed(_) => OwnerRelease(i)
  }

  /** An owner can go on; if all it can do is poll, its job must be done. */
  lemma OwnerCanMove(s: State, i: nat, j: nat)
    requires Inv(s) && HeldBy(s.scopes, i, j) && (s.scopes[i].pc == Idle ==> s.jobs[j].done)
    ensures Next(s, OwnerNext(s.scopes[i], i)) != s
  {
    assert Next(s, OwnerNext(s.scopes[i], i)).scopes[i].pc != s.scopes[i].pc;
  }

  /** In every reachable state each job whose place is not given back yet has a thread, its own worker or the
      owner that holds it, that can take a step for it: no job waits for ever. */
  lemma JobCanMove(scopes: nat, steps: seq<Step>, j: nat) returns (step: Step)
    requires j < |Run(Initial(scopes), steps).jobs| && !Run(Initial(scopes), steps).jobs[j].released
    ensures var s := Run(Initial(scopes), steps); ActsFor(s, step, j) && Next(s, step) != s
  {
    RunKeeps(scopes, steps);
    var s := Run(Initial(scopes), steps);
    if s.jobs[j].worker != Exited && s.jobs[j].worker != NoWorker {
      step := WorkerNext(s.jobs[j], j);
      WorkerCanMove(s, j);
    } else {
      assert !LooseOk(s.jobs[j]);
      var i :| HeldBy(s.scopes, i, j);
      step := OwnerNext(s.scopes[i], i);
      OwnerCanMove(s, i, j);
    }
  }

  // ----- The steps run out -----

  function Total<T>(s: seq<T>, weight: T -> nat): nat {
    if s == [] then 0 else Total(s[..|s| - 1], weight) + weight(s[|s| - 1])
  }

  lemma {:induction false} TotalUpdate<T>(s: seq<T>, i: nat, x: T, weight: T -> nat)
    requires i < |s|
    ensures Total(s[i := x], weight) + weight(s[i]) == Total(s, weight) + weight(x)
  {
    var n := |s| - 1;
    if i < n {
      assert s[i := x][..n] == s[..n][i := x];
      TotalUpdate(s[..n], i, x, weight);
    } else {
      assert s[i := x][..n] == s[..n];
    }
  }

  lemma TotalAppend<T>(s: seq<T>, x: T, weight: T -> nat)
    ensures Total(s + [x], weight) == Total(s, weight) + weight(x)
  {
    assert (s + [x])[..|s|] == s;
  }

  lemma {:induction false} TotalBound<T>(s: seq<T>, weight: T -> nat, most: nat)
    requires forall x :: weight(x) <= most
    ensures Total(s, weight) <= most * |s|
  {
    if s != [] {
      TotalBound(s[..|s| - 1], weight, most);
    }
  }

  /** Steps an owner can still take before its next call, with those of a worker it may start. */
  function OwnerWork(scope: Scope): nat {
    match scope.pc
    case Idle => if scope.job.Some? then 5 else 0
    case Over => 1
    case Giveup => 1
    case Reserved => 12
    case Publishing(_) => 6
    case Delivering(_) => 4
    case Cancelling(_) => 4
    case Freeing(_, _) => 3
    case Disposed(_) => 2
    case Freed(_) => 1
  }

  function WorkerWork(job: Job): nat {
    match job.worker
    case Working => 5
    case Locking => 4
    case WFreeing => 3
    case WDisposed => 2
    case WFreed => 1
    case _ => 0
  }

  function Remaining(s: State): nat {
    Total(s.scopes, OwnerWork) + Total(s.jobs, WorkerWork)
  }

  /** An owner's step that is not a new call changes nothing, or brings the end nearer. */
  lemma OwnerSpends(s: State, i: nat, step: Step)
    requires Inv(s) && i < |s.scopes| && !step.Acquire?
    ensures OwnerStep(s, i, step) == s || Remaining(OwnerStep(s, i, step)) < Remaining(s)
  {
    var r := OwnerStep(s, i, step);
    if r != s {
      if step.Create? && |r.jobs| > |s.jobs| {
        TotalUpdate(s.scopes, i, r.scopes[i], OwnerWork);
        TotalAppend(s.jobs, r.jobs[|s.jobs|], WorkerWork);
      } else {
        OwnerMoves(s, i, step, r);
      }
    }
  }

  /** Polling a job that is not done changes nothing. */
  lemma PollsQuietly(s: State, i: nat)
    requires Inv(s) && i < |s.scopes| && s.scopes[i].pc == Idle && s.scopes[i].job.Some?
    ensures HeldBy(s.scopes, i, s.scopes[i].job.value)
    ensures !s.jobs[s.scopes[i].job.value].done ==> OwnerStep(s, i, Poll(i)) == s
  {
    var j := s.scopes[i].job.value;
    assert HeldBy(s.scopes, i, j);
    assert s.jobs[j := s.jobs[j]] == s.jobs;
  }

  /** The owner's own state comes nearer the end. */
  lemma OwnerNearer(s: State, i: nat, step: Step)
    requires Inv(s) && i < |s.scopes| && !step.Acquire? && OwnerStep(s, i, step) != s
    requires |OwnerStep(s, i, step).jobs| == |s.jobs|
    ensures var r := OwnerStep(s, i, step);
            r.scopes == s.scopes[i := r.scopes[i]] && OwnerWork(r.scopes[i]) < OwnerWork(s.scopes[i])
  {
    if step.Poll? && s.scopes[i].pc == Idle && s.scopes[i].job.Some? {
      PollsQuietly(s, i);
    }
  }

  /** Its job's worker stays where it is. */
  lemma OwnerLeavesWorkers(s: State, i: nat, step: Step)
    requires Inv(s) && i < |s.scopes| && |OwnerStep(s, i, step).jobs| == |s.jobs|
    ensures var r := OwnerStep(s, i, step);
            r.jobs == s.jobs
            || (Held(s.scopes[i]).Some? && HeldBy(s.scopes, i, Held(s.scopes[i]).value)
                && var j := Held(s.scopes[i]).value;
                   && r.jobs == s.jobs[j := r.jobs[j]] && WorkerWork(r.jobs[j]) == WorkerWork(s.jobs[j]))
  {
    assert Held(s.scopes[i]).Some? ==> HeldBy(s.scopes, i, Held(s.scopes[i]).value);
  }

  lemma OwnerMoves(s: State, i: nat, step: Step, r: State)
    requires Inv(s) && i < |s.scopes| && !step.Acquire? && r == OwnerStep(s, i, step) != s && |r.jobs| == |s.jobs|
    ensures Remaining(r) < Remaining(s)
  {
    OwnerNearer(s, i, step);
    OwnerLeavesWorkers(s, i, step);
    TotalUpdate(s.scopes, i, r.scopes[i], OwnerWork);
    if r.jobs != s.jobs {
      var j := Held(s.scopes[i]).value;
      TotalUpdate(s.jobs, j, r.jobs[j], WorkerWork);
    }
  }

  lemma WorkerSpends(s: State, j: nat, step: Step)
    requires j < |s.jobs|
    ensures WorkerStep(s, j, step) == s || Remaining(WorkerStep(s, j, step)) < Remaining(s)
  {
    var r := WorkerStep(s, j, step);
    if r != s {
      assert r.jobs == s.jobs[j := r.jobs[j]];
      TotalUpdate(s.jobs, j, r.jobs[j], WorkerWork);
    }
  }

  lemma StepSpends(s: State, step: Step)
    requires Inv(s) && !step.Acquire?
    ensures Next(s, step) == s || Remaining(Next(s, step)) < Remaining(s)
  {
    if step.Work? || step.WorkerLock? || step.WorkerDispose? || step.WorkerFree? || step.WorkerRelease? {
      if step.job < |s.jobs| {
        WorkerSpends(s, step.job, step);
      }
    } else if step.scope < |s.scopes| {
      OwnerSpends(s, step.scope, step);
    }
  }

  /** How many of the steps change anything. */
  function Moves(s: State, steps: seq<Step>): nat {
    if steps == [] then 0
    else
      var before := Run(s, steps[..|steps| - 1]);
      Moves(s, steps[..|steps| - 1]) + if Next(before, steps[|steps| - 1]) == before then 0 else 1
  }

  lemma {:induction false} MovesSpend(s: State, steps: seq<Step>)
    requires Inv(s) && forall step :: step in steps ==> !step.Acquire?
    ensures Inv(Run(s, steps)) && Moves(s, steps) + Remaining(Run(s, steps)) <= Remaining(s)
  {
    if steps != [] {
      var front, last := steps[..|steps| - 1], steps[|steps| - 1];
      MovesSpend(s, front);
      NextKeeps(Run(s, front), last);
      StepSpends(Run(s, front), last);
    }
  }

  /** From every reachable state, whatever the threads do without a new call, no more than that many of their
      steps change anything. */
  lemma StepsRunOut(scopes: nat, steps: seq<Step>, more: seq<Step>)
    requires forall step :: step in more ==> !step.Acquire?
    ensures var s := Run(Initial(scopes), steps);
            Moves(s, more) <= Remaining(s) <= 12 * |s.scopes| + 5 * |s.jobs|
  {
    RunKeeps(scopes, steps);
    var s := Run(Initial(scopes), steps);
    MovesSpend(s, more);
    TotalBound(s.scopes, OwnerWork, 12);
    TotalBound(s.jobs, WorkerWork, 5);
  }

  // ----- Every job comes to its end -----

  /** No thread has a step left but a new call. */
  ghost predicate AtRest(s: State) {
    forall step: Step :: !step.Acquire? ==> Next(s, step) == s
  }

  /** An owner that is idle with a job can give it up, and any other that is not idle can go on. */
  lemma OwnerRests(s: State, i: nat)
    requires Inv(s) && i < |s.scopes|
    ensures s.scopes[i] == Scope(None, Idle) || !AtRest(s)
  {
    if s.scopes[i].pc != Idle {
      assert Held(s.scopes[i]).Some? ==> HeldBy(s.scopes, i, Held(s.scopes[i]).value);
      assert Next(s, OwnerNext(s.scopes[i], i)).scopes[i].pc != s.scopes[i].pc;
    } else if s.scopes[i].job.Some? {
      assert Next(s, BeginCancel(i)).scopes[i].pc != s.scopes[i].pc;
    }
  }

  lemma WorkerRests(s: State, j: nat)
    requires j < |s.jobs|
    ensures s.jobs[j].worker == Exited || s.jobs[j].worker == NoWorker || !AtRest(s)
  {
    if s.jobs[j].worker != Exited && s.jobs[j].worker != NoWorker {
      WorkerCanMove(s, j);
    }
  }

  /** A run that has no step left but new calls has freed and disposed of every job exactly once, with the flag
      that says whether it was delivered, and given every place back. */
  lemma RestMeansDone(scopes: nat, steps: seq<Step>)
    requires AtRest(Run(Initial(scopes), steps))
    ensures var s := Run(Initial(scopes), steps);
            && s.counter == 0
            && forall j :: 0 <= j < |s.jobs| ==>
                 s.jobs[j].released && s.jobs[j].freed && s.jobs[j].disposals == [s.jobs[j].copied]
  {
    RunKeeps(scopes, steps);
    var s := Run(Initial(scopes), steps);
    forall i | 0 <= i < |s.scopes| ensures s.scopes[i] == Scope(None, Idle) {
      OwnerRests(s, i);
    }
    forall j | 0 <= j < |s.jobs| ensures s.jobs[j].worker == Exited || s.jobs[j].worker == NoWorker {
      WorkerRests(s, j);
    }
    NothingLeaks(scopes, steps);
  }

  lemma {:induction false} RunAppend(s: State, a: seq<Step>, b: seq<Step>)
    ensures Run(s, a + b) == Run(Run(s, a), b)
  {
    if b == [] {
      assert a + b == a;
    } else {
      assert (a + b)[..|a + b| - 1] == a + b[..|b| - 1];
      RunAppend(s, a, b[..|b| - 1]);
    }
  }

  lemma {:induction false} ComesToRest(s: State) returns (more: seq<Step>)
    requires Inv(s)
    ensures AtRest(Run(s, more)) && |more| <= Remaining(s) && forall step :: step in more ==> !step.Acquire?
    decreases Remaining(s)
  {
    if AtRest(s) {
      more := [];
    } else {
      var step: Step :| !step.Acquire? && Next(s, step) != s;
      NextKeeps(s, step);
      StepSpends(s, step);
      var rest := ComesToRest(Next(s, step));
      more := [step] + rest;
      assert Run(s, [step]) == Next(Run(s, []), step);
      RunAppend(s, [step], rest);
    }
  }

  /** From every reachable state a run without a new call, of no more moves than remain, brings every job to its
      end. */
  lemma EveryJobEnds(scopes: nat, steps: seq<Step>) returns (more: seq<Step>)
    ensures |more| <= Remaining(Run(Initial(scopes), steps)) && forall step :: step in more ==> !step.Acquire?
    ensures var s := Run(Initial(scopes), steps + more);
            AtRest(s) && forall j :: 0 <= j < |s.jobs| ==> s.jobs[j].released
  {
    RunKeeps(scopes, steps);
    more := ComesToRest(Run(Initial(scopes), steps));
    RunAppend(Initial(scopes), steps, more);
    RestMeansDone(scopes, steps + more);
  }
}
