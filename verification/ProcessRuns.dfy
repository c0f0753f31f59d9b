/** What holds of the process table in every reachable state, and of the statuses parents take. */
module ProcessRuns {
  import opened ProcessSpec

  // ----- The stack -----

  ghost predicate HasSlot(slots: seq<Process>, id: nat) {
    exists i :: 0 <= i < |slots| && slots[i].occupied && slots[i].id == id
  }

  /** Identifiers on the stack grow from 0 and each has a slot; each occupied slot has a place on the stack. */
  ghost predicate Listed(slots: seq<Process>, stack: seq<nat>, nextId: nat) {
    && |stack| > 0 && stack[0] == 0
    && (forall j, k :: 0 <= j < k < |stack| ==> stack[j] < stack[k])
    && (forall k :: 0 <= k < |stack| ==> stack[k] < nextId)
    && (forall k {:trigger HasSlot(slots, stack[k])} :: 0 <= k < |stack| ==> HasSlot(slots, stack[k]))
    && (forall i :: 0 <= i < |slots| && slots[i].occupied ==> slots[i].id in stack)
    && (forall i, j :: 0 <= i < j < |slots| && slots[i].occupied && slots[j].occupied ==> slots[i].id != slots[j].id)
  }

  /** A process at place `k` of the stack: its parent is the one below, only the one in front runs or has the
      console, and only process 0 panics. */
  predicate Placed(p: Process, stack: seq<nat>, k: nat)
    requires k < |stack|
  {
    && p.parent == (if k == 0 then NOBODY else stack[k - 1])
    && (if k < |stack| - 1 then p.state == Blocked && !p.consoleOwned
        else p.state == Running || (p.state == Panicked && k == 0))
    && (p.consoleOwned ==> p.console)
  }

  ghost predicate AllPlaced(slots: seq<Process>, stack: seq<nat>) {
    forall i, k :: 0 <= i < |slots| && slots[i].occupied && 0 <= k < |stack| && slots[i].id == stack[k] ==>
      Placed(slots[i], stack, k)
  }

  ghost predicate InFront(st: State)
    requires Shaped(st)
  {
    && 0 <= st.foreground && st.slots[st.foreground].occupied
    && |st.stack| > 0 && st.slots[st.foreground].id == st.stack[|st.stack| - 1]
  }

  ghost predicate Vacant(slots: seq<Process>) {
    forall i :: 0 <= i < |slots| ==> slots[i] == EMPTY
  }

  /** With a process in front the table is the stack; without one it is empty. */
  ghost predicate Sound(st: State)
    requires Shaped(st)
  {
    && (forall i :: 0 <= i < CAPACITY && !st.slots[i].occupied ==> st.slots[i] == EMPTY)
    && if st.foreground == NOBODY then Vacant(st.slots) && st.stack == []
       else Listed(st.slots, st.stack, st.nextId) && AllPlaced(st.slots, st.stack) && InFront(st)
  }

  // ----- Taking statuses -----

  /** The end of a child whose status `parent` has not taken yet, as an index into the log, or NOBODY. */
  function Pending(log: seq<Event>, parent: nat): (r: int)
    ensures NOBODY <= r < |log|
    ensures r >= 0 ==> log[r].Ended? && log[r].parent == parent
    ensures r >= 0 ==> forall k :: r < k < |log| ==> log[k].Taken? ==> log[k].taker != parent
  {
    if log == [] then NOBODY
    else
      var e := log[|log| - 1];
      if e.Ended? && e.parent == parent then |log| - 1
      else if e.Taken? && e.taker == parent then NOBODY
      else Pending(log[..|log| - 1], parent)
  }

  /** Every status taken is that of a child of the taker that ended before, not taken since. */
  ghost predicate Honest(log: seq<Event>) {
    forall n :: 0 <= n < |log| && log[n].Taken? ==>
      var s := Pending(log[..n], log[n].taker);
      s >= 0 && log[s].status == log[n].status
  }

  /** Processes yet to be made are in no event. */
  ghost predicate Past(log: seq<Event>, nextId: nat) {
    forall n :: 0 <= n < |log| ==>
      if log[n].Ended? then log[n].parent < nextId && log[n].child < nextId else log[n].taker < nextId
  }

  /** A process has a status to take exactly when the log has one pending for it, the same one. */
  ghost predicate Delivered(slots: seq<Process>, log: seq<Event>) {
    forall i :: 0 <= i < |slots| && slots[i].occupied ==>
      var s := Pending(log, slots[i].id);
      slots[i].childStatusValid == (s >= 0) && (s >= 0 ==> slots[i].childStatus == log[s].status)
  }

  ghost predicate Inv(st: State)
    requires Shaped(st)
  {
    && Sound(st) && Honest(st.log) && Delivered(st.slots, st.log)
    && (st.foreground != NOBODY ==> Past(st.log, st.nextId))
  }

  // ----- Steps that leave the stack alone -----

  /** Two slots that differ in nothing the stack is about. */
  predicate SamePlace(p: Process, q: Process) {
    && q.occupied == p.occupied && q.id == p.id && q.parent == p.parent && q.state == p.state
    && q.console == p.console && q.consoleOwned == p.consoleOwned
  }

  lemma SlotStays(slots: seq<Process>, i: nat, q: Process, id: nat)
    requires i < |slots| && q.occupied == slots[i].occupied && q.id == slots[i].id && HasSlot(slots, id)
    ensures HasSlot(slots[i := q], id)
  {
    var j :| 0 <= j < |slots| && slots[j].occupied && slots[j].id == id;
    assert slots[i := q][j].occupied && slots[i := q][j].id == id;
  }

  lemma ListedSame(slots: seq<Process>, stack: seq<nat>, nextId: nat, i: nat, q: Process)
    requires Listed(slots, stack, nextId) && i < |slots| && q.occupied == slots[i].occupied && q.id == slots[i].id
    ensures Listed(slots[i := q], stack, nextId)
  {
    forall k | 0 <= k < |stack| ensures HasSlot(slots[i := q], stack[k]) {
      SlotStays(slots, i, q, stack[k]);
    }
  }

  lemma PlacedSame(slots: seq<Process>, stack: seq<nat>, i: nat, q: Process)
    requires AllPlaced(slots, stack) && i < |slots| && SamePlace(slots[i], q)
    ensures AllPlaced(slots[i := q], stack)
  {
    var now := slots[i := q];
    forall j, k | 0 <= j < |now| && now[j].occupied && 0 <= k < |stack| && now[j].id == stack[k]
      ensures Placed(now[j], stack, k)
    {
      assert slots[j].occupied && slots[j].id == stack[k] && Placed(slots[j], stack, k);
    }
  }

  lemma SamePlaceSound(st: State, i: nat, q: Process, now: State)
    requires Shaped(st) && Sound(st) && i < CAPACITY && st.slots[i].occupied && SamePlace(st.slots[i], q)
    requires Shaped(now) && now.slots == st.slots[i := q] && now.stack == st.stack
    requires now.foreground == st.foreground && now.nextId == st.nextId
    ensures Sound(now)
  {
    if st.foreground != NOBODY {
      ListedSame(st.slots, st.stack, st.nextId, i, q);
      PlacedSame(st.slots, st.stack, i, q);
    }
  }

  lemma FailKeeps(st: State, p: nat, cause: Cause, status: int)
    requires Shaped(st) && Inv(st) && p < CAPACITY
    ensures Inv(FailWith(st, p, cause, status))
  {
    var now := FailWith(st, p, cause, status);
    if now != st {
      SamePlaceSound(st, p, now.slots[p], now);
    }
  }

  lemma RequestKeeps(st: State, p: nat, status: int)
    requires Shaped(st) && Inv(st) && p < CAPACITY
    ensures Inv(Perform(st, p, RequestExit(status)))
  {
    var now := Perform(st, p, RequestExit(status));
    if st.foreground == p {
      SamePlaceSound(st, p, now.slots[p], now);
    }
  }

  lemma PendingStays(log: seq<Event>, e: Event, id: nat)
    requires if e.Ended? then e.parent != id else e.taker != id
    ensures Pending(log + [e], id) == Pending(log, id)
  {
    assert (log + [e])[..|log|] == log;
  }

  lemma PendingNow(log: seq<Event>, e: Event)
    ensures Pending(log + [e], if e.Ended? then e.parent else e.taker) == if e.Ended? then |log| else NOBODY
  {
  }

  lemma HonestMore(log: seq<Event>, e: Event)
    requires Honest(log)
    requires e.Taken? ==> Pending(log, e.taker) >= 0 && log[Pending(log, e.taker)].status == e.status
    ensures Honest(log + [e])
  {
    var more := log + [e];
    forall n | 0 <= n < |more| && more[n].Taken?
      ensures var s := Pending(more[..n], more[n].taker); s >= 0 && more[s].status == more[n].status
    {
      if n < |log| {
        assert more[..n] == log[..n];
      } else {
        assert more[..n] == log;
      }
    }
  }

  /** One event about a process changes what is pending for that process alone. */
  lemma DeliveredOthers(slots: seq<Process>, log: seq<Event>, i: nat, q: Process, e: Event)
    requires Delivered(slots, log) && i < |slots| && q.id == (if e.Ended? then e.parent else e.taker)
    requires forall j :: 0 <= j < |slots| && j != i && slots[j].occupied ==> slots[j].id != q.id
    requires q.childStatusValid == e.Ended? && (e.Ended? ==> q.childStatus == e.status)
    ensures Delivered(slots[i := q], log + [e])
  {
    var now, more := slots[i := q], log + [e];
    forall j | 0 <= j < |now| && now[j].occupied
      ensures var s := Pending(more, now[j].id);
              now[j].childStatusValid == (s >= 0) && (s >= 0 ==> now[j].childStatus == more[s].status)
    {
      if j == i {
        PendingNow(log, e);
      } else {
        PendingStays(log, e, slots[j].id);
      }
    }
  }

  lemma TakeKeeps(st: State, p: nat)
    requires Shaped(st) && Inv(st) && p < CAPACITY
    ensures Inv(Perform(st, p, TakeChildStatus))
  {
    var now := Perform(st, p, TakeChildStatus);
    if st.slots[p].childStatusValid {
      assert st.slots[p].occupied;
      var e := Taken(st.slots[p].id, st.slots[p].childStatus);
      SamePlaceSound(st, p, now.slots[p], now);
      HonestMore(st.log, e);
      SomeId(st, p);
      OthersDiffer(st, p);
      DeliveredOthers(st.slots, st.log, p, now.slots[p], e);
    }
  }

  lemma OthersDiffer(st: State, i: nat)
    requires Shaped(st) && Sound(st) && i < CAPACITY && st.slots[i].occupied
    ensures forall j :: 0 <= j < CAPACITY && j != i && st.slots[j].occupied ==> st.slots[j].id != st.slots[i].id
  {
    forall j | 0 <= j < CAPACITY && j != i && st.slots[j].occupied ensures st.slots[j].id != st.slots[i].id {
      IdsDiffer(st, i, j);
    }
  }

  lemma IdsDiffer(st: State, i: nat, j: nat)
    requires Shaped(st) && Sound(st) && i < CAPACITY && j < CAPACITY && i != j
    requires st.slots[i].occupied && st.slots[j].occupied
    ensures st.slots[i].id != st.slots[j].id
  {
    assert st.foreground != NOBODY;
    if i < j {
      assert st.slots[i].id != st.slots[j].id;
    } else {
      assert st.slots[j].id != st.slots[i].id;
    }
  }

  lemma SomeId(st: State, i: nat)
    requires Shaped(st) && Sound(st) && i < CAPACITY && st.slots[i].occupied
    ensures st.slots[i].id < st.nextId
  {
    assert st.slots[i].id in st.stack;
    var k :| 0 <= k < |st.stack| && st.stack[k] == st.slots[i].id;
  }

  lemma PerformKeeps(st: State, p: nat, act: Act)
    requires Shaped(st) && Inv(st) && p < CAPACITY
    ensures Inv(Perform(st, p, act))
  {
    match act {
      case RequestExit(status) => RequestKeeps(st, p, status);
      case Fail(cause, status) => FailKeeps(st, p, cause, status);
      case ForceTerminate(id, status) =>
        if Find(st.slots, id, 0) >= 0 {
          FailKeeps(st, Find(st.slots, id, 0), Forced, status);
        }
      case TakeChildStatus => TakeKeeps(st, p);
      case ReportDiagnostic(status) =>
    }
  }

  lemma PerformStays(st: State, p: nat, act: Act)
    requires Shaped(st) && p < CAPACITY
    ensures var now := Perform(st, p, act);
            now.foreground == st.foreground && now.stack == st.stack && now.nextId == st.nextId
            && forall i :: 0 <= i < CAPACITY ==> SamePlace(st.slots[i], now.slots[i])
  {
  }

  lemma {:induction false} PerformAllKeeps(st: State, p: nat, acts: seq<Act>)
    requires Shaped(st) && Inv(st) && p < CAPACITY
    ensures var now := PerformAll(st, p, acts);
            Inv(now) && now.foreground == st.foreground && now.stack == st.stack
            && forall i :: 0 <= i < CAPACITY ==> SamePlace(st.slots[i], now.slots[i])
  {
    if acts != [] {
      var before := PerformAll(st, p, acts[..|acts| - 1]);
      PerformAllKeeps(st, p, acts[..|acts| - 1]);
      PerformKeeps(before, p, acts[|acts| - 1]);
      PerformStays(before, p, acts[|acts| - 1]);
    }
  }

  // ----- Panicking and ending -----

  /** Only process 0 in front of nothing else panics. */
  lemma PanicKeeps(st: State, p: nat)
    requires Shaped(st) && Inv(st) && st.foreground == p && st.slots[p].id == 0
    ensures Inv(Panic(st, p))
  {
    var now := Panic(st, p);
    RootAlone(st);
    forall j, k | 0 <= j < CAPACITY && now.slots[j].occupied && 0 <= k < |st.stack| && now.slots[j].id == st.stack[k]
      ensures Placed(now.slots[j], st.stack, k)
    {
      assert Placed(st.slots[j], st.stack, k);
    }
    forall k | 0 <= k < |st.stack| ensures HasSlot(now.slots, st.stack[k]) {
      assert now.slots[p].occupied && now.slots[p].id == st.stack[k];
    }
  }

  lemma RootAlone(st: State)
    requires Shaped(st) && Sound(st) && st.foreground != NOBODY && st.slots[st.foreground].id == 0
    ensures |st.stack| == 1
  {
    assert st.stack[|st.stack| - 1] == st.stack[0];
  }

  /** What a resumed process keeps. */
  predicate Resumed(p: Process, q: Process) {
    && p.occupied && q.occupied && q.id == p.id && q.parent == p.parent && q.console == p.console
    && (q.state == Running || (q.state == Panicked && q.id == 0)) && (q.consoleOwned ==> q.console)
  }

  lemma PopListed(slots: seq<Process>, stack: seq<nat>, nextId: nat, c: nat, f: nat, q: Process)
    requires Listed(slots, stack, nextId) && |stack| > 1 && c < |slots| && f < |slots| && f != c
    requires slots[c].occupied && slots[c].id == stack[|stack| - 1] && Resumed(slots[f], q)
    ensures Listed(slots[c := EMPTY][f := q], stack[..|stack| - 1], nextId)
  {
    var now, less := slots[c := EMPTY][f := q], stack[..|stack| - 1];
    forall k | 0 <= k < |less| ensures HasSlot(now, less[k]) {
      assert HasSlot(slots, stack[k]);
      var j :| 0 <= j < |slots| && slots[j].occupied && slots[j].id == stack[k];
      assert now[j].occupied && now[j].id == stack[k];
    }
    forall i | 0 <= i < |now| && now[i].occupied ensures now[i].id in less {
      assert slots[i].occupied && slots[i].id in stack;
      var k :| 0 <= k < |stack| && stack[k] == slots[i].id;
      assert slots[i].id != slots[c].id by {
        if i < c {
          assert slots[i].id != slots[c].id;
        } else {
          assert slots[c].id != slots[i].id;
        }
      }
      assert less[k] == now[i].id;
    }
  }

  lemma PopPlaced(slots: seq<Process>, stack: seq<nat>, c: nat, f: nat, q: Process)
    requires AllPlaced(slots, stack) && |stack| > 1 && c < |slots| && f < |slots| && f != c
    requires slots[f].id == stack[|stack| - 2] && Resumed(slots[f], q)
    requires forall j, k :: 0 <= j < k < |stack| ==> stack[j] < stack[k]
    requires forall i :: 0 <= i < |slots| && i != f && slots[i].occupied ==> slots[i].id != slots[f].id
    ensures AllPlaced(slots[c := EMPTY][f := q], stack[..|stack| - 1])
  {
    var now, less := slots[c := EMPTY][f := q], stack[..|stack| - 1];
    forall i, k | 0 <= i < |now| && now[i].occupied && 0 <= k < |less| && now[i].id == less[k]
      ensures Placed(now[i], less, k)
    {
      assert Placed(slots[i], stack, k);
      if i == f {
        assert k == |less| - 1 by {
          assert stack[k] == stack[|stack| - 2];
        }
      } else {
        assert k != |less| - 1;
      }
    }
  }

  /** The slot of the process below the one in front. */
  lemma Below(st: State) returns (f: nat)
    requires Shaped(st) && Sound(st) && 0 <= st.foreground && st.slots[st.foreground].id != 0
    ensures |st.stack| > 1 && f < CAPACITY && f != st.foreground
    ensures st.slots[f].occupied && st.slots[f].id == st.stack[|st.stack| - 2]
    ensures Find(st.slots[st.foreground := EMPTY], st.stack[|st.stack| - 2], 0) == f
  {
    var id := st.stack[|st.stack| - 2];
    assert HasSlot(st.slots, id);
    var j :| 0 <= j < CAPACITY && st.slots[j].occupied && st.slots[j].id == id;
    var less := st.slots[st.foreground := EMPTY];
    assert less[j].occupied && less[j].id == id;
    f := Find(less, id, 0);
  }

  function ResumedAs(st: State, f: nat, status: int, granted: bool): Process
    requires Shaped(st) && f < CAPACITY
  {
    Resume(st, f, status, granted).slots[f]
  }

  lemma ResumeShape(st: State, f: nat, status: int, granted: bool)
    requires Shaped(st) && f < CAPACITY && st.slots[f].occupied && !st.slots[f].consoleOwned
    ensures var now := Resume(st, f, status, granted);
            var q := ResumedAs(st, f, status, granted);
            && Resumed(st.slots[f], q) && q.childStatusValid && q.childStatus == status
            && now.slots == st.slots[f := q] && now.stack == st.stack && now.foreground == st.foreground
            && now.nextId == st.nextId && now.log == st.log
  {
  }

  /** The end of a child, before its parent resumes. */
  function Left(st: State, c: nat, f: nat): (r: State)
    requires Shaped(st) && c < CAPACITY && f < CAPACITY
    ensures Shaped(r)
  {
    var status := st.slots[c].exitStatus;
    st.(slots := st.slots[c := EMPTY], stack := Popped(st.stack), foreground := f, lastExit := status,
        lastExitValid := true, log := st.log + [Ended(st.slots[c].id, st.slots[f].id, status)])
  }

  lemma FinishSound(st: State, f: nat, q: Process, now: State)
    requires Shaped(st) && Sound(st) && 0 <= st.foreground && st.slots[st.foreground].id != 0
    requires |st.stack| > 1 && f < CAPACITY && f != st.foreground && st.slots[f].id == st.stack[|st.stack| - 2]
    requires Resumed(st.slots[f], q)
    requires Shaped(now) && now.slots == st.slots[st.foreground := EMPTY][f := q] && now.stack == Popped(st.stack)
    requires now.foreground == f && now.nextId == st.nextId
    ensures Sound(now)
  {
    OthersDiffer(st, f);
    PopListed(st.slots, st.stack, st.nextId, st.foreground, f, q);
    PopPlaced(st.slots, st.stack, st.foreground, f, q);
  }

  lemma FinishLog(st: State, f: nat, q: Process)
    requires Shaped(st) && Inv(st) && 0 <= st.foreground && f < CAPACITY && f != st.foreground
    requires st.slots[f].occupied && q.id == st.slots[f].id && q.childStatusValid
    requires q.childStatus == st.slots[st.foreground].exitStatus
    ensures var c := st.foreground;
            var log := st.log + [Ended(st.slots[c].id, st.slots[f].id, st.slots[c].exitStatus)];
            Honest(log) && Past(log, st.nextId) && Delivered(st.slots[c := EMPTY][f := q], log)
  {
    var c := st.foreground;
    var e := Ended(st.slots[c].id, st.slots[f].id, st.slots[c].exitStatus);
    SomeId(st, c);
    SomeId(st, f);
    HonestMore(st.log, e);
    OthersDiffer(st, f);
    assert Delivered(st.slots[c := EMPTY], st.log);
    DeliveredOthers(st.slots[c := EMPTY], st.log, f, q, e);
  }

  lemma FinishIs(st: State, f: nat, granted: bool)
    requires Shaped(st) && 0 <= st.foreground && |st.stack| > 1 && f < CAPACITY && f != st.foreground
    requires Find(st.slots[st.foreground := EMPTY], st.stack[|st.stack| - 2], 0) == f
    ensures Finish(st, st.foreground, granted)
         == Resume(Left(st, st.foreground, f), f, st.slots[st.foreground].exitStatus, granted)
  {
    var stack := Popped(st.stack);
    assert stack[|stack| - 1] == st.stack[|st.stack| - 2];
    assert st.slots[st.foreground := EMPTY][f] == st.slots[f];
  }

  lemma FinishKeeps(st: State, c: nat, granted: bool)
    requires Shaped(st) && Inv(st) && st.foreground == c && st.slots[c].id != 0
    ensures Inv(Finish(st, c, granted)) && Finish(st, c, granted).foreground != NOBODY
  {
    var f := Below(st);
    var status := st.slots[c].exitStatus;
    var left := Left(st, c, f);
    FinishIs(st, f, granted);
    assert Placed(st.slots[f], st.stack, |st.stack| - 2);
    ResumeShape(left, f, status, granted);
    var q := ResumedAs(left, f, status, granted);
    FinishSound(st, f, q, Finish(st, c, granted));
    FinishLog(st, f, q);
  }

  // ----- Launching -----

  lemma {:induction false} PendingFuture(log: seq<Event>, id: nat)
    requires Past(log, id)
    ensures Pending(log, id) == NOBODY
    decreases |log|
  {
    if log != [] {
      PendingFuture(log[..|log| - 1], id);
    }
  }

  lemma PushListed(slots: seq<Process>, stack: seq<nat>, c: nat, f: nat, child: Process, parent: Process, id: nat)
    requires Listed(slots, stack, id) && c < |slots| && f < |slots| && f != c && !slots[c].occupied
    requires child.occupied && child.id == id
    requires slots[f].occupied && parent.occupied && parent.id == slots[f].id
    ensures Listed(slots[c := child][f := parent], stack + [id], id + 1)
  {
    var now, more := slots[c := child][f := parent], stack + [id];
    forall k | 0 <= k < |more| ensures HasSlot(now, more[k]) {
      if k == |stack| {
        assert now[c].occupied && now[c].id == more[k];
      } else {
        assert HasSlot(slots, stack[k]);
        var j :| 0 <= j < |slots| && slots[j].occupied && slots[j].id == stack[k];
        assert now[j].occupied && now[j].id == more[k];
      }
    }
    forall i | 0 <= i < |now| && now[i].occupied ensures now[i].id in more && (i != c ==> now[i].id < id) {
      if i == c {
        assert more[|stack|] == id;
      } else {
        assert slots[i].id in stack;
        var k :| 0 <= k < |stack| && stack[k] == slots[i].id;
        assert more[k] == now[i].id;
      }
    }
  }

  lemma PushPlaced(slots: seq<Process>, stack: seq<nat>, c: nat, f: nat, child: Process, parent: Process, id: nat)
    requires AllPlaced(slots, stack) && stack != [] && c < |slots| && f < |slots| && f != c
    requires forall k :: 0 <= k < |stack| ==> stack[k] < id
    requires child.id == id && child.parent == slots[f].id && child.state == Running && !child.consoleOwned
    requires slots[f].occupied && slots[f].id == stack[|stack| - 1]
    requires forall i :: 0 <= i < |slots| && i != f && slots[i].occupied ==> slots[i].id != slots[f].id
    requires parent == slots[f].(state := Blocked, consoleOwned := false)
    requires forall i :: 0 <= i < |slots| && slots[i].occupied ==> slots[i].id < id
    ensures AllPlaced(slots[c := child][f := parent], stack + [id])
  {
    var now, more := slots[c := child][f := parent], stack + [id];
    forall i, k | 0 <= i < |now| && now[i].occupied && 0 <= k < |more| && now[i].id == more[k]
      ensures Placed(now[i], more, k)
    {
      if i == c {
        assert k == |stack|;
      } else {
        assert now[i].id == slots[i].id < id;
        assert k < |stack| && Placed(slots[i], stack, k);
      }
    }
  }

  lemma PushSound(st: State, c: nat, app: Application)
    requires Shaped(st) && Sound(st) && 0 <= st.foreground
    requires c < CAPACITY && !st.slots[c].occupied
    ensures Sound(Pushed(st, c, app))
  {
    var f := st.foreground;
    var child := NewProcess(st.nextId, st.slots[f].id, app);
    var parent := st.slots[f].(state := Blocked, consoleOwned := false);
    OthersDiffer(st, f);
    PushListed(st.slots, st.stack, c, f, child, parent, st.nextId);
    forall i | 0 <= i < CAPACITY && st.slots[i].occupied ensures st.slots[i].id < st.nextId {
      SomeId(st, i);
    }
    PushPlaced(st.slots, st.stack, c, f, child, parent, st.nextId);
  }

  lemma PushKeeps(st: State, c: nat, app: Application)
    requires Shaped(st) && Inv(st) && 0 <= st.foreground
    requires c < CAPACITY && !st.slots[c].occupied
    ensures Inv(Pushed(st, c, app)) && Pushed(st, c, app).slots[c].id != 0
  {
    PushSound(st, c, app);
    SomeId(st, st.foreground);
    PendingFuture(st.log, st.nextId);
  }

  lemma ConsolePlaced(slots: seq<Process>, stack: seq<nat>, c: nat, granted: bool)
    requires AllPlaced(slots, stack) && stack != [] && c < |slots| && slots[c].id == stack[|stack| - 1]
    requires forall j, k :: 0 <= j < k < |stack| ==> stack[j] < stack[k]
    ensures AllPlaced(slots[c := WithConsole(slots[c], granted)], stack)
  {
    var now := slots[c := WithConsole(slots[c], granted)];
    forall i, k | 0 <= i < |now| && now[i].occupied && 0 <= k < |stack| && now[i].id == stack[k]
      ensures Placed(now[i], stack, k)
    {
      assert Placed(slots[i], stack, k);
      assert i == c ==> k == |stack| - 1;
    }
  }

  lemma ConsoleKeeps(st: State, c: nat, granted: bool)
    requires Shaped(st) && Inv(st) && st.foreground == c
    ensures Inv(Put(st, c, WithConsole(st.slots[c], granted)))
  {
    ListedSame(st.slots, st.stack, st.nextId, c, WithConsole(st.slots[c], granted));
    ConsolePlaced(st.slots, st.stack, c, granted);
  }

  lemma StatusKeeps(st: State, c: nat, status: int)
    requires Shaped(st) && Inv(st) && c < CAPACITY && st.slots[c].occupied
    ensures Inv(Put(st, c, st.slots[c].(exitStatus := status)))
  {
    var q := st.slots[c].(exitStatus := status);
    SamePlaceSound(st, c, q, Put(st, c, q));
  }

  lemma EnterKeeps(st: State, c: nat, app: Application, granted: bool, regranted: bool)
    requires Shaped(st) && Inv(st) && st.foreground == c && st.slots[c].id != 0
    ensures Inv(Enter(st, c, app, granted, regranted).0) && Enter(st, c, app, granted, regranted).0.foreground != NOBODY
  {
    if Denied(st.slots[c], granted) {
      StatusKeeps(st, c, -1);
      FinishKeeps(Put(st, c, st.slots[c].(exitStatus := -1)), c, regranted);
    } else {
      var ready := Put(st, c, WithConsole(st.slots[c], granted));
      ConsoleKeeps(st, c, granted);
      PerformAllKeeps(ready, c, app.entry);
      var entered := PerformAll(ready, c, app.entry);
      assert SamePlace(ready.slots[c], entered.slots[c]);
      if !app.started {
        StatusKeeps(entered, c, -1);
        FinishKeeps(Put(entered, c, entered.slots[c].(exitStatus := -1)), c, regranted);
      } else if entered.slots[c].exitRequested {
        FinishKeeps(entered, c, regranted);
      }
    }
  }

  lemma LaunchChildKeeps(st: State, p: nat, app: Application, granted: bool, regranted: bool)
    requires Shaped(st) && Inv(st) && p < CAPACITY
    ensures Inv(LaunchChild(st, p, app, granted, regranted).0)
    ensures st.foreground != NOBODY ==> LaunchChild(st, p, app, granted, regranted).0.foreground != NOBODY
  {
    var c := FreeSlot(st.slots, 0);
    if st.foreground == p && st.slots[p].state == Running && c != NOBODY && |st.stack| < CAPACITY {
      PushKeeps(st, c, app);
      EnterKeeps(Pushed(st, c, app), c, app, granted, regranted);
    }
  }

  lemma {:induction false} RunStepsKeeps(st: State, p: nat, steps: seq<Step>)
    requires Shaped(st) && Inv(st) && p < CAPACITY && st.foreground != NOBODY
    ensures Inv(RunSteps(st, p, steps)) && RunSteps(st, p, steps).foreground != NOBODY
  {
    if steps != [] {
      var before := RunSteps(st, p, steps[..|steps| - 1]);
      RunStepsKeeps(st, p, steps[..|steps| - 1]);
      match steps[|steps| - 1] {
        case Do(act) =>
          PerformKeeps(before, p, act);
          PerformStays(before, p, act);
        case Exec(app, granted, regranted) => LaunchChildKeeps(before, p, app, granted, regranted);
      }
    }
  }

  lemma UpdateKeeps(st: State, steps: seq<Step>, granted: bool)
    requires Shaped(st) && Inv(st)
    ensures Inv(Update(st, steps, granted))
  {
    if st.foreground != NOBODY {
      var p := st.foreground;
      var ran := st;
      if st.slots[p].state == Running && !st.slots[p].exitRequested {
        ran := RunSteps(st, p, steps);
        RunStepsKeeps(st, p, steps);
      }
      if ran.slots[p].exitRequested {
        if ran.slots[ran.foreground].id == 0 {
          PanicKeeps(ran, ran.foreground);
        } else {
          FinishKeeps(ran, ran.foreground, granted);
        }
      }
    }
  }

  /** Process 0 alone in an empty table. */
  lemma RootUp(slot: nat, process: Process, st: State)
    requires slot < CAPACITY && Shaped(st) && st.slots == NoProcesses(CAPACITY)[slot := process]
    requires process.occupied && process.id == 0 && process.parent == NOBODY && process.state == Running
    requires (process.consoleOwned ==> process.console) && !process.childStatusValid
    requires st.stack == [0] && st.foreground == slot && st.nextId == 1 && st.log == []
    ensures Inv(st)
  {
    assert HasSlot(st.slots, 0) by {
      assert st.slots[slot].occupied && st.slots[slot].id == 0;
    }
  }

  lemma OnlyZero(st: State, i: nat)
    requires Shaped(st) && Sound(st) && st.foreground != NOBODY && st.stack == [0] && i < CAPACITY
    ensures st.slots[i].occupied ==> st.slots[i].id == 0
  {
    assert st.slots[i].occupied ==> st.slots[i].id in st.stack;
  }

  /** Process 0 enters: the table is empty again, or process 0 stays in front, panicked if it asked to exit. */
  lemma RootEnters(up: State, slot: nat, app: Application)
    requires Shaped(up) && Inv(up) && up.foreground == slot && up.slots[slot].id == 0 && up.stack == [0]
    ensures var entered := PerformAll(up, slot, app.entry);
            && Inv(Put(entered, slot, EMPTY).(stack := [], foreground := NOBODY, lastExit := -1, lastExitValid := true))
            && Inv(if entered.slots[slot].exitRequested then Panic(entered, slot) else entered)
  {
    var entered := PerformAll(up, slot, app.entry);
    PerformAllKeeps(up, slot, app.entry);
    assert SamePlace(up.slots[slot], entered.slots[slot]);
    if entered.slots[slot].exitRequested {
      PanicKeeps(entered, slot);
    }
    forall i | 0 <= i < CAPACITY && i != slot ensures entered.slots[i] == EMPTY {
      OnlyZero(entered, i);
      if entered.slots[i].occupied {
        IdsDiffer(entered, i, slot);
      }
    }
  }

  lemma LaunchRootKeeps(st: State, app: Application, granted: bool)
    requires Shaped(st) && Inv(st)
    ensures Inv(LaunchRoot(st, app, granted).0)
  {
    var slot := FreeSlot(st.slots, 0);
    if st.foreground == NOBODY && slot != NOBODY {
      assert st.slots == NoProcesses(CAPACITY);
      var process := NewProcess(0, NOBODY, app);
      if Denied(process, granted) {
        assert st.slots[slot := EMPTY] == st.slots;
      } else {
        var up := Put(st, slot, WithConsole(process, granted))
                  .(nextId := 1, stack := [0], foreground := slot, lastExitValid := false, log := []);
        RootUp(slot, WithConsole(process, granted), up);
        RootEnters(up, slot, app);
      }
    }
  }

  lemma ShutdownKeeps(st: State)
    requires Shaped(st) && Inv(st)
    ensures Inv(Shutdown(st))
  {
  }

  lemma NextKeeps(st: State, op: Op)
    requires Shaped(st) && Inv(st)
    ensures Inv(Next(st, op))
  {
    match op {
      case StartRoot(app, granted) => LaunchRootKeeps(st, app, granted);
      case Tick(steps, granted) => UpdateKeeps(st, steps, granted);
      case Call(slot, act) =>
        if slot < CAPACITY {
          PerformKeeps(st, slot, act);
        }
      case ShutDown => ShutdownKeeps(st);
    }
  }

  /** The table is the stack, and parents' statuses are what their children left, in every reachable state. */
  lemma {:induction false} RunKeeps(ops: seq<Op>)
    ensures Inv(After(ops))
    decreases |ops|
  {
    if ops != [] {
      RunKeeps(ops[..|ops| - 1]);
      NextKeeps(After(ops[..|ops| - 1]), ops[|ops| - 1]);
    }
  }

  // ----- The promises -----

  /** In every reachable state with a foreground process: process 0 is at the bottom; an occupied slot is a
      place on the stack; its parent is the process below it, only the process in front is not blocked, and
      only that one has the console. */
  lemma StackIsTable(ops: seq<Op>, i: nat) returns (k: nat)
    requires i < CAPACITY && After(ops).foreground != NOBODY && After(ops).slots[i].occupied
    ensures var st := After(ops);
            && |st.stack| > 0 && st.stack[0] == 0 && k < |st.stack| && st.stack[k] == st.slots[i].id
            && st.slots[i].parent == (if k == 0 then NOBODY else st.stack[k - 1])
            && (i == st.foreground <==> k == |st.stack| - 1)
            && (i != st.foreground ==> st.slots[i].state == Blocked && !st.slots[i].consoleOwned)
  {
    RunKeeps(ops);
    var st := After(ops);
    assert st.slots[i].id in st.stack;
    k :| 0 <= k < |st.stack| && st.stack[k] == st.slots[i].id;
    assert Placed(st.slots[i], st.stack, k);
    OthersDiffer(st, i);
  }

  /** Each place on the stack has exactly one slot. */
  lemma PlaceHasSlot(ops: seq<Op>, k: nat) returns (i: nat)
    requires k < |After(ops).stack|
    ensures i < CAPACITY && After(ops).slots[i].occupied && After(ops).slots[i].id == After(ops).stack[k]
    ensures forall j :: 0 <= j < CAPACITY && j != i && After(ops).slots[j].occupied ==>
              After(ops).slots[j].id != After(ops).stack[k]
  {
    RunKeeps(ops);
    var st := After(ops);
    assert HasSlot(st.slots, st.stack[k]);
    i :| 0 <= i < CAPACITY && st.slots[i].occupied && st.slots[i].id == st.stack[k];
    OthersDiffer(st, i);
  }

  /** Without a foreground process no slot is occupied. */
  lemma NobodyMeansEmpty(ops: seq<Op>, i: nat)
    requires i < CAPACITY && After(ops).foreground == NOBODY
    ensures After(ops).slots[i] == EMPTY && After(ops).stack == []
  {
    RunKeeps(ops);
  }

  /** A status taken is that of an ended child of the taker. */
  lemma TakenIsAChilds(ops: seq<Op>, n: nat) returns (s: nat)
    requires n < |After(ops).log| && After(ops).log[n].Taken?
    ensures var log := After(ops).log;
            s < n && log[s].Ended? && log[s].parent == log[n].taker && log[s].status == log[n].status
            && s == Pending(log[..n], log[n].taker)
  {
    RunKeeps(ops);
    s := Pending(After(ops).log[..n], After(ops).log[n].taker);
  }

  /** No child's end is taken twice. */
  lemma TakenOnce(ops: seq<Op>, n: nat, m: nat)
    requires n < m < |After(ops).log| && After(ops).log[n].Taken? && After(ops).log[m].Taken?
    ensures var log := After(ops).log; Pending(log[..n], log[n].taker) != Pending(log[..m], log[m].taker)
  {
    RunKeeps(ops);
    var log := After(ops).log;
    var s, t := Pending(log[..n], log[n].taker), Pending(log[..m], log[m].taker);
    assert log[..m][n] == log[n];
  }
}
