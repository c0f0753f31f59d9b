/** What subscribers of the device registry read, over every run. */
module DeviceRuns {
  import opened DeviceSpec

  datatype Option<T> = None | Some(value: T)

  /** A read: which of the events published since the subscription it returned, and the overflow flag. */
  datatype Reading = Reading(index: nat, event: Event, overflow: bool)

  /** What a run has shown of a subscription handle. `base` is the devices when it was made. */
  datatype History = History(base: seq<Option<Info>>, published: seq<Event>, readings: seq<Reading>)

  const NOTHING := History([], [], [])

  predicate Current(st: State, h: nat)
    requires Shaped(st)
  {
    var s := st.subs[h % HANDLE_BASE];
    s.used && s.generation == h / HANDLE_BASE
  }

  /** The event a call publishes, if any. */
  function Published(st: State, op: Op): seq<Event>
    requires Shaped(st)
  {
    match op
    case Register(r) =>
      if Next(st, op).1.Id? then [Event(Added, NewInfo(st, FirstUnused(st.entries, 0), r))] else []
    case Remove(id) => if Next(st, op).1 == Done then [Event(Removed, st.entries[ActiveSlot(st, id)].info)] else []
    case SetState(id, state, lastError) =>
      if Next(st, op).1 == Done then
        var info := st.entries[ActiveSlot(st, id)].info;
        var now := info.(state := state, lastError := lastError);
        if now == info then [] else [Event(StateKind(state), now)]
      else []
    case _ => []
  }

  /** The devices there are, by slot. */
  function Devices(entries: seq<Entry>): (r: seq<Option<Info>>)
    ensures |r| == |entries|
    ensures forall i :: 0 <= i < |entries| ==> r[i] == if entries[i].present then Some(entries[i].info) else None
  {
    if entries == [] then []
    else
      var e := entries[|entries| - 1];
      Devices(entries[..|entries| - 1]) + [if e.present then Some(e.info) else None]
  }

  function Observe(st: State, op: Op, h: nat, hist: History): History
    requires Shaped(st)
  {
    var now := Next(st, op);
    if !Current(st, h) then if Current(now.0, h) then History(Devices(st.entries), [], []) else hist
    else if op.Read? && op.handle == h && now.1.Got? then
      var index := |hist.published| - st.subs[h % HANDLE_BASE].count;
      hist.(readings := hist.readings + [Reading(if index < 0 then 0 else index, now.1.event, now.1.overflow)])
    else hist.(published := hist.published + Published(st, op))
  }

  function Told(generation: nat, ops: seq<Op>, h: nat): History {
    if ops == [] then NOTHING
    else
      var before := ops[..|ops| - 1];
      Observe(After(generation, before), ops[|ops| - 1], h, Told(generation, before, h))
  }

  // ----- What holds of a subscription and its history -----

  /** Index of the last event read, or -1. */
  function LastRead(readings: seq<Reading>): int {
    if readings == [] then -1 else readings[|readings| - 1].index
  }

  /** The events read are some of those published, in their order, and the flag says exactly when one or more
      were left out since the reading before. */
  ghost predicate InOrder(readings: seq<Reading>, published: seq<Event>) {
    forall k :: 0 <= k < |readings| ==>
      var last := LastRead(readings[..k]);
      && last < readings[k].index < |published| && readings[k].event == published[readings[k].index]
      && (readings[k].overflow <==> readings[k].index > last + 1)
  }

  ghost predicate SubOk(s: Subscription, hist: History)
    requires IsRing(s)
  {
    && s.count <= |hist.published|
    && Waiting(s) == hist.published[|hist.published| - s.count..]
    && InOrder(hist.readings, hist.published)
    && LastRead(hist.readings) < |hist.published| - s.count
    && (s.overflow <==> LastRead(hist.readings) + 1 < |hist.published| - s.count)
    && (s.overflow ==> s.count > 0)
  }

  lemma InOrderMore(readings: seq<Reading>, published: seq<Event>, e: Event)
    requires InOrder(readings, published)
    ensures InOrder(readings, published + [e])
  {
  }

  lemma InOrderRead(readings: seq<Reading>, published: seq<Event>, r: Reading)
    requires InOrder(readings, published)
    requires LastRead(readings) < r.index < |published| && r.event == published[r.index]
    requires r.overflow <==> r.index > LastRead(readings) + 1
    ensures InOrder(readings + [r], published)
  {
    var more := readings + [r];
    forall k | 0 <= k < |more|
      ensures var last := LastRead(more[..k]);
              && last < more[k].index < |published| && more[k].event == published[more[k].index]
              && (more[k].overflow <==> more[k].index > last + 1)
    {
      assert more[..k] == readings[..k];
      assert readings[..|readings|] == readings;
    }
  }

  /** The ring holds what it held, without the oldest when it was full, and the new event last. */
  lemma EnqueueWaits(s: Subscription, e: Event)
    requires IsRing(s) && s.used
    ensures Waiting(Enqueue(s, e))
         == (if s.count == QUEUE then Waiting(s)[1..] else Waiting(s)) + [e]
  {
    var t := Enqueue(s, e);
    var want := (if s.count == QUEUE then Waiting(s)[1..] else Waiting(s)) + [e];
    assert |want| == t.count;
    forall i | 0 <= i < t.count ensures Waiting(t)[i] == want[i] {
      RingSlots(t.head, i, t.count - 1);
      if s.count == QUEUE {
        NextSlot(s.head, i);
      }
    }
  }

  /** Different offsets are different places in the ring. */
  lemma RingSlots(head: nat, i: nat, j: nat)
    requires head < QUEUE && i < QUEUE && j < QUEUE
    ensures (head + i) % QUEUE == (head + j) % QUEUE <==> i == j
  {
  }

  lemma NextSlot(head: nat, i: nat)
    requires head < QUEUE
    ensures ((head + 1) % QUEUE + i) % QUEUE == (head + (i + 1)) % QUEUE
  {
  }

  lemma DequeueWaits(s: Subscription)
    requires IsRing(s) && s.count > 0
    ensures Waiting(s)[0] == s.events[s.head] && Waiting(Dequeue(s)) == Waiting(s)[1..]
  {
    forall i | 0 <= i < s.count - 1 ensures Waiting(Dequeue(s))[i] == Waiting(s)[1..][i] {
      NextSlot(s.head, i);
    }
  }

  lemma EnqueueKeeps(s: Subscription, hist: History, e: Event)
    requires IsRing(s) && s.used && SubOk(s, hist)
    ensures SubOk(Enqueue(s, e), hist.(published := hist.published + [e]))
  {
    EnqueueWaits(s, e);
    InOrderMore(hist.readings, hist.published, e);
    var t := Enqueue(s, e);
    var more := hist.published + [e];
    var from := |hist.published| - s.count;
    if s.count == QUEUE {
      assert Waiting(s)[1..] == hist.published[from + 1..];
      assert more[|more| - t.count..] == hist.published[from + 1..] + [e];
    } else {
      assert more[|more| - t.count..] == hist.published[from..] + [e];
    }
  }

  lemma DequeueKeeps(s: Subscription, hist: History)
    requires IsRing(s) && s.count > 0 && SubOk(s, hist)
    ensures var r := Reading(|hist.published| - s.count, s.events[s.head], s.overflow);
            SubOk(Dequeue(s), hist.(readings := hist.readings + [r]))
  {
    DequeueWaits(s);
    var from := |hist.published| - s.count;
    var r := Reading(from, s.events[s.head], s.overflow);
    assert hist.published[from..][0] == hist.published[from];
    InOrderRead(hist.readings, hist.published, r);
    assert Waiting(s)[1..] == hist.published[from + 1..];
  }

  // ----- The devices as told by events -----

  /** What an event tells of the devices. */
  function Tell(devices: seq<Option<Info>>, e: Event): seq<Option<Info>> {
    var slot := e.device.id % ID_BASE - 1;
    if slot < 0 || slot >= |devices| then devices
    else devices[slot := if e.kind == Removed then None else Some(e.device)]
  }

  function TellAll(devices: seq<Option<Info>>, events: seq<Event>): seq<Option<Info>> {
    if events == [] then devices else Tell(TellAll(devices, events[..|events| - 1]), events[|events| - 1])
  }

  /** A device's identifier names its slot; a present one is in use. */
  ghost predicate IdsOk(st: State)
    requires Shaped(st)
  {
    forall i :: 0 <= i < DEVICES ==>
      && (st.entries[i].used ==> st.entries[i].info.id == MakeId(st.generation, i))
      && (st.entries[i].present ==> st.entries[i].used)
  }

  lemma IdSlot(generation: nat, slot: nat)
    requires slot < DEVICES
    ensures MakeId(generation, slot) % ID_BASE == slot + 1 && MakeId(generation, slot) / ID_BASE == generation
  {
  }

  /** An event about a slot tells what was put there. */
  lemma PutTells(entries: seq<Entry>, slot: nat, entry: Entry, e: Event)
    requires slot < |entries| && e.device.id % ID_BASE == slot + 1
    requires entry.present == (e.kind != Removed) && (entry.present ==> entry.info == e.device)
    ensures Devices(entries[slot := entry]) == Tell(Devices(entries), e)
  {
  }

  lemma IdsStay(st: State, op: Op)
    requires Shaped(st) && IdsOk(st)
    ensures IdsOk(Next(st, op).0)
  {
  }

  /** A published event tells exactly what the call did to the devices. */
  lemma PublishedTells(st: State, op: Op)
    requires Shaped(st) && IdsOk(st)
    ensures IdsOk(Next(st, op).0)
    ensures Devices(Next(st, op).0.entries) == TellAll(Devices(st.entries), Published(st, op))
    ensures |Published(st, op)| <= 1
  {
    IdsStay(st, op);
    TellsOne(st, op);
    if Published(st, op) != [] {
      var e := Published(st, op)[0];
      var slot: int := if op.Register? then FirstUnused(st.entries, 0) else ActiveSlot(st, op.id);
      IdSlot(st.generation, slot);
      PutTells(st.entries, slot, Next(st, op).0.entries[slot], e);
    } else {
      assert Next(st, op).0.entries == st.entries;
    }
  }

  lemma TellsOne(st: State, op: Op)
    requires Shaped(st)
    ensures |Published(st, op)| <= 1
    ensures TellAll(Devices(st.entries), Published(st, op))
         == if Published(st, op) == [] then Devices(st.entries) else Tell(Devices(st.entries), Published(st, op)[0])
  {
    if Published(st, op) != [] {
      assert Published(st, op)[..0] == [];
    }
  }

  lemma {:induction false} TellAppend(devices: seq<Option<Info>>, a: seq<Event>, b: seq<Event>)
    ensures TellAll(devices, a + b) == TellAll(TellAll(devices, a), b)
    decreases |b|
  {
    if b == [] {
      assert a + b == a;
    } else {
      assert (a + b)[..|a + b| - 1] == a + b[..|b| - 1];
      TellAppend(devices, a, b[..|b| - 1]);
    }
  }

  // ----- Every call keeps what is known of every handle -----

  /** What is known of a subscription in use, and of the devices its events tell of. */
  ghost predicate Live(s: Subscription, entries: seq<Entry>, hist: History) {
    IsRing(s) && SubOk(s, hist) && Devices(entries) == TellAll(hist.base, hist.published)
  }

  ghost predicate Known(st: State, h: nat, hist: History)
    requires Shaped(st)
  {
    if Current(st, h) then Live(st.subs[h % HANDLE_BASE], st.entries, hist)
    else if h / HANDLE_BASE > st.subs[h % HANDLE_BASE].generation then hist == NOTHING
    else InOrder(hist.readings, hist.published)
  }

  /** What a call does to the subscription of `h`. */
  lemma SubChanges(st: State, op: Op, h: nat)
    requires Shaped(st) && Current(st, h) && Current(Next(st, op).0, h)
    ensures var s, t := st.subs[h % HANDLE_BASE], Next(st, op).0.subs[h % HANDLE_BASE];
            if op.Read? && op.handle == h && Next(st, op).1.Got? then
              s.count > 0 && t == Dequeue(s) && Next(st, op).1 == Got(s.events[s.head], s.overflow)
            else if Published(st, op) == [] then t == s
            else |Published(st, op)| == 1 && t == Enqueue(s, Published(st, op)[0])
  {
  }

  /** A reading takes the oldest event and leaves the devices alone. */
  lemma ReadKeeps(s: Subscription, entries: seq<Entry>, hist: History, r: Reading)
    requires Live(s, entries, hist) && s.count > 0
    requires r == Reading(|hist.published| - s.count, s.events[s.head], s.overflow)
    ensures Live(Dequeue(s), entries, hist.(readings := hist.readings + [r]))
  {
    DequeueKeeps(s, hist);
  }

  /** What is published joins what waits, and tells of the devices. */
  lemma PublishedKeeps(s: Subscription, entries: seq<Entry>, now: seq<Entry>, hist: History, e: Event)
    requires Live(s, entries, hist) && s.used && Devices(now) == TellAll(Devices(entries), [e])
    ensures Live(Enqueue(s, e), now, hist.(published := hist.published + [e]))
  {
    TellAppend(hist.base, hist.published, [e]);
    EnqueueKeeps(s, hist, e);
  }

  lemma ReadObserved(st: State, op: Op, h: nat, hist: History, s: Subscription, r: Reading)
    requires Shaped(st) && Current(st, h) && Current(Next(st, op).0, h)
    requires op.Read? && op.handle == h && Next(st, op).1.Got?
    requires s == st.subs[h % HANDLE_BASE] && s.count <= |hist.published|
    requires r == Reading(|hist.published| - s.count, s.events[s.head], s.overflow)
    ensures Observe(st, op, h, hist) == hist.(readings := hist.readings + [r])
    ensures s.count > 0 && Next(st, op).0.entries == st.entries
    ensures Next(st, op).0.subs[h % HANDLE_BASE] == Dequeue(s)
  {
    SubChanges(st, op, h);
  }

  lemma ReadCase(st: State, op: Op, h: nat, hist: History, s: Subscription)
    requires Shaped(st) && Live(s, st.entries, hist) && Current(st, h) && Current(Next(st, op).0, h)
    requires op.Read? && op.handle == h && Next(st, op).1.Got? && s == st.subs[h % HANDLE_BASE]
    ensures Known(Next(st, op).0, h, Observe(st, op, h, hist))
  {
    var r := Reading(|hist.published| - s.count, s.events[s.head], s.overflow);
    ReadObserved(st, op, h, hist, s, r);
    ReadKeeps(s, st.entries, hist, r);
  }

  lemma QuietCase(st: State, op: Op, h: nat, hist: History)
    requires Shaped(st) && IdsOk(st) && Known(st, h, hist) && Current(st, h) && Current(Next(st, op).0, h)
    requires !(op.Read? && op.handle == h && Next(st, op).1.Got?) && |Published(st, op)| == 0
    ensures Known(Next(st, op).0, h, Observe(st, op, h, hist))
  {
    SubChanges(st, op, h);
    PublishedTells(st, op);
    assert hist.published + Published(st, op) == hist.published;
  }

  lemma EventCase(st: State, op: Op, h: nat, hist: History)
    requires Shaped(st) && IdsOk(st) && Known(st, h, hist) && Current(st, h) && Current(Next(st, op).0, h)
    requires |Published(st, op)| == 1
    ensures Known(Next(st, op).0, h, Observe(st, op, h, hist))
  {
    SubChanges(st, op, h);
    PublishedTells(st, op);
    var e := Published(st, op)[0];
    assert Published(st, op) == [e];
    PublishedKeeps(st.subs[h % HANDLE_BASE], st.entries, Next(st, op).0.entries, hist, e);
  }

  lemma CurrentKeeps(st: State, op: Op, h: nat, hist: History)
    requires Shaped(st) && IdsOk(st) && Known(st, h, hist) && Current(st, h) && Current(Next(st, op).0, h)
    ensures Known(Next(st, op).0, h, Observe(st, op, h, hist))
  {
    PublishedTells(st, op);
    if op.Read? && op.handle == h && Next(st, op).1.Got? {
      ReadCase(st, op, h, hist, st.subs[h % HANDLE_BASE]);
    } else if |Published(st, op)| == 0 {
      QuietCase(st, op, h, hist);
    } else {
      EventCase(st, op, h, hist);
    }
  }

  lemma NotCurrent(st: State, op: Op, h: nat, hist: History)
    requires Shaped(st) && Known(st, h, hist) && !Current(st, h)
    ensures Known(Next(st, op).0, h, Observe(st, op, h, hist))
  {
    var now := Next(st, op).0;
    if Current(now, h) {
      assert op.Subscribe?;
      assert Waiting(now.subs[h % HANDLE_BASE]) == [];
    } else {
      GenerationsGrow(st, op, h % HANDLE_BASE);
    }
  }

  /** A generation grows only when its subscription is taken into use. */
  lemma GenerationsGrow(st: State, op: Op, i: nat)
    requires Shaped(st) && i < SUBSCRIBERS
    ensures var s, t := st.subs[i], Next(st, op).0.subs[i];
            t.generation == s.generation || (!s.used && t.used && t.generation == s.generation + 1)
  {
  }

  lemma NextKeeps(st: State, op: Op, h: nat, hist: History)
    requires Shaped(st) && IdsOk(st) && Known(st, h, hist)
    ensures IdsOk(Next(st, op).0) && Known(Next(st, op).0, h, Observe(st, op, h, hist))
  {
    PublishedTells(st, op);
    if !Current(st, h) {
      NotCurrent(st, op, h, hist);
    } else if Current(Next(st, op).0, h) {
      CurrentKeeps(st, op, h, hist);
    } else {
      GenerationsGrow(st, op, h % HANDLE_BASE);
      assert Published(st, op) == [];
      assert hist.published + Published(st, op) == hist.published;
    }
  }

  lemma {:induction false} RunKeeps(generation: nat, ops: seq<Op>, h: nat)
    ensures IdsOk(After(generation, ops)) && Known(After(generation, ops), h, Told(generation, ops, h))
    decreases |ops|
  {
    if ops != [] {
      var before := ops[..|ops| - 1];
      RunKeeps(generation, before, h);
      NextKeeps(After(generation, before), ops[|ops| - 1], h, Told(generation, before, h));
    }
  }

  // ----- The promises -----

  /** Over every run a subscriber's readings are events published since it subscribed, in order, and a reading
      is flagged exactly when an event was dropped between it and the one before. */
  lemma ReadingsInOrder(generation: nat, ops: seq<Op>, h: nat)
    ensures InOrder(Told(generation, ops, h).readings, Told(generation, ops, h).published)
  {
    RunKeeps(generation, ops, h);
  }

  /** What a live subscriber has not read is what was published last, and the next reading will be flagged
      exactly when something between was dropped. */
  lemma QueueIsTheRest(generation: nat, ops: seq<Op>, h: nat)
    requires Current(After(generation, ops), h)
    ensures var s := After(generation, ops).subs[h % HANDLE_BASE];
            var hist := Told(generation, ops, h);
            && s.count <= |hist.published| && Waiting(s) == hist.published[|hist.published| - s.count..]
            && (s.overflow <==> LastRead(hist.readings) + 1 < |hist.published| - s.count)
  {
    RunKeeps(generation, ops, h);
  }

  function EventsOf(readings: seq<Reading>): seq<Event> {
    if readings == [] then [] else EventsOf(readings[..|readings| - 1]) + [readings[|readings| - 1].event]
  }

  predicate NoneFlagged(readings: seq<Reading>) {
    forall k :: 0 <= k < |readings| ==> !readings[k].overflow
  }

  /** Unflagged readings are all the events published up to the last one read. */
  lemma {:induction false} UnflaggedIsAll(readings: seq<Reading>, published: seq<Event>)
    requires InOrder(readings, published) && NoneFlagged(readings)
    ensures LastRead(readings) == |readings| - 1 < |published|
    ensures EventsOf(readings) == published[..|readings|]
    decreases |readings|
  {
    if readings != [] {
      var n := |readings| - 1;
      var fewer := readings[..n];
      assert InOrder(fewer, published) by {
        forall k | 0 <= k < |fewer|
          ensures var last := LastRead(fewer[..k]);
                  && last < fewer[k].index < |published| && fewer[k].event == published[fewer[k].index]
                  && (fewer[k].overflow <==> fewer[k].index > last + 1)
        {
          assert fewer[..k] == readings[..k];
        }
      }
      UnflaggedIsAll(fewer, published);
      assert published[..|readings|] == published[..n] + [published[n]];
    }
  }

  /** A subscriber that looked at the devices when it subscribed and has since read every event, none flagged,
      knows the devices there are now. */
  lemma SubscriberKnows(generation: nat, ops: seq<Op>, h: nat)
    requires Current(After(generation, ops), h)
    requires After(generation, ops).subs[h % HANDLE_BASE].count == 0 && NoneFlagged(Told(generation, ops, h).readings)
    ensures var hist := Told(generation, ops, h);
            TellAll(hist.base, EventsOf(hist.readings)) == Devices(After(generation, ops).entries)
  {
    RunKeeps(generation, ops, h);
    var hist := Told(generation, ops, h);
    UnflaggedIsAll(hist.readings, hist.published);
    assert hist.published[..|hist.readings|] == hist.published;
  }

  // ----- The count of devices -----

  function Present(entries: seq<Entry>): nat {
    if entries == [] then 0
    else Present(entries[..|entries| - 1]) + if entries[|entries| - 1].present then 1 else 0
  }

  lemma {:induction false} PresentPut(entries: seq<Entry>, i: nat, e: Entry)
    requires i < |entries|
    ensures Present(entries[i := e])
         == Present(entries) + (if e.present then 1 else 0) - (if entries[i].present then 1 else 0)
    decreases |entries|
  {
    var n := |entries| - 1;
    if i < n {
      assert entries[i := e][..n] == entries[..n][i := e];
      PresentPut(entries[..n], i, e);
    } else {
      assert entries[i := e][..n] == entries[..n];
    }
  }

  lemma {:induction false} NonePresent(n: nat)
    ensures Present(NoEntries(n)) == 0
  {
    if n > 0 {
      assert NoEntries(n)[..n - 1] == NoEntries(n - 1);
      NonePresent(n - 1);
    }
  }

  /** The registry's counter is the number of devices present. */
  lemma {:induction false} CountIsPresent(generation: nat, ops: seq<Op>)
    ensures After(generation, ops).active == Present(After(generation, ops).entries)
    decreases |ops|
  {
    if ops == [] {
      NonePresent(DEVICES);
    } else {
      var before := After(generation, ops[..|ops| - 1]);
      CountIsPresent(generation, ops[..|ops| - 1]);
      RunKeeps(generation, ops[..|ops| - 1], 0);
      StepCounts(before, ops[|ops| - 1]);
    }
  }

  lemma StepCounts(st: State, op: Op)
    requires Shaped(st) && IdsOk(st) && st.active == Present(st.entries)
    ensures Next(st, op).0.active == Present(Next(st, op).0.entries)
  {
    var now := Next(st, op).0;
    match op {
      case Register(r) =>
        var slot := FirstUnused(st.entries, 0);
        if slot < DEVICES {
          PresentPut(st.entries, slot, now.entries[slot]);
        }
      case Remove(id) =>
        var slot := ActiveSlot(st, id);
        if slot >= 0 {
          PresentPut(st.entries, slot, now.entries[slot]);
        }
      case SetState(id, state, lastError) =>
        var slot := ActiveSlot(st, id);
        if slot >= 0 {
          PresentPut(st.entries, slot, now.entries[slot]);
        }
      case _ =>
    }
  }
}
