/** The device registry of kernel/device_registry.c on values: `Next` is one call under its mutex. */
module DeviceSpec {
  const DEVICES: nat := 32
  const SUBSCRIBERS: nat := 16
  const QUEUE: nat := 32
  const NAME_MAX: nat := 15
  const DRIVER_MAX: nat := 31
  const CLASS_COUNT: nat := 11
  const STATE_COUNT: nat := 3
  const ID_BASE: nat := 64
  const HANDLE_BASE: nat := 16
  const INVALID_ID: nat := 0xFFFF_FFFF

  const READY: nat := 0
  const OFFLINE: nat := 1
  const FAULT: nat := 2

  datatype Info = Info(id: nat, class_: nat, state: nat, features: nat, lastError: int, name: string, driver: string)

  datatype Entry = Entry(info: Info, used: bool, present: bool)

  datatype Kind = Added | Removed | BecameReady | BecameOffline | BecameFault

  datatype Event = Event(kind: Kind, device: Info)

  /** `events` is a ring: `count` events from `head` on are waiting. */
  datatype Subscription = Subscription(
    owner: nat, events: seq<Event>, generation: nat, head: nat, count: nat, used: bool, overflow: bool)

  datatype Registration = Registration(
    name: string, driver: string, class_: nat, state: nat, features: nat, lastError: int)

  const NO_INFO := Info(0, 0, 0, 0, 0, "", "")
  const NO_ENTRY := Entry(NO_INFO, false, false)
  const NO_EVENT := Event(Added, NO_INFO)

  function NoEvents(n: nat): (r: seq<Event>)
    ensures |r| == n
  {
    if n == 0 then [] else NoEvents(n - 1) + [NO_EVENT]
  }

  function Unused(generation: nat): Subscription {
    Subscription(0, NoEvents(QUEUE), generation, 0, 0, false, false)
  }

  // ----- One subscription -----

  /** The source's ring is well formed. */
  predicate IsRing(s: Subscription) {
    |s.events| == QUEUE && s.head < QUEUE && s.count <= QUEUE
  }

  /** The waiting events, oldest first. */
  function Waiting(s: Subscription): (r: seq<Event>)
    requires IsRing(s)
    ensures |r| == s.count
  {
    seq(s.count, i requires 0 <= i < s.count => s.events[(s.head + i) % QUEUE])
  }

  /** Queue an event, pushing the oldest one out of a full ring. */
  function Enqueue(s: Subscription, e: Event): (r: Subscription)
    requires IsRing(s)
    ensures IsRing(r)
  {
    if !s.used then s
    else
      var room :=
        if s.count == QUEUE then s.(head := (s.head + 1) % QUEUE, count := s.count - 1, overflow := true) else s;
      room.(events := room.events[(room.head + room.count) % QUEUE := e], count := room.count + 1)
  }

  function Dequeue(s: Subscription): (r: Subscription)
    requires IsRing(s) && s.count > 0
    ensures IsRing(r)
  {
    s.(head := (s.head + 1) % QUEUE, count := s.count - 1, overflow := false)
  }

  // ----- The registry -----

  /** `generation` tags the identifiers of this life of the registry. */
  datatype State = State(entries: seq<Entry>, subs: seq<Subscription>, generation: nat, active: int)

  predicate Shaped(st: State) {
    && |st.entries| == DEVICES && |st.subs| == SUBSCRIBERS
    && forall i :: 0 <= i < |st.subs| ==> IsRing(st.subs[i])
  }

  predicate ValidText(s: string, most: nat) {
    0 < |s| <= most
  }

  predicate ValidRegistration(r: Registration) {
    ValidText(r.name, NAME_MAX) && ValidText(r.driver, DRIVER_MAX) && r.class_ < CLASS_COUNT && r.state < STATE_COUNT
  }

  function MakeId(generation: nat, slot: nat): nat {
    generation * ID_BASE + slot + 1
  }

  /** active_entry: the slot of a present device, or -1. */
  function ActiveSlot(st: State, id: nat): (r: int)
    requires Shaped(st)
    ensures -1 <= r < DEVICES
    ensures r >= 0 ==> st.entries[r].present && st.entries[r].info.id == id
  {
    var code := id % ID_BASE;
    if id == INVALID_ID || id == 0 || id / ID_BASE != st.generation || code == 0 || code > DEVICES then -1
    else
      var e := st.entries[code - 1];
      if e.used && e.present && e.info.id == id then code - 1 else -1
  }

  predicate NameUsed(entries: seq<Entry>, name: string) {
    exists i :: 0 <= i < |entries| && entries[i].used && entries[i].info.name == name
  }

  /** The first slot never used, or the length. */
  function FirstUnused(entries: seq<Entry>, from: nat): (i: nat)
    requires from <= |entries|
    ensures from <= i <= |entries|
    ensures i < |entries| ==> !entries[i].used
    ensures forall j :: from <= j < i ==> entries[j].used
    decreases |entries| - from
  {
    if from == |entries| || !entries[from].used then from else FirstUnused(entries, from + 1)
  }

  function PublishTo(subs: seq<Subscription>, e: Event): (r: seq<Subscription>)
    requires forall i :: 0 <= i < |subs| ==> IsRing(subs[i])
    ensures |r| == |subs| && forall i :: 0 <= i < |subs| ==> r[i] == Enqueue(subs[i], e)
  {
    if subs == [] then [] else PublishTo(subs[..|subs| - 1], e) + [Enqueue(subs[|subs| - 1], e)]
  }

  /** Change a device's entry and tell every subscriber. */
  function Publish(st: State, slot: nat, entry: Entry, e: Event): (r: State)
    requires Shaped(st) && slot < DEVICES
    ensures Shaped(r)
  {
    st.(entries := st.entries[slot := entry], subs := PublishTo(st.subs, e))
  }

  function SubscriptionHandle(index: nat, generation: nat): nat {
    generation * HANDLE_BASE + index
  }

  /** owned_subscription, or -1. */
  function Owned(st: State, owner: nat, handle: int): (r: int)
    requires Shaped(st)
    ensures -1 <= r < SUBSCRIBERS
  {
    if owner == 0 || handle < 0 then -1
    else
      var s := st.subs[handle % HANDLE_BASE];
      if s.used && s.owner == owner && s.generation == handle / HANDLE_BASE then handle % HANDLE_BASE else -1
  }

  function FirstFree(subs: seq<Subscription>, from: nat): (i: nat)
    requires from <= |subs|
    ensures from <= i <= |subs|
    ensures i < |subs| ==> !subs[i].used
    ensures forall j :: from <= j < i ==> subs[j].used
    decreases |subs| - from
  {
    if from == |subs| || !subs[from].used then from else FirstFree(subs, from + 1)
  }

  function StateKind(state: nat): Kind {
    if state == READY then BecameReady else if state == OFFLINE then BecameOffline else BecameFault
  }

  datatype Op =
    | Register(registration: Registration)
    | Remove(id: nat)
    | SetState(id: nat, state: nat, lastError: int)
    | Subscribe(owner: nat)
    | Unsubscribe(owner: nat, handle: int)
    | UnsubscribeOwner(owner: nat)
    | Read(owner: nat, handle: int)

  datatype Reply =
    | Done | Refused | Id(id: nat) | Handle(handle: nat) | Got(event: Event, overflow: bool) | BadHandle | TryAgain

  function NewInfo(st: State, slot: nat, r: Registration): Info {
    Info(MakeId(st.generation, slot), r.class_, r.state, r.features, r.lastError, r.name, r.driver)
  }

  function NextRegister(st: State, r: Registration): (n: (State, Reply))
    requires Shaped(st)
    ensures Shaped(n.0)
  {
    var slot := FirstUnused(st.entries, 0);
    if !ValidRegistration(r) || NameUsed(st.entries, r.name) || slot == DEVICES then (st, Refused)
    else
      var info := NewInfo(st, slot, r);
      (Publish(st, slot, Entry(info, true, true), Event(Added, info)).(active := st.active + 1), Id(info.id))
  }

  function NextRemove(st: State, id: nat): (n: (State, Reply))
    requires Shaped(st)
    ensures Shaped(n.0)
  {
    var slot := ActiveSlot(st, id);
    if slot == -1 then (st, Refused)
    else
      var entry := st.entries[slot];
      (Publish(st, slot, entry.(present := false), Event(Removed, entry.info)).(active := st.active - 1), Done)
  }

  function NextSetState(st: State, id: nat, state: nat, lastError: int): (n: (State, Reply))
    requires Shaped(st)
    ensures Shaped(n.0)
  {
    var slot := ActiveSlot(st, id);
    if state >= STATE_COUNT || slot == -1 then (st, Refused)
    else
      var entry := st.entries[slot];
      if entry.info.state == state && entry.info.lastError == lastError then (st, Done)
      else
        var info := entry.info.(state := state, lastError := lastError);
        (Publish(st, slot, entry.(info := info), Event(StateKind(state), info)), Done)
  }

  function NextSubscribe(st: State, owner: nat): (n: (State, Reply))
    requires Shaped(st)
    ensures Shaped(n.0)
  {
    var i := FirstFree(st.subs, 0);
    if owner == 0 || i == SUBSCRIBERS then (st, Refused)
    else
      var s := Unused(st.subs[i].generation + 1).(owner := owner, used := true);
      (st.(subs := st.subs[i := s]), Handle(SubscriptionHandle(i, s.generation)))
  }

  function NextUnsubscribe(st: State, owner: nat, handle: int): (n: (State, Reply))
    requires Shaped(st)
    ensures Shaped(n.0)
  {
    var i := Owned(st, owner, handle);
    if i == -1 then (st, Refused) else (st.(subs := st.subs[i := Unused(st.subs[i].generation)]), Done)
  }

  function Dropped(s: Subscription, owner: nat): (r: Subscription)
    requires IsRing(s)
    ensures IsRing(r)
  {
    if s.used && s.owner == owner then Unused(s.generation) else s
  }

  function DropOwner(subs: seq<Subscription>, owner: nat): (r: seq<Subscription>)
    requires forall i :: 0 <= i < |subs| ==> IsRing(subs[i])
    ensures |r| == |subs| && forall i :: 0 <= i < |subs| ==> r[i] == Dropped(subs[i], owner)
  {
    if subs == [] then [] else DropOwner(subs[..|subs| - 1], owner) + [Dropped(subs[|subs| - 1], owner)]
  }

  function NextRead(st: State, owner: nat, handle: int): (n: (State, Reply))
    requires Shaped(st)
    ensures Shaped(n.0)
  {
    var i := Owned(st, owner, handle);
    if i == -1 then (st, BadHandle)
    else if st.subs[i].count == 0 then (st, TryAgain)
    else
      var s := st.subs[i];
      (st.(subs := st.subs[i := Dequeue(s)]), Got(s.events[s.head], s.overflow))
  }

  function Next(st: State, op: Op): (n: (State, Reply))
    requires Shaped(st)
    ensures Shaped(n.0)
  {
    match op
    case Register(r) => NextRegister(st, r)
    case Remove(id) => NextRemove(st, id)
    case SetState(id, state, lastError) => NextSetState(st, id, state, lastError)
    case Subscribe(owner) => NextSubscribe(st, owner)
    case Unsubscribe(owner, handle) => NextUnsubscribe(st, owner, handle)
    case UnsubscribeOwner(owner) => (if owner == 0 then st else st.(subs := DropOwner(st.subs, owner)), Done)
    case Read(owner, handle) => NextRead(st, owner, handle)
  }

  function NoEntries(n: nat): (r: seq<Entry>)
    ensures |r| == n && forall i :: 0 <= i < n ==> r[i] == NO_ENTRY
  {
    if n == 0 then [] else NoEntries(n - 1) + [NO_ENTRY]
  }

  function NoSubscriptions(n: nat): (r: seq<Subscription>)
    ensures |r| == n && forall i :: 0 <= i < n ==> r[i] == Unused(0)
  {
    if n == 0 then [] else NoSubscriptions(n - 1) + [Unused(0)]
  }

  function Start(generation: nat): (st: State)
    ensures Shaped(st)
  {
    State(NoEntries(DEVICES), NoSubscriptions(SUBSCRIBERS), generation, 0)
  }

  function After(generation: nat, ops: seq<Op>): (st: State)
    ensures Shaped(st)
  {
    if ops == [] then Start(generation) else Next(After(generation, ops[..|ops| - 1]), ops[|ops| - 1]).0
  }
}
