/** The device registry of kernel/device_registry.c, updated in place. */
module DeviceRegistry {
  import opened DeviceSpec

  class Registry {
    const entries: array<Entry>
    const subscriptions: array<Subscription>
    const generation: nat
    var activeCount: int

    ghost predicate Valid()
      reads subscriptions
    {
      && entries.Length == DEVICES && subscriptions.Length == SUBSCRIBERS
      && forall i :: 0 <= i < subscriptions.Length ==> IsRing(subscriptions[i])
    }

    ghost function Snapshot(): (st: State)
      requires Valid()
      reads this, entries, subscriptions
      ensures Shaped(st)
    {
      State(entries[..], subscriptions[..], generation, activeCount)
    }

    constructor (generation: nat)
      ensures Valid() && fresh(entries) && fresh(subscriptions) && Snapshot() == Start(generation)
    {
      entries := new Entry[DEVICES](_ => NO_ENTRY);
      subscriptions := new Subscription[SUBSCRIBERS](_ => Unused(0));
      this.generation := generation;
      activeCount := 0;
      new;
      assert entries[..] == NoEntries(DEVICES) && subscriptions[..] == NoSubscriptions(SUBSCRIBERS);
    }

    /** The body of publish_event for one subscription. */
    method EnqueueAt(index: nat, e: Event)
      requires Valid() && index < SUBSCRIBERS
      modifies subscriptions
      ensures Valid() && subscriptions[..] == old(subscriptions[..])[index := Enqueue(old(subscriptions[index]), e)]
    {
      var s := subscriptions[index];
      if !s.used {
        assert subscriptions[..] == old(subscriptions[..])[index := s];
        return;
      }
      if s.count == QUEUE {
        s := s.(head := (s.head + 1) % QUEUE, count := s.count - 1, overflow := true);
      }
      var tail := (s.head + s.count) % QUEUE;
      subscriptions[index] := s.(events := s.events[tail := e], count := s.count + 1);
    }

    /** publish_event. */
    method PublishEvent(e: Event)
      requires Valid()
      modifies subscriptions
      ensures Valid() && subscriptions[..] == PublishTo(old(subscriptions[..]), e)
    {
      ghost var before := subscriptions[..];
      for i := 0 to SUBSCRIBERS
        invariant Valid()
        invariant forall j :: 0 <= j < SUBSCRIBERS ==>
                    subscriptions[j] == if j < i then Enqueue(before[j], e) else before[j]
      {
        EnqueueAt(i, e);
      }
    }

    /** active_entry. */
    method FindActive(id: nat) returns (slot: int)
      requires Valid()
      ensures slot == ActiveSlot(Snapshot(), id)
    {
      var code := id % ID_BASE;
      if id == INVALID_ID || id == 0 || id / ID_BASE != generation || code == 0 || code > DEVICES {
        return -1;
      }
      slot := code - 1;
      if !entries[slot].used || !entries[slot].present || entries[slot].info.id != id {
        slot := -1;
      }
    }

    method IsNameUsed(name: string) returns (used: bool)
      requires Valid()
      ensures used == NameUsed(entries[..], name)
    {
      for i := 0 to DEVICES
        invariant forall j :: 0 <= j < i ==> !(entries[..][j].used && entries[..][j].info.name == name)
      {
        if entries[i].used && entries[i].info.name == name {
          assert entries[..][i] == entries[i];
          return true;
        }
        assert entries[..][i] == entries[i];
      }
      return false;
    }

    method AddDevice(r: Registration) returns (reply: Reply)
      requires Valid()
      modifies this, entries, subscriptions
      ensures Valid() && (Snapshot(), reply) == Next(old(Snapshot()), Register(r))
    {
      if !ValidRegistration(r) {
        return Refused;
      }
      var used := IsNameUsed(r.name);
      if used {
        return Refused;
      }
      var slot := 0;
      while slot < DEVICES && entries[slot].used
        invariant 0 <= slot <= DEVICES && FirstUnused(entries[..], slot) == FirstUnused(entries[..], 0)
      {
        slot := slot + 1;
      }
      if slot == DEVICES {
        return Refused;
      }
      var info := Info(MakeId(generation, slot), r.class_, r.state, r.features, r.lastError, r.name, r.driver);
      entries[slot] := Entry(info, true, true);
      activeCount := activeCount + 1;
      PublishEvent(Event(Added, info));
      return Id(info.id);
    }

    method RemoveDevice(id: nat) returns (reply: Reply)
      requires Valid()
      modifies this, entries, subscriptions
      ensures Valid() && (Snapshot(), reply) == Next(old(Snapshot()), Remove(id))
    {
      var slot := FindActive(id);
      if slot == -1 {
        return Refused;
      }
      PublishEvent(Event(Removed, entries[slot].info));
      entries[slot] := entries[slot].(present := false);
      activeCount := activeCount - 1;
      return Done;
    }

    method ChangeState(id: nat, state: nat, lastError: int) returns (reply: Reply)
      requires Valid()
      modifies entries, subscriptions
      ensures Valid() && (Snapshot(), reply) == Next(old(Snapshot()), SetState(id, state, lastError))
    {
      if state >= STATE_COUNT {
        return Refused;
      }
      var slot := FindActive(id);
      if slot == -1 {
        return Refused;
      }
      var info := entries[slot].info;
      if info.state == state && info.lastError == lastError {
        return Done;
      }
      info := info.(state := state, lastError := lastError);
      entries[slot] := entries[slot].(info := info);
      PublishEvent(Event(StateKind(state), info));
      return Done;
    }

    method AddSubscriber(owner: nat) returns (reply: Reply)
      requires Valid()
      modifies subscriptions
      ensures Valid() && (Snapshot(), reply) == Next(old(Snapshot()), Subscribe(owner))
    {
      if owner == 0 {
        return Refused;
      }
      var i := 0;
      while i < SUBSCRIBERS && subscriptions[i].used
        invariant 0 <= i <= SUBSCRIBERS && FirstFree(subscriptions[..], i) == FirstFree(subscriptions[..], 0)
      {
        i := i + 1;
      }
      if i == SUBSCRIBERS {
        return Refused;
      }
      var generation := subscriptions[i].generation + 1;
      subscriptions[i] := Unused(generation).(owner := owner, used := true);
      return Handle(SubscriptionHandle(i, generation));
    }

    /** owned_subscription. */
    method FindOwned(owner: nat, handle: int) returns (index: int)
      requires Valid()
      ensures index == Owned(Snapshot(), owner, handle)
    {
      if owner == 0 || handle < 0 {
        return -1;
      }
      index := handle % HANDLE_BASE;
      var s := subscriptions[index];
      if !s.used || s.owner != owner || s.generation != handle / HANDLE_BASE {
        index := -1;
      }
    }

    method RemoveSubscriber(owner: nat, handle: int) returns (reply: Reply)
      requires Valid()
      modifies subscriptions
      ensures Valid() && (Snapshot(), reply) == Next(old(Snapshot()), Unsubscribe(owner, handle))
    {
      var i := FindOwned(owner, handle);
      if i == -1 {
        return Refused;
      }
      subscriptions[i] := Unused(subscriptions[i].generation);
      return Done;
    }

    method RemoveOwner(owner: nat) returns (reply: Reply)
      requires Valid()
      modifies subscriptions
      ensures Valid() && (Snapshot(), reply) == Next(old(Snapshot()), UnsubscribeOwner(owner))
    {
      if owner == 0 {
        return Done;
      }
      ghost var before := subscriptions[..];
      for i := 0 to SUBSCRIBERS
        invariant Valid()
        invariant forall j :: 0 <= j < SUBSCRIBERS ==>
                    subscriptions[j] == if j < i then Dropped(before[j], owner) else before[j]
      {
        if subscriptions[i].used && subscriptions[i].owner == owner {
          subscriptions[i] := Unused(subscriptions[i].generation);
        }
      }
      assert subscriptions[..] == DropOwner(before, owner);
      return Done;
    }

    method ReadEvent(owner: nat, handle: int) returns (reply: Reply)
      requires Valid()
      modifies subscriptions
      ensures Valid() && (Snapshot(), reply) == Next(old(Snapshot()), Read(owner, handle))
    {
      var i := FindOwned(owner, handle);
      if i == -1 {
        return BadHandle;
      }
      var s := subscriptions[i];
      if s.count == 0 {
        return TryAgain;
      }
      var event, overflow := s.events[s.head], s.overflow;
      s := s.(head := (s.head + 1) % QUEUE, count := s.count - 1);
      if overflow {
        s := s.(overflow := false);
      }
      subscriptions[i] := s;
      return Got(event, overflow);
    }

    /** device_registry_at: the devices present are numbered in slot order. */
    method DeviceAt(index: nat) returns (found: bool, info: Info)
      requires Valid()
      ensures found ==> exists slot :: 0 <= slot < DEVICES && entries[slot].present && entries[slot].info == info
                                       && PresentBelow(entries[..], slot) == index
      ensures !found ==> PresentBelow(entries[..], DEVICES) <= index
    {
      var activeIndex := 0;
      for slot := 0 to DEVICES
        invariant activeIndex == PresentBelow(entries[..], slot) && activeIndex <= index
      {
        if entries[slot].present {
          if activeIndex == index {
            return true, entries[slot].info;
          }
          activeIndex := activeIndex + 1;
        }
      }
      return false, NO_INFO;
    }
  }

  function PresentBelow(entries: seq<Entry>, n: nat): nat
    requires n <= |entries|
  {
    if n == 0 then 0 else PresentBelow(entries, n - 1) + if entries[n - 1].present then 1 else 0
  }
}
