/** What the callers of kernel/device_registry.c get: which calls are accepted, what is stored and what every
    subscriber hears. */
module DeviceCallers {
  import opened DeviceRuns
  import opened DeviceSpec

  /** Every subscriber hears an event: it waits last, and the oldest one goes when 32 are waiting. */
  ghost predicate Heard(st: State, now: State, e: Event)
    requires Shaped(st) && Shaped(now)
  {
    forall j :: 0 <= j < SUBSCRIBERS ==> HeardBy(st.subs[j], now.subs[j], e)
  }

  predicate HeardBy(s: Subscription, t: Subscription, e: Event)
    requires IsRing(s) && IsRing(t)
  {
    if !s.used then t == s
    else
      && t.used && t.owner == s.owner && t.generation == s.generation && t.overflow == (s.overflow || s.count == 32)
      && Waiting(t) == (if s.count == 32 then Waiting(s)[1..] else Waiting(s)) + [e]
  }

  /** Only one entry may differ; subscribers and the generation are not said anything about. */
  predicate OneEntry(st: State, now: State, i: nat, entry: Entry) {
    i < |st.entries| && now.entries == st.entries[i := entry] && now.generation == st.generation
  }

  lemma EnqueueIsHeard(s: Subscription, e: Event)
    requires IsRing(s)
    ensures HeardBy(s, Enqueue(s, e), e)
  {
    if s.used {
      EnqueueWaits(s, e);
    }
  }

  lemma PublishIsHeard(st: State, slot: nat, entry: Entry, e: Event)
    requires Shaped(st) && slot < DEVICES
    ensures Heard(st, Publish(st, slot, entry, e), e) && OneEntry(st, Publish(st, slot, entry, e), slot, entry)
  {
    forall j | 0 <= j < SUBSCRIBERS ensures HeardBy(st.subs[j], Publish(st, slot, entry, e).subs[j], e) {
      EnqueueIsHeard(st.subs[j], e);
    }
  }

  // ----- Registering -----

  /** A registration is taken when its texts and numbers are valid, nobody ever had its name, and an entry was never
      used. */
  ghost predicate CanRegister(st: State, r: Registration)
    requires Shaped(st)
  {
    && 1 <= |r.name| <= 15 && 1 <= |r.driver| <= 31 && r.class_ < 11 && r.state < 3
    && (forall i :: 0 <= i < DEVICES && st.entries[i].used ==> st.entries[i].info.name != r.name)
    && exists i :: 0 <= i < DEVICES && !st.entries[i].used
  }

  /** A device registered in an entry, under the identifier of the entry in this life of the registry. */
  ghost predicate Registered(st: State, r: Registration, now: State, id: nat, i: nat)
    requires Shaped(st) && Shaped(now)
  {
    var info := Info(64 * st.generation + i + 1, r.class_, r.state, r.features, r.lastError, r.name, r.driver);
    && OneEntry(st, now, i, Entry(info, true, true)) && id == info.id && now.active == st.active + 1
    && Heard(st, now, Event(Added, info))
    && !st.entries[i].used && forall k :: 0 <= k < i ==> st.entries[k].used
  }

  lemma RegisterTells(st: State, r: Registration) returns (i: nat)
    requires Shaped(st)
    ensures var n := Next(st, Register(r));
            if CanRegister(st, r) then n.1.Id? && Registered(st, r, n.0, n.1.id, i) else n == (st, Refused)
  {
    i := FirstUnused(st.entries, 0);
    if CanRegister(st, r) {
      var info := Info(64 * st.generation + i + 1, r.class_, r.state, r.features, r.lastError, r.name, r.driver);
      PublishIsHeard(st, i, Entry(info, true, true), Event(Added, info));
    }
  }

  // ----- Removing and changing -----

  /** The entry of a present device. */
  ghost predicate IsPresent(st: State, id: nat, i: nat)
    requires Shaped(st)
  {
    i < DEVICES && st.entries[i].present && st.entries[i].info.id == id
  }

  /** An identifier of a present device leads to its entry, and there is only one. */
  lemma PresentFound(st: State, id: nat, i: nat)
    requires Shaped(st) && IdsOk(st) && IsPresent(st, id, i)
    ensures ActiveSlot(st, id) == i
  {
    IdSlot(st.generation, i);
  }

  ghost predicate RemovedAt(st: State, now: State, i: nat)
    requires Shaped(st) && Shaped(now)
  {
    && i < DEVICES && now.active == st.active - 1
    && OneEntry(st, now, i, Entry(st.entries[i].info, st.entries[i].used, false))
    && Heard(st, now, Event(Removed, st.entries[i].info))
  }

  /** A removal is taken exactly when a present device has the identifier; what was known of the device is kept. */
  lemma RemoveTells(st: State, id: nat) returns (i: nat)
    requires Shaped(st) && IdsOk(st)
    ensures var n := Next(st, Remove(id));
            if exists k :: IsPresent(st, id, k) then n.1 == Done && IsPresent(st, id, i) && RemovedAt(st, n.0, i)
            else n == (st, Refused)
  {
    i := 0;
    if k :| IsPresent(st, id, k) {
      PresentFound(st, id, k);
      i := k;
      PublishIsHeard(st, i, st.entries[i].(present := false), Event(Removed, st.entries[i].info));
    } else if ActiveSlot(st, id) >= 0 {
      assert IsPresent(st, id, ActiveSlot(st, id));
    }
  }

  /** What is announced of a device that is ready, offline or at fault. */
  function Announced(state: nat): Kind
    requires state < 3
  {
    [BecameReady, BecameOffline, BecameFault][state]
  }

  ghost predicate ChangedAt(st: State, now: State, i: nat, state: nat, lastError: int)
    requires Shaped(st) && Shaped(now) && state < 3
  {
    && i < DEVICES && now.active == st.active
    && var was := st.entries[i].info;
       var info := Info(was.id, was.class_, state, was.features, lastError, was.name, was.driver);
       if was.state == state && was.lastError == lastError then now == st
       else
         && OneEntry(st, now, i, Entry(info, st.entries[i].used, st.entries[i].present))
         && Heard(st, now, Event(Announced(state), info))
  }

  /** A state is taken exactly when it is one of the three and a present device has the identifier; it is announced
      unless the device was in it, with the same error, before. */
  lemma SetStateTells(st: State, id: nat, state: nat, lastError: int) returns (i: nat)
    requires Shaped(st) && IdsOk(st)
    ensures var n := Next(st, SetState(id, state, lastError));
            if state < 3 && exists k :: IsPresent(st, id, k) then
              n.1 == Done && IsPresent(st, id, i) && ChangedAt(st, n.0, i, state, lastError)
            else n == (st, Refused)
  {
    i := 0;
    if k :| IsPresent(st, id, k) {
      PresentFound(st, id, k);
      i := k;
      if state < 3 {
        var info := st.entries[i].info.(state := state, lastError := lastError);
        PublishIsHeard(st, i, st.entries[i].(info := info), Event(Announced(state), info));
      }
    } else if ActiveSlot(st, id) >= 0 {
      assert IsPresent(st, id, ActiveSlot(st, id));
    }
  }

  // ----- Subscribing and reading -----

  /** Only one subscription may differ. */
  predicate OneSub(st: State, now: State, i: nat, s: Subscription) {
    i < |st.subs| && now == State(st.entries, st.subs[i := s], st.generation, st.active)
  }

  /** A subscription is given to an owner exactly when one is free: it is empty, and its handle is a new one. */
  lemma SubscribeTells(st: State, owner: nat) returns (i: nat)
    requires Shaped(st)
    ensures var n := Next(st, Subscribe(owner));
            if owner != 0 && exists k :: 0 <= k < SUBSCRIBERS && !st.subs[k].used then
              && i < SUBSCRIBERS && !st.subs[i].used && n.1 == Handle(16 * (st.subs[i].generation + 1) + i)
              && OneSub(st, n.0, i, n.0.subs[i]) && NewSub(n.0.subs[i], owner, st.subs[i].generation + 1)
            else n == (st, Refused)
  {
    i := FirstFree(st.subs, 0);
  }

  predicate NewSub(s: Subscription, owner: nat, generation: nat) {
    s.used && s.owner == owner && s.generation == generation && s.count == 0 && !s.overflow
  }

  /** A handle is accepted exactly for its owner, its subscription and its generation. */
  predicate Owns(st: State, owner: nat, handle: int, i: nat)
    requires Shaped(st)
  {
    && owner != 0 && i < SUBSCRIBERS && st.subs[i].used && st.subs[i].owner == owner
    && handle == 16 * st.subs[i].generation + i
  }

  lemma OwnedFound(st: State, owner: nat, handle: int, i: nat)
    requires Shaped(st) && Owns(st, owner, handle, i)
    ensures Owned(st, owner, handle) == i
  {
    assert handle % HANDLE_BASE == i && handle / HANDLE_BASE == st.subs[i].generation;
  }

  lemma FoundOwned(st: State, owner: nat, handle: int)
    requires Shaped(st) && Owned(st, owner, handle) >= 0
    ensures Owns(st, owner, handle, Owned(st, owner, handle))
  {
  }

  /** A read hands out the oldest waiting event and whether any was pushed out since the last one. */
  ghost predicate ReadAt(st: State, n: (State, Reply), i: nat)
    requires Shaped(st) && Shaped(n.0) && i < SUBSCRIBERS
  {
    var s, t := st.subs[i], n.0.subs[i];
    && s.count > 0 && n.1 == Got(Waiting(s)[0], s.overflow)
    && OneSub(st, n.0, i, t) && t.used && t.owner == s.owner && t.generation == s.generation && !t.overflow
    && Waiting(t) == Waiting(s)[1..]
  }

  lemma ReadTells(st: State, owner: nat, handle: int) returns (i: nat)
    requires Shaped(st)
    ensures var n := Next(st, Read(owner, handle));
            if exists k :: Owns(st, owner, handle, k) then
              && Owns(st, owner, handle, i)
              && if st.subs[i].count == 0 then n == (st, TryAgain) else ReadAt(st, n, i)
            else n == (st, BadHandle)
  {
    i := 0;
    if k :| Owns(st, owner, handle, k) {
      OwnedFound(st, owner, handle, k);
      i := k;
      if st.subs[i].count > 0 {
        DequeueWaits(st.subs[i]);
      }
    } else if Owned(st, owner, handle) >= 0 {
      FoundOwned(st, owner, handle);
    }
  }

  /** A subscription ends exactly for its owner; the others of any owner stay. */
  lemma UnsubscribeTells(st: State, owner: nat, handle: int) returns (i: nat)
    requires Shaped(st)
    ensures var n := Next(st, Unsubscribe(owner, handle));
            if exists k :: Owns(st, owner, handle, k) then
              && Owns(st, owner, handle, i) && n.1 == Done && OneSub(st, n.0, i, n.0.subs[i])
              && !n.0.subs[i].used && n.0.subs[i].generation == st.subs[i].generation
            else n == (st, Refused)
  {
    i := 0;
    if k :| Owns(st, owner, handle, k) {
      OwnedFound(st, owner, handle, k);
      i := k;
    } else if Owned(st, owner, handle) >= 0 {
      FoundOwned(st, owner, handle);
    }
  }

  /** When an owner goes, all of its subscriptions end and no other. */
  lemma OwnerTells(st: State, owner: nat)
    requires Shaped(st) && owner != 0
    ensures var n := Next(st, UnsubscribeOwner(owner));
            && n.1 == Done && n.0 == State(st.entries, n.0.subs, st.generation, st.active)
            && forall j :: 0 <= j < SUBSCRIBERS ==>
                 var s, t := st.subs[j], n.0.subs[j];
                 if s.used && s.owner == owner then !t.used && t.generation == s.generation else t == s
  {
  }
}
