/** The contact tracker of platform/esp32p4/touch_interrupt.c, updated in place.  The controller's answers
    come in as readings; `submitted` is what the tracker handed to its listener. */
module Touch {
  import opened TouchSpec

  lemma Joined(before: seq<Event>, a: seq<Event>, b: seq<Event>, c: seq<Event>)
    ensures before + a + b + c == before + (a + b + c)
  {
  }

  lemma OneMoreMatched(contacts: seq<Contact>, points: seq<Point>, point: nat)
    requires point < |points|
    ensures MatchAll(contacts, points[..point + 1]) == MatchOne(MatchAll(contacts, points[..point]), points[point])
  {
    assert points[..point + 1][..point] == points[..point];
  }

  class TouchTracker {
    const contacts: array<Contact>
    var submitted: seq<Event>

    ghost predicate Valid()
    {
      contacts.Length == MAX_CONTACTS
    }

    constructor ()
      ensures Valid() && fresh(contacts) && submitted == []
      ensures forall i :: 0 <= i < MAX_CONTACTS ==> contacts[i] == NO_CONTACT
    {
      contacts := new Contact[MAX_CONTACTS](_ => NO_CONTACT);
      submitted := [];
    }

    method FindNearest(taken: seq<bool>, p: Point) returns (best: int)
      requires Valid() && |taken| == MAX_CONTACTS
      ensures best == Nearest(contacts[..], taken, p, MAX_CONTACTS)
    {
      ghost var all := contacts[..];
      best := -1;
      var bestDistance := UINT64_MAX;
      for i := 0 to MAX_CONTACTS
        invariant best == Nearest(all, taken, p, i)
        invariant bestDistance == if best == -1 then UINT64_MAX else Distance(all[best], p)
      {
        assert contacts[i] == all[i];
        if contacts[i].active && !taken[i] {
          var distance := Distance(contacts[i], p);
          if distance < bestDistance {
            bestDistance := distance;
            best := i;
          }
        }
      }
    }

    /** The tracker and the loop's marks are those of a matching that began when `before` was submitted. */
    ghost predicate Follows(m: Matching, taken: seq<bool>, found: seq<bool>, before: seq<Event>)
      reads this, contacts
    {
      contacts[..] == m.contacts && taken == m.taken && found == m.found && submitted == before + m.events
    }

    /** The body of the first loop. */
    method MatchPoint(taken: seq<bool>, found: seq<bool>, p: Point, ghost m: Matching, ghost before: seq<Event>)
      returns (nowTaken: seq<bool>, nowFound: seq<bool>)
      requires Valid() && Paired(m) && Follows(m, taken, found, before)
      modifies this`submitted, contacts
      ensures Follows(MatchOne(m, p), nowTaken, nowFound, before)
    {
      var best := FindNearest(taken, p);
      if best == -1 {
        return taken, found + [false];
      }
      var moved := contacts[best].x != p.x || contacts[best].y != p.y;
      contacts[best] := Contact(p.x, p.y, true);
      if moved {
        submitted := submitted + [Event(Move, best, p.x, p.y)];
      }
      return taken[best := true], found + [true];
    }

    method MatchPoints(points: seq<Point>) returns (taken: seq<bool>, found: seq<bool>)
      requires Valid()
      modifies this`submitted, contacts
      ensures Follows(MatchAll(old(contacts[..]), points), taken, found, old(submitted))
    {
      ghost var m := MatchAll(contacts[..], points[..0]);
      taken, found := Nobody(MAX_CONTACTS), [];
      for point := 0 to |points|
        invariant m == MatchAll(old(contacts[..]), points[..point])
        invariant Follows(m, taken, found, old(submitted))
      {
        taken, found := MatchPoint(taken, found, points[point], m, old(submitted));
        m := MatchOne(m, points[point]);
        OneMoreMatched(old(contacts[..]), points, point);
      }
      assert points[..|points|] == points;
    }

    /** The loops that end contacts: those not matched by a report, or all of them. */
    method EndContacts(kept: seq<bool>, kind: Kind)
      requires Valid() && |kept| == MAX_CONTACTS
      modifies this`submitted, contacts
      ensures contacts[..] == End(old(contacts[..]), kept, kind, MAX_CONTACTS).contacts
      ensures submitted == old(submitted) + End(old(contacts[..]), kept, kind, MAX_CONTACTS).events
    {
      ghost var before := contacts[..];
      for i := 0 to MAX_CONTACTS
        invariant contacts[..] == End(before, kept, kind, i).contacts
        invariant submitted == old(submitted) + End(before, kept, kind, i).events
      {
        assert contacts[i] == before[i];
        if contacts[i].active && !kept[i] {
          submitted := submitted + [Event(kind, i, contacts[i].x, contacts[i].y)];
          contacts[i] := contacts[i].(active := false);
        } else {
          assert before[i].(active := false) == before[i] || kept[i];
        }
      }
    }

    /** The body of the third loop: the first inactive contact takes the point. */
    method PlacePoint(p: Point, ghost before: seq<Event>)
      requires Valid()
      modifies this`submitted, contacts
      ensures contacts[..] == PlaceOne(Outcome(old(contacts[..]), before), p, false).contacts
      ensures before <= PlaceOne(Outcome(old(contacts[..]), before), p, false).events
      ensures submitted == old(submitted) + PlaceOne(Outcome(old(contacts[..]), before), p, false).events[|before|..]
    {
      var i := 0;
      while i < MAX_CONTACTS && contacts[i].active
        invariant 0 <= i <= MAX_CONTACTS && FirstInactive(contacts[..], i) == FirstInactive(contacts[..], 0)
      {
        i := i + 1;
      }
      if i < MAX_CONTACTS {
        contacts[i] := Contact(p.x, p.y, true);
        submitted := submitted + [Event(Down, i, p.x, p.y)];
      }
    }

    method PlacePoints(points: seq<Point>, found: seq<bool>)
      requires Valid() && |found| == |points|
      modifies this`submitted, contacts
      ensures contacts[..] == PlaceAll(old(contacts[..]), points, found).contacts
      ensures submitted == old(submitted) + PlaceAll(old(contacts[..]), points, found).events
    {
      ghost var o := Outcome(contacts[..], []);
      for point := 0 to |points|
        invariant o == PlaceAll(old(contacts[..]), points[..point], found[..point])
        invariant contacts[..] == o.contacts && submitted == old(submitted) + o.events
      {
        assert points[..point + 1][..point] == points[..point] && found[..point + 1][..point] == found[..point];
        if !found[point] {
          PlacePoint(points[point], o.events);
        }
        o := PlaceOne(o, points[point], found[point]);
      }
      assert points[..|points|] == points && found[..|points|] == found;
    }

    method ReconcilePoints(points: seq<Point>)
      requires Valid()
      modifies this`submitted, contacts
      ensures contacts[..] == Reconcile(old(contacts[..]), points).contacts
      ensures submitted == old(submitted) + Reconcile(old(contacts[..]), points).events
    {
      ghost var m := MatchAll(contacts[..], points);
      ghost var lifted := End(m.contacts, m.taken, Up, MAX_CONTACTS);
      ghost var placed := PlaceAll(lifted.contacts, points, m.found);
      var taken, found := MatchPoints(points);
      EndContacts(taken, Up);
      PlacePoints(points, found);
      assert submitted == old(submitted) + m.events + lifted.events + placed.events;
      Joined(old(submitted), m.events, lifted.events, placed.events);
    }

    method CancelContacts()
      requires Valid()
      modifies this`submitted, contacts
      ensures contacts[..] == CancelAll(old(contacts[..])).contacts
      ensures submitted == old(submitted) + CancelAll(old(contacts[..])).events
    {
      EndContacts(Nobody(MAX_CONTACTS), Cancel);
    }

    /** tab5_touch_interrupt_drain; no passes at all is a caller's error that changes nothing. */
    method DrainInterrupt(readings: seq<Reading>, maximumPasses: nat) returns (ok: bool, pending: bool)
      requires Valid() && |readings| >= maximumPasses
      modifies this`submitted, contacts
      ensures var start := Outcome(old(contacts[..]), old(submitted));
              var d := Drain(start, readings[..maximumPasses], false);
              && ok == (maximumPasses > 0 && d.ok)
              && pending == d.pending
              && Outcome(contacts[..], submitted) == d.outcome
    {
      pending := false;
      if maximumPasses == 0 {
        return false, false;
      }
      ghost var start := Outcome(contacts[..], submitted);
      for pass := 0 to maximumPasses
        invariant Drain(start, readings[..maximumPasses], false)
               == Drain(Outcome(contacts[..], submitted), readings[pass..maximumPasses], pending)
      {
        assert readings[pass..maximumPasses][1..] == readings[pass + 1..maximumPasses];
        var reading := readings[pass];
        if reading.points.None? || |reading.points.value| > MAX_CONTACTS {
          CancelContacts();
          return false, pending;
        }
        ReconcilePoints(reading.points.value);
        pending := reading.asserted;
        if !pending {
          return true, false;
        }
      }
      return true, pending;
    }
  }
}
