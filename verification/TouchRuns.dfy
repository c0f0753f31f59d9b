/** What touch reports do to contacts and which events listeners hear, over every run. */
module TouchRuns {
  import opened TouchSpec

  // ----- Positions -----

  lemma {:induction false} MarkedSame(a: seq<Contact>, marksA: seq<bool>, b: seq<Contact>, marksB: seq<bool>, n: nat)
    requires |a| == |marksA| && |b| == |marksB| && n <= |a| && n <= |b|
    requires forall i :: 0 <= i < n ==> marksA[i] == marksB[i] && (marksA[i] ==> At(a[i]) == At(b[i]))
    ensures Marked(a, marksA, n) == Marked(b, marksB, n)
  {
    if n > 0 {
      MarkedSame(a, marksA, b, marksB, n - 1);
    }
  }

  /** Marking one more contact adds its position. */
  lemma {:induction false} MarkedMore(contacts: seq<Contact>, marks: seq<bool>, i: nat, p: Point, n: nat)
    requires |marks| == |contacts| && i < |contacts| && n <= |contacts| && !marks[i]
    ensures Marked(contacts[i := On(p)], marks[i := true], n)
         == Marked(contacts, marks, n) + if i < n then multiset{p} else multiset{}
  {
    if n > 0 {
      MarkedMore(contacts, marks, i, p, n - 1);
    }
  }

  lemma {:induction false} MarkedCount(contacts: seq<Contact>, marks: seq<bool>, n: nat)
    requires |marks| == |contacts| && n <= |contacts|
    ensures |Marked(contacts, marks, n)| <= n
    ensures |Marked(contacts, marks, n)| == n <==> forall i :: 0 <= i < n ==> marks[i]
  {
    if n > 0 {
      MarkedCount(contacts, marks, n - 1);
    }
  }

  lemma {:induction false} FoundSplit(points: seq<Point>, found: seq<bool>)
    requires |found| == |points|
    ensures Found(points, found, true) + Found(points, found, false) == multiset(points)
  {
    if points != [] {
      var n := |points| - 1;
      FoundSplit(points[..n], found[..n]);
      assert points == points[..n] + [points[n]];
    }
  }

  // ----- Matching -----

  /** The matched contacts stand where the matched points are. */
  lemma {:induction false} MatchedPositions(contacts: seq<Contact>, points: seq<Point>)
    ensures var m := MatchAll(contacts, points);
            Marked(m.contacts, m.taken, |m.contacts|) == Found(points, m.found, true)
    decreases |points|
  {
    var m := MatchAll(contacts, points);
    if points == [] {
      NobodyMarked(contacts, |contacts|);
    } else {
      var n := |points| - 1;
      var before := MatchAll(contacts, points[..n]);
      MatchedPositions(contacts, points[..n]);
      assert m.found[..n] == before.found;
      var best := Nearest(before.contacts, before.taken, points[n], |before.contacts|);
      if best >= 0 {
        MarkedMore(before.contacts, before.taken, best, points[n], |before.contacts|);
      }
    }
  }

  lemma {:induction false} NobodyMarked(contacts: seq<Contact>, n: nat)
    requires n <= |contacts|
    ensures Marked(contacts, Nobody(|contacts|), n) == multiset{}
  {
    if n > 0 {
      NobodyMarked(contacts, n - 1);
    }
  }

  predicate Exhausted(m: Matching)
    requires Paired(m)
  {
    forall i :: 0 <= i < |m.contacts| ==> !Candidate(m.contacts, m.taken, i)
  }

  /** A point stays unmatched only when every active contact is taken. */
  lemma {:induction false} UnmatchedMeansExhausted(contacts: seq<Contact>, points: seq<Point>)
    ensures var m := MatchAll(contacts, points); false in m.found ==> Exhausted(m)
    decreases |points|
  {
    if points != [] {
      UnmatchedMeansExhausted(contacts, points[..|points| - 1]);
    }
  }

  // ----- Placing -----

  /** Every unmatched point finds a free contact when there are at least as many contacts as points. */
  lemma {:induction false} PlacedPositions(contacts: seq<Contact>, points: seq<Point>, found: seq<bool>)
    requires |found| == |points| && |Positions(contacts)| + |Found(points, found, false)| <= |contacts|
    ensures Positions(PlaceAll(contacts, points, found).contacts) == Positions(contacts) + Found(points, found, false)
    decreases |points|
  {
    if points != [] {
      var n := |points| - 1;
      PlacedPositions(contacts, points[..n], found[..n]);
      var before := PlaceAll(contacts, points[..n], found[..n]);
      if !found[n] {
        PlacedOne(before, points[n]);
      }
    }
  }

  lemma PlacedOne(o: Outcome, p: Point)
    requires |Positions(o.contacts)| < |o.contacts|
    ensures Positions(PlaceOne(o, p, false).contacts) == Positions(o.contacts) + multiset{p}
  {
    var i := FirstInactive(o.contacts, 0);
    MarkedCount(o.contacts, Actives(o.contacts), |o.contacts|);
    assert i < |o.contacts|;
    MarkedMore(o.contacts, Actives(o.contacts), i, p, |o.contacts|);
    assert Actives(o.contacts[i := On(p)]) == Actives(o.contacts)[i := true];
  }

  /** After a report the active contacts stand exactly where the controller reported points. */
  lemma ReportIsHeld(contacts: seq<Contact>, points: seq<Point>)
    requires |points| <= |contacts|
    ensures Positions(Reconcile(contacts, points).contacts) == multiset(points)
  {
    var m := MatchAll(contacts, points);
    var lifted := End(m.contacts, m.taken, Up, |m.contacts|);
    MatchedPositions(contacts, points);
    MarkedSame(lifted.contacts, Actives(lifted.contacts), m.contacts, m.taken, |m.contacts|);
    FoundSplit(points, m.found);
    assert |multiset(points)| == |points|;
    PlacedPositions(lifted.contacts, points, m.found);
  }

  // ----- Which events -----

  lemma {:induction false} MatchMoves(contacts: seq<Contact>, points: seq<Point>, e: Event)
    requires e in MatchAll(contacts, points).events
    ensures e.kind == Move
    decreases |points|
  {
    if points != [] && e in MatchAll(contacts, points[..|points| - 1]).events {
      MatchMoves(contacts, points[..|points| - 1], e);
    }
  }

  lemma {:induction false} PlaceDowns(contacts: seq<Contact>, points: seq<Point>, found: seq<bool>)
    requires |found| == |points|
    ensures forall e :: e in PlaceAll(contacts, points, found).events ==> e.kind == Down
    ensures !(false in found) ==> PlaceAll(contacts, points, found).events == []
    decreases |points|
  {
    if points != [] {
      var n := |points| - 1;
      PlaceDowns(contacts, points[..n], found[..n]);
      assert found[n] in found && forall b :: b in found[..n] ==> b in found;
    }
  }

  /** One report never both lifts a contact and puts one down, and never cancels. */
  lemma NeverUpAndDown(contacts: seq<Contact>, points: seq<Point>, up: Event, down: Event)
    requires up in Reconcile(contacts, points).events && down in Reconcile(contacts, points).events
    ensures !(up.kind == Up && down.kind == Down) && up.kind != Cancel
  {
    var m := MatchAll(contacts, points);
    UnmatchedMeansExhausted(contacts, points);
    var lifted := End(m.contacts, m.taken, Up, |m.contacts|);
    PlaceDowns(lifted.contacts, points, m.found);
    if up in m.events {
      MatchMoves(contacts, points, up);
    }
    if down in m.events {
      MatchMoves(contacts, points, down);
    }
  }

  // ----- Replaying the events gives the contacts -----

  lemma {:induction false} ReplayOn(contacts: seq<Contact>, first: seq<Event>, second: seq<Event>)
    requires Replay(contacts, first).Some?
    ensures Replay(contacts, first + second) == Replay(Replay(contacts, first).value, second)
    decreases |second|
  {
    if second == [] {
      assert first + second == first;
    } else {
      var fewer := second[..|second| - 1];
      assert (first + second)[..|first + second| - 1] == first + fewer;
      ReplayOn(contacts, first, fewer);
    }
  }

  lemma ReplayOne(contacts: seq<Contact>, events: seq<Event>, now: seq<Contact>, e: Event)
    requires Replay(contacts, events) == Some(now)
    ensures Replay(contacts, events + [e]) == Apply(now, e)
  {
    assert (events + [e])[..|events|] == events;
  }

  lemma {:induction false} MatchReplays(contacts: seq<Contact>, points: seq<Point>)
    ensures Replay(contacts, MatchAll(contacts, points).events) == Some(MatchAll(contacts, points).contacts)
    decreases |points|
  {
    if points != [] {
      MatchReplays(contacts, points[..|points| - 1]);
      MatchOneReplays(contacts, MatchAll(contacts, points[..|points| - 1]), points[|points| - 1]);
    }
  }

  lemma MoveReplays(contacts: seq<Contact>, events: seq<Event>, now: seq<Contact>, i: nat, p: Point)
    requires Replay(contacts, events) == Some(now) && i < |now| && now[i].active
    ensures Replay(contacts, events + if At(now[i]) != p then [Event(Move, i, p.x, p.y)] else [])
         == Some(now[i := On(p)])
  {
    if At(now[i]) != p {
      ReplayOne(contacts, events, now, Event(Move, i, p.x, p.y));
    } else {
      assert now[i := On(p)] == now && events + [] == events;
    }
  }

  lemma MatchOneReplays(contacts: seq<Contact>, m: Matching, p: Point)
    requires Paired(m) && Replay(contacts, m.events) == Some(m.contacts)
    ensures Replay(contacts, MatchOne(m, p).events) == Some(MatchOne(m, p).contacts)
  {
    var best := Nearest(m.contacts, m.taken, p, |m.contacts|);
    if best >= 0 {
      MoveReplays(contacts, m.events, m.contacts, best, p);
    }
  }

  lemma {:induction false} EndReplays(contacts: seq<Contact>, kept: seq<bool>, kind: Kind, n: nat)
    requires |kept| == |contacts| && n <= |contacts| && (kind == Up || kind == Cancel)
    ensures Replay(contacts, End(contacts, kept, kind, n).events) == Some(End(contacts, kept, kind, n).contacts)
  {
    if n > 0 {
      EndReplays(contacts, kept, kind, n - 1);
      var before := End(contacts, kept, kind, n - 1);
      if Candidate(contacts, kept, n - 1) {
        ReplayOne(contacts, before.events, before.contacts, Lifted(contacts[n - 1], kind, n - 1));
      }
    }
  }

  lemma {:induction false} PlaceReplays(contacts: seq<Contact>, points: seq<Point>, found: seq<bool>)
    requires |found| == |points|
    ensures var r := PlaceAll(contacts, points, found); Replay(contacts, r.events) == Some(r.contacts)
    decreases |points|
  {
    if points != [] {
      var n := |points| - 1;
      PlaceReplays(contacts, points[..n], found[..n]);
      var before := PlaceAll(contacts, points[..n], found[..n]);
      var i := FirstInactive(before.contacts, 0);
      if !found[n] && i < |contacts| {
        ReplayOne(contacts, before.events, before.contacts, Event(Down, i, points[n].x, points[n].y));
      }
    }
  }

  /** The events of a report tell a listener exactly what the contacts became. */
  lemma ReconcileReplays(contacts: seq<Contact>, points: seq<Point>)
    ensures var r := Reconcile(contacts, points); Replay(contacts, r.events) == Some(r.contacts)
  {
    var m := MatchAll(contacts, points);
    var lifted := End(m.contacts, m.taken, Up, |m.contacts|);
    var placed := PlaceAll(lifted.contacts, points, m.found);
    MatchReplays(contacts, points);
    EndReplays(m.contacts, m.taken, Up, |m.contacts|);
    ReplayOn(contacts, m.events, lifted.events);
    PlaceReplays(lifted.contacts, points, m.found);
    ReplayOn(contacts, m.events + lifted.events, placed.events);
  }

  lemma CancelReplays(contacts: seq<Contact>)
    ensures Replay(contacts, CancelAll(contacts).events) == Some(CancelAll(contacts).contacts)
  {
    EndReplays(contacts, Nobody(|contacts|), Cancel, |contacts|);
  }

  lemma {:induction false} DrainReplays(start: seq<Contact>, o: Outcome, readings: seq<Reading>, pending: bool)
    requires Replay(start, o.events) == Some(o.contacts)
    ensures var r := Drain(o, readings, pending).outcome; Replay(start, r.events) == Some(r.contacts)
    decreases |readings|
  {
    if readings == [] {
    } else if !Readable(readings[0]) {
      CancelReplays(o.contacts);
      ReplayOn(start, o.events, CancelAll(o.contacts).events);
    } else {
      var r := Reconcile(o.contacts, readings[0].points.value);
      ReconcileReplays(o.contacts, readings[0].points.value);
      ReplayOn(start, o.events, r.events);
      if readings[0].asserted {
        DrainReplays(start, Outcome(r.contacts, o.events + r.events), readings[1..], true);
      }
    }
  }

  // ----- What a listener hears of one contact -----

  lemma {:induction false} TouchesThen(kinds: seq<Kind>, k: Kind)
    ensures Touches(kinds) ==> Touches(kinds + [k]) == (if Unfinished(kinds) then k != Down else k == Down)
    ensures kinds != [] && Touching(kinds) ==>
              Touching(kinds + [k]) == (if Unfinished(kinds) then k != Down else k == Down)
    ensures kinds == [] ==> Touching([k]) == (k != Down)
    decreases |kinds|
  {
    if kinds == [] {
      assert [] + [k] == [k] && [k][1..] == [];
    } else {
      assert (kinds + [k])[1..] == kinds[1..] + [k];
      TouchesThen(kinds[1..], k);
      if kinds[1..] == [] {
        assert kinds[1..] + [k] == [k] && [k][1..] == [];
      }
    }
  }

  /** A listener that heard every event of an idle contact heard whole touches, and one unfinished touch
      exactly when the contact is active now. */
  lemma {:induction false} HearsTouches(contacts: seq<Contact>, events: seq<Event>, contact: nat)
    requires contact < |contacts| && !contacts[contact].active && Replay(contacts, events).Some?
    ensures |Replay(contacts, events).value| == |contacts|
    ensures Touches(Heard(events, contact))
    ensures Unfinished(Heard(events, contact)) == Replay(contacts, events).value[contact].active
    decreases |events|
  {
    if events != [] {
      var n := |events| - 1;
      HearsTouches(contacts, events[..n], contact);
      TouchesThen(Heard(events[..n], contact), events[n].kind);
      assert events[n].contact != contact ==> Heard(events, contact) == Heard(events[..n], contact);
    }
  }

  // ----- A repeated report is silent -----

  lemma {:induction false} Untaken(contacts: seq<Contact>, taken: seq<bool>, p: Point, n: nat) returns (i: nat)
    requires |taken| == |contacts| && n <= |contacts|
    requires Marked(contacts, taken, n)[p] < Marked(contacts, Actives(contacts), n)[p]
    ensures i < n && Candidate(contacts, taken, i) && At(contacts[i]) == p
  {
    if Candidate(contacts, taken, n - 1) && At(contacts[n - 1]) == p {
      i := n - 1;
    } else {
      i := Untaken(contacts, taken, p, n - 1);
    }
  }

  lemma {:induction false} MatchesInPlace(contacts: seq<Contact>, points: seq<Point>, k: nat)
    requires Positions(contacts) == multiset(points) && k <= |points|
    ensures var m := MatchAll(contacts, points[..k]);
            m.contacts == contacts && m.events == [] && !(false in m.found)
    decreases k
  {
    if k > 0 {
      var n := k - 1;
      assert points[..k][..n] == points[..n];
      MatchesInPlace(contacts, points, n);
      var before := MatchAll(contacts, points[..n]);
      MatchedPositions(contacts, points[..n]);
      FoundSplit(points[..n], before.found);
      NoneMissing(points[..n], before.found);
      assert points == points[..n] + points[n..] && points[n] in multiset(points[n..]);
      assert multiset(points) == multiset(points[..n]) + multiset(points[n..]);
      var i := Untaken(contacts, before.taken, points[n], |contacts|);
      var best := Nearest(contacts, before.taken, points[n], |contacts|);
      assert Distance(contacts[best], points[n]) == 0;
      assert contacts[best := On(points[n])] == contacts;
    }
  }

  lemma {:induction false} NoneMissing(points: seq<Point>, found: seq<bool>)
    requires |found| == |points| && !(false in found)
    ensures Found(points, found, false) == multiset{}
    decreases |points|
  {
    if points != [] {
      var n := |points| - 1;
      assert found[n] in found && forall b :: b in found[..n] ==> b in found;
      NoneMissing(points[..n], found[..n]);
    }
  }

  /** Reporting what the contacts already hold changes nothing and is heard by nobody, in whatever order the
      controller lists the points. */
  lemma SameReportIsSilent(contacts: seq<Contact>, points: seq<Point>)
    requires Positions(contacts) == multiset(points)
    ensures Reconcile(contacts, points) == Outcome(contacts, [])
  {
    assert points[..|points|] == points;
    MatchesInPlace(contacts, points, |points|);
    var m := MatchAll(contacts, points);
    MatchedPositions(contacts, points);
    FoundSplit(points, m.found);
    NoneMissing(points, m.found);
    AllTaken(contacts, m.taken, |contacts|);
    var lifted := End(m.contacts, m.taken, Up, |contacts|);
    assert lifted.contacts == contacts;
    PlaceDowns(contacts, points, m.found);
    PlacesNobody(contacts, points, m.found);
  }

  lemma {:induction false} PlacesNobody(contacts: seq<Contact>, points: seq<Point>, found: seq<bool>)
    requires |found| == |points| && !(false in found)
    ensures PlaceAll(contacts, points, found).contacts == contacts
    decreases |points|
  {
    if points != [] {
      var n := |points| - 1;
      assert found[n] in found && forall b :: b in found[..n] ==> b in found;
      PlacesNobody(contacts, points[..n], found[..n]);
    }
  }

  lemma MarkedSize(contacts: seq<Contact>, marks: seq<bool>, n: nat)
    requires |marks| == |contacts| && 0 < n <= |contacts|
    ensures |Marked(contacts, marks, n)| == |Marked(contacts, marks, n - 1)| + if marks[n - 1] then 1 else 0
  {
  }

  /** As many contacts taken as there are active ones: none is left over. */
  lemma AllTaken(contacts: seq<Contact>, taken: seq<bool>, n: nat)
    requires |taken| == |contacts| && n <= |contacts|
    requires forall i :: 0 <= i < n && taken[i] ==> contacts[i].active
    requires |Marked(contacts, taken, n)| >= |Marked(contacts, Actives(contacts), n)|
    ensures forall i :: 0 <= i < n && contacts[i].active ==> taken[i]
  {
    forall i | 0 <= i < n && contacts[i].active ensures taken[i] {
      if !taken[i] {
        OneLeftOver(contacts, taken, i, n);
      }
    }
  }

  lemma {:induction false} OneLeftOver(contacts: seq<Contact>, taken: seq<bool>, i: nat, n: nat)
    requires |taken| == |contacts| && i < n <= |contacts| && contacts[i].active && !taken[i]
    requires forall j :: 0 <= j < n && taken[j] ==> contacts[j].active
    ensures |Marked(contacts, taken, n)| < |Marked(contacts, Actives(contacts), n)|
  {
    MarkedSize(contacts, taken, n);
    MarkedSize(contacts, Actives(contacts), n);
    if i == n - 1 {
      FewerTaken(contacts, taken, n - 1);
    } else {
      OneLeftOver(contacts, taken, i, n - 1);
    }
  }

  lemma {:induction false} FewerTaken(contacts: seq<Contact>, taken: seq<bool>, n: nat)
    requires |taken| == |contacts| && n <= |contacts|
    requires forall i :: 0 <= i < n && taken[i] ==> contacts[i].active
    ensures |Marked(contacts, taken, n)| <= |Marked(contacts, Actives(contacts), n)|
  {
    if n > 0 {
      FewerTaken(contacts, taken, n - 1);
    }
  }

  // ----- Whole runs -----

  datatype Call = Interrupt(readings: seq<Reading>) | Stop

  function Idle(n: nat): (r: seq<Contact>)
    ensures |r| == n && forall i :: 0 <= i < n ==> r[i] == NO_CONTACT
  {
    if n == 0 then [] else Idle(n - 1) + [NO_CONTACT]
  }

  function Run(calls: seq<Call>): (r: Outcome)
    ensures |r.contacts| == MAX_CONTACTS
  {
    if calls == [] then Outcome(Idle(MAX_CONTACTS), [])
    else
      var before := Run(calls[..|calls| - 1]);
      match calls[|calls| - 1]
      case Interrupt(readings) => Drain(before, readings, false).outcome
      case Stop => var c := CancelAll(before.contacts); Outcome(c.contacts, before.events + c.events)
  }

  lemma {:induction false} RunReplays(calls: seq<Call>)
    ensures Replay(Idle(MAX_CONTACTS), Run(calls).events) == Some(Run(calls).contacts)
    decreases |calls|
  {
    if calls != [] {
      var before := Run(calls[..|calls| - 1]);
      RunReplays(calls[..|calls| - 1]);
      match calls[|calls| - 1] {
        case Interrupt(readings) => DrainReplays(Idle(MAX_CONTACTS), before, readings, false);
        case Stop =>
          CancelReplays(before.contacts);
          ReplayOn(Idle(MAX_CONTACTS), before.events, CancelAll(before.contacts).events);
      }
    }
  }

  /** Over every run each contact's events form Down, Move*, then Up or Cancel, again and again. */
  lemma EveryTouchIsWhole(calls: seq<Call>, contact: nat)
    requires contact < MAX_CONTACTS
    ensures Touches(Heard(Run(calls).events, contact))
    ensures Unfinished(Heard(Run(calls).events, contact)) == Run(calls).contacts[contact].active
  {
    RunReplays(calls);
    HearsTouches(Idle(MAX_CONTACTS), Run(calls).events, contact);
  }

  /** What a drain that ended with the `k`-th reading leaves: a failure leaves no contact active, otherwise
      the contacts are where that reading says, and the line is quiet unless the passes ran out. */
  ghost predicate Settles(d: Drained, readings: seq<Reading>, k: nat) {
    && k < |readings| && (forall j :: 0 <= j < k ==> readings[j].asserted && Readable(readings[j]))
    && d.ok == Readable(readings[k])
    && (!d.ok ==> forall c :: c in d.outcome.contacts ==> !c.active)
    && (d.ok ==>
          && Positions(d.outcome.contacts) == multiset(readings[k].points.value)
          && d.pending == readings[k].asserted
          && (d.pending ==> k == |readings| - 1))
  }

  lemma SettlesLater(d: Drained, readings: seq<Reading>, k: nat)
    requires |readings| > 1 && Readable(readings[0]) && readings[0].asserted && Settles(d, readings[1..], k)
    ensures Settles(d, readings, k + 1)
  {
    assert readings[k + 1] == readings[1..][k];
  }

  /** A drain ends with its first reading that fails or leaves the interrupt line quiet, or with the last. */
  lemma {:induction false} DrainEnds(o: Outcome, readings: seq<Reading>, pending: bool) returns (k: nat)
    requires |o.contacts| == MAX_CONTACTS && readings != []
    ensures Settles(Drain(o, readings, pending), readings, k)
    decreases |readings|
  {
    k := 0;
    if Readable(readings[0]) {
      var points := readings[0].points.value;
      ReportIsHeld(o.contacts, points);
      if readings[0].asserted && |readings| > 1 {
        var r := Reconcile(o.contacts, points);
        var later := DrainEnds(Outcome(r.contacts, o.events + r.events), readings[1..], true);
        SettlesLater(Drain(o, readings, pending), readings, later);
        k := later + 1;
      }
    }
  }
}
