/** Which contact a reported point of platform/esp32p4/touch_interrupt.c goes to. */
module TouchMatching {
  import opened TouchSpec

  /** The square of the distance between a contact and a point. */
  function Apart(c: Contact, p: Point): int {
    (c.x - p.x) * (c.x - p.x) + (c.y - p.y) * (c.y - p.y)
  }

  /** Contact i is there for the point after those that went to the contacts in `to`. */
  predicate Open(contacts: seq<Contact>, to: seq<int>, i: int) {
    0 <= i < |contacts| && contacts[i].active && i !in to
  }

  /** The contact nearest to the point of those that are open, the first of equals, or -1 when none is. */
  ghost predicate Chosen(contacts: seq<Contact>, to: seq<int>, p: Point, i: int) {
    if forall j :: !Open(contacts, to, j) then i == -1
    else
      && Open(contacts, to, i)
      && forall j :: Open(contacts, to, j) ==>
           Apart(contacts[i], p) < Apart(contacts[j], p) || (Apart(contacts[i], p) == Apart(contacts[j], p) && i <= j)
  }

  /** Each point in turn is given the contact chosen for it. */
  ghost predicate Assigned(contacts: seq<Contact>, points: seq<Point>, to: seq<int>) {
    |to| == |points| && forall k :: 0 <= k < |points| ==> Chosen(contacts, to[..k], points[k], to[k])
  }

  /** The matching so far is the assignment so far. */
  ghost predicate Follows(contacts: seq<Contact>, points: seq<Point>, to: seq<int>, m: Matching) {
    && |m.contacts| == |m.taken| == |contacts| && |m.found| == |points| == |to|
    && (forall k :: 0 <= k < |to| ==> m.found[k] == (to[k] >= 0) && -1 <= to[k] < |contacts|)
    && (forall i :: 0 <= i < |contacts| ==> m.taken[i] == (i in to))
    && (forall i :: 0 <= i < |contacts| && i !in to ==> m.contacts[i] == contacts[i])
    && (forall k :: 0 <= k < |to| && to[k] >= 0 ==> m.contacts[to[k]] == On(points[k]))
    && (forall j, k :: 0 <= j < k < |to| && to[k] >= 0 ==> to[j] != to[k])
  }

  lemma DistanceIs(c: Contact, p: Point)
    ensures Distance(c, p) == Apart(c, p)
  {
  }

  lemma {:induction false} FirstNearest(contacts: seq<Contact>, taken: seq<bool>, p: Point, n: nat, j: nat)
    requires |taken| == |contacts| && n <= |contacts| && j < n && Candidate(contacts, taken, j)
    ensures var r := Nearest(contacts, taken, p, n);
            r >= 0 && (Distance(contacts[r], p) < Distance(contacts[j], p)
                       || (Distance(contacts[r], p) == Distance(contacts[j], p) && r <= j))
  {
    if j < n - 1 {
      FirstNearest(contacts, taken, p, n - 1, j);
    }
  }

  /** Open contacts are the candidates. */
  lemma OpenIs(contacts: seq<Contact>, points: seq<Point>, to: seq<int>, m: Matching, i: int)
    requires Follows(contacts, points, to, m)
    ensures Open(contacts, to, i) <==> 0 <= i < |contacts| && Candidate(m.contacts, m.taken, i)
    ensures Open(contacts, to, i) ==> m.contacts[i] == contacts[i]
  {
    if 0 <= i < |contacts| && i in to {
      assert m.taken[i];
    }
  }

  lemma NearestIsChosen(contacts: seq<Contact>, points: seq<Point>, to: seq<int>, m: Matching, p: Point)
    requires Follows(contacts, points, to, m)
    ensures Chosen(contacts, to, p, Nearest(m.contacts, m.taken, p, |m.contacts|))
  {
    var r := Nearest(m.contacts, m.taken, p, |m.contacts|);
    if r >= 0 {
      OpenIs(contacts, points, to, m, r);
    }
    forall j | Open(contacts, to, j)
      ensures r >= 0 && (Apart(contacts[r], p) < Apart(contacts[j], p)
                         || (Apart(contacts[r], p) == Apart(contacts[j], p) && r <= j))
    {
      OpenIs(contacts, points, to, m, j);
      FirstNearest(m.contacts, m.taken, p, |m.contacts|, j);
      OpenIs(contacts, points, to, m, r);
      DistanceIs(contacts[r], p);
      DistanceIs(contacts[j], p);
    }
  }

  lemma FollowsMore(contacts: seq<Contact>, points: seq<Point>, to: seq<int>, m: Matching, p: Point)
    requires Follows(contacts, points, to, m) && Paired(m)
    ensures var r := Nearest(m.contacts, m.taken, p, |m.contacts|);
            Follows(contacts, points + [p], to + [r], MatchOne(m, p))
  {
    var r := Nearest(m.contacts, m.taken, p, |m.contacts|);
    var n := MatchOne(m, p);
    forall i | 0 <= i < |contacts| ensures n.taken[i] == (i in to + [r]) {
    }
    if r >= 0 {
      OpenIs(contacts, points, to, m, r);
    }
  }

  lemma ChosenMore(contacts: seq<Contact>, points: seq<Point>, to: seq<int>, p: Point, r: int)
    requires Assigned(contacts, points, to) && Chosen(contacts, to, p, r)
    ensures Assigned(contacts, points + [p], to + [r])
  {
    forall k | 0 <= k < |points| + 1 ensures Chosen(contacts, (to + [r])[..k], (points + [p])[k], (to + [r])[k]) {
      assert (to + [r])[..k] == if k < |points| then to[..k] else to;
    }
  }

  lemma {:induction false} MatchFollows(contacts: seq<Contact>, points: seq<Point>) returns (to: seq<int>)
    ensures Assigned(contacts, points, to) && Follows(contacts, points, to, MatchAll(contacts, points))
    decreases |points|
  {
    to := [];
    if |points| > 0 {
      var front, p := points[..|points| - 1], points[|points| - 1];
      var before := MatchFollows(contacts, front);
      var m := MatchAll(contacts, front);
      var r := Nearest(m.contacts, m.taken, p, |m.contacts|);
      NearestIsChosen(contacts, front, before, m, p);
      FollowsMore(contacts, front, before, m, p);
      ChosenMore(contacts, front, before, p, r);
      to := before + [r];
      assert points == front + [p];
    }
  }

  lemma {:induction false} PlacingKeeps(contacts: seq<Contact>, points: seq<Point>, found: seq<bool>, i: nat)
    requires |found| == |points| && i < |contacts| && contacts[i].active
    ensures PlaceAll(contacts, points, found).contacts[i] == contacts[i]
    decreases |points|
  {
    if |points| > 0 {
      PlacingKeeps(contacts, points[..|points| - 1], found[..|points| - 1], i);
    }
  }

  /** The points of a report, in the order given, each go to the nearest contact that is active and not taken, the first
      of equals; a contact that a point went to is where the point is. */
  lemma PointsGoToNearest(contacts: seq<Contact>, points: seq<Point>) returns (to: seq<int>)
    ensures Assigned(contacts, points, to)
    ensures var now := Reconcile(contacts, points).contacts;
            forall k :: 0 <= k < |points| && to[k] >= 0 ==>
              to[k] < |now| && now[to[k]] == Contact(points[k].x, points[k].y, true)
  {
    to := MatchFollows(contacts, points);
    var m := MatchAll(contacts, points);
    var lifted := End(m.contacts, m.taken, Up, |m.contacts|);
    forall k | 0 <= k < |points| && to[k] >= 0
      ensures Reconcile(contacts, points).contacts[to[k]] == Contact(points[k].x, points[k].y, true)
    {
      assert m.taken[to[k]] && lifted.contacts[to[k]] == On(points[k]);
      PlacingKeeps(lifted.contacts, points, m.found, to[k]);
    }
  }
}
