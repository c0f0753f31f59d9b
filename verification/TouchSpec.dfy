/** Touch contact tracking of platform/esp32p4/touch_interrupt.c on values. */
module TouchSpec {
  const MAX_CONTACTS: nat := 5
  const UINT64_MAX: nat := 0xFFFF_FFFF_FFFF_FFFF

  type Coordinate = c: int | 0 <= c < 0x1_0000

  datatype Option<T> = None | Some(value: T)

  datatype Point = Point(x: Coordinate, y: Coordinate)

  datatype Contact = Contact(x: Coordinate, y: Coordinate, active: bool)

  datatype Kind = Down | Move | Up | Cancel

  datatype Event = Event(kind: Kind, contact: nat, x: Coordinate, y: Coordinate)

  datatype Outcome = Outcome(contacts: seq<Contact>, events: seq<Event>)

  const NO_CONTACT := Contact(0, 0, false)

  function At(c: Contact): Point {
    Point(c.x, c.y)
  }

  function On(p: Point): Contact {
    Contact(p.x, p.y, true)
  }

  // ----- First loop: match points to contacts -----

  function Square(d: int): (r: nat)
    ensures r == 0 <==> d == 0
  {
    SquareSign(d);
    d * d
  }

  lemma SquareSign(d: int)
    ensures d * d >= 0 && (d * d == 0 <==> d == 0)
  {
    if d > 0 {
      assert d * d >= d;
    } else if d < 0 {
      assert (-d) * (-d) >= -d && (-d) * (-d) == d * d;
    }
  }

  lemma SquareBelow(d: int, bound: int)
    requires -bound < d < bound
    ensures d * d <= bound * bound
  {
    assert bound * bound - d * d == (bound - d) * (bound + d);
  }

  function Distance(c: Contact, p: Point): (r: nat)
    ensures r == 0 <==> At(c) == p
    ensures r < UINT64_MAX
  {
    SquareBelow(c.x - p.x, 0x1_0000);
    SquareBelow(c.y - p.y, 0x1_0000);
    Square(c.x - p.x) + Square(c.y - p.y)
  }

  predicate Candidate(contacts: seq<Contact>, taken: seq<bool>, i: nat)
    requires |taken| == |contacts| && i < |contacts|
  {
    contacts[i].active && !taken[i]
  }

  /** The nearest candidate among the first `n` contacts, or -1. */
  function Nearest(contacts: seq<Contact>, taken: seq<bool>, p: Point, n: nat): (r: int)
    requires |taken| == |contacts| && n <= |contacts|
    ensures -1 <= r < n
    ensures r >= 0 ==> Candidate(contacts, taken, r)
    ensures r >= 0 ==> forall i :: 0 <= i < n && Candidate(contacts, taken, i) ==>
                         Distance(contacts[r], p) <= Distance(contacts[i], p)
    ensures r == -1 <==> forall i :: 0 <= i < n ==> !Candidate(contacts, taken, i)
  {
    if n == 0 then -1
    else
      var best := Nearest(contacts, taken, p, n - 1);
      if Candidate(contacts, taken, n - 1)
         && (best == -1 || Distance(contacts[n - 1], p) < Distance(contacts[best], p))
      then n - 1 else best
  }

  /** `taken` are the contacts matched so far, `found` says of each point seen whether it was matched. */
  datatype Matching = Matching(contacts: seq<Contact>, taken: seq<bool>, found: seq<bool>, events: seq<Event>)

  predicate Paired(m: Matching) {
    |m.taken| == |m.contacts| && (forall i :: 0 <= i < |m.contacts| && m.taken[i] ==> m.contacts[i].active)
  }

  function MatchOne(m: Matching, p: Point): (r: Matching)
    requires Paired(m)
    ensures Paired(r) && |r.contacts| == |m.contacts| && |r.found| == |m.found| + 1
  {
    var best := Nearest(m.contacts, m.taken, p, |m.contacts|);
    if best == -1 then m.(found := m.found + [false])
    else
      Matching(m.contacts[best := On(p)], m.taken[best := true], m.found + [true],
               m.events + if At(m.contacts[best]) != p then [Event(Move, best, p.x, p.y)] else [])
  }

  function Nobody(n: nat): (r: seq<bool>)
    ensures |r| == n && forall i :: 0 <= i < n ==> !r[i]
  {
    if n == 0 then [] else Nobody(n - 1) + [false]
  }

  function MatchAll(contacts: seq<Contact>, points: seq<Point>): (m: Matching)
    ensures Paired(m) && |m.contacts| == |contacts| && |m.found| == |points|
  {
    if points == [] then Matching(contacts, Nobody(|contacts|), [], [])
    else MatchOne(MatchAll(contacts, points[..|points| - 1]), points[|points| - 1])
  }

  // ----- Second loop: lift the contacts nobody matched -----

  function Lifted(c: Contact, kind: Kind, i: nat): Event {
    Event(kind, i, c.x, c.y)
  }

  /** Contacts below `n` that are active and not kept end, each with one event. */
  function End(contacts: seq<Contact>, kept: seq<bool>, kind: Kind, n: nat): (r: Outcome)
    requires |kept| == |contacts| && n <= |contacts|
    ensures |r.contacts| == |contacts|
    ensures forall i :: 0 <= i < |contacts| ==>
              r.contacts[i] == if i < n && !kept[i] then contacts[i].(active := false) else contacts[i]
    ensures forall e :: e in r.events ==> e.kind == kind
    ensures r.events == [] <==> forall i :: 0 <= i < n ==> !Candidate(contacts, kept, i)
  {
    if n == 0 then Outcome(contacts, [])
    else
      var before := End(contacts, kept, kind, n - 1);
      if Candidate(contacts, kept, n - 1) then
        Outcome(before.contacts[n - 1 := contacts[n - 1].(active := false)],
                before.events + [Lifted(contacts[n - 1], kind, n - 1)])
      else before
  }

  // ----- Third loop: place the points nobody matched -----

  function FirstInactive(contacts: seq<Contact>, from: nat): (i: nat)
    requires from <= |contacts|
    ensures from <= i <= |contacts|
    ensures i < |contacts| ==> !contacts[i].active
    ensures forall j :: from <= j < i ==> contacts[j].active
    decreases |contacts| - from
  {
    if from == |contacts| || !contacts[from].active then from else FirstInactive(contacts, from + 1)
  }

  function PlaceOne(o: Outcome, p: Point, found: bool): (r: Outcome)
    ensures |r.contacts| == |o.contacts|
  {
    var i := FirstInactive(o.contacts, 0);
    if found || i == |o.contacts| then o
    else Outcome(o.contacts[i := On(p)], o.events + [Event(Down, i, p.x, p.y)])
  }

  function PlaceAll(contacts: seq<Contact>, points: seq<Point>, found: seq<bool>): (r: Outcome)
    requires |found| == |points|
    ensures |r.contacts| == |contacts|
  {
    if points == [] then Outcome(contacts, [])
    else
      var n := |points| - 1;
      PlaceOne(PlaceAll(contacts, points[..n], found[..n]), points[n], found[n])
  }

  // ----- The whole report, and cancelling -----

  function Reconcile(contacts: seq<Contact>, points: seq<Point>): (r: Outcome)
    ensures |r.contacts| == |contacts|
  {
    var m := MatchAll(contacts, points);
    var lifted := End(m.contacts, m.taken, Up, |m.contacts|);
    var placed := PlaceAll(lifted.contacts, points, m.found);
    Outcome(placed.contacts, m.events + lifted.events + placed.events)
  }

  function CancelAll(contacts: seq<Contact>): (r: Outcome)
    ensures |r.contacts| == |contacts|
    ensures forall i :: 0 <= i < |contacts| ==> r.contacts[i] == contacts[i].(active := false)
    ensures forall e :: e in r.events ==> e.kind == Cancel
  {
    End(contacts, Nobody(|contacts|), Cancel, |contacts|)
  }

  // ----- Draining an interrupt -----

  /** One pass of a drain: what the controller reported, if it answered, and the interrupt line after. */
  datatype Reading = Reading(points: Option<seq<Point>>, asserted: bool)

  predicate Readable(r: Reading) {
    r.points.Some? && |r.points.value| <= MAX_CONTACTS
  }

  datatype Drained = Drained(ok: bool, pending: bool, outcome: Outcome)

  /** `passes` readings are left at most. */
  function Drain(o: Outcome, readings: seq<Reading>, pending: bool): (r: Drained)
    ensures |r.outcome.contacts| == |o.contacts|
    decreases |readings|
  {
    if readings == [] then Drained(true, pending, o)
    else if !Readable(readings[0]) then
      var c := CancelAll(o.contacts);
      Drained(false, pending, Outcome(c.contacts, o.events + c.events))
    else
      var r := Reconcile(o.contacts, readings[0].points.value);
      var next := Outcome(r.contacts, o.events + r.events);
      if !readings[0].asserted then Drained(true, false, next) else Drain(next, readings[1..], true)
  }

  // ----- Positions -----

  /** Positions of the contacts below `n` that are marked. */
  function Marked(contacts: seq<Contact>, marks: seq<bool>, n: nat): multiset<Point>
    requires |marks| == |contacts| && n <= |contacts|
  {
    if n == 0 then multiset{}
    else Marked(contacts, marks, n - 1) + if marks[n - 1] then multiset{At(contacts[n - 1])} else multiset{}
  }

  function Actives(contacts: seq<Contact>): (r: seq<bool>)
    ensures |r| == |contacts| && forall i :: 0 <= i < |r| ==> r[i] == contacts[i].active
  {
    seq(|contacts|, i requires 0 <= i < |contacts| => contacts[i].active)
  }

  /** Where the fingers are. */
  function Positions(contacts: seq<Contact>): multiset<Point> {
    Marked(contacts, Actives(contacts), |contacts|)
  }

  /** The points marked as found, or those that are not. */
  function Found(points: seq<Point>, found: seq<bool>, wanted: bool): multiset<Point>
    requires |found| == |points|
  {
    if points == [] then multiset{}
    else
      var n := |points| - 1;
      Found(points[..n], found[..n], wanted) + if found[n] == wanted then multiset{points[n]} else multiset{}
  }

  // ----- What the events mean -----

  /** The effect of one event on the contacts a listener knows of, or None when it makes no sense there. */
  function Apply(contacts: seq<Contact>, e: Event): Option<seq<Contact>> {
    if e.contact >= |contacts| then None
    else
      var c := contacts[e.contact];
      match e.kind
      case Down => if c.active then None else Some(contacts[e.contact := Contact(e.x, e.y, true)])
      case Move =>
        if c.active && (c.x, c.y) != (e.x, e.y) then Some(contacts[e.contact := Contact(e.x, e.y, true)]) else None
      case _ =>
        if c.active && (c.x, c.y) == (e.x, e.y) then Some(contacts[e.contact := c.(active := false)]) else None
  }

  function Replay(contacts: seq<Contact>, events: seq<Event>): Option<seq<Contact>> {
    if events == [] then Some(contacts)
    else
      var before := Replay(contacts, events[..|events| - 1]);
      if before.None? then None else Apply(before.value, events[|events| - 1])
  }

  /** What one listener hears of one contact. */
  function Heard(events: seq<Event>, contact: nat): seq<Kind> {
    if events == [] then []
    else
      var e := events[|events| - 1];
      Heard(events[..|events| - 1], contact) + if e.contact == contact then [e.kind] else []
  }

  /** Touches in order: each is a Down, any number of Moves and an Up or Cancel; the last may be unfinished. */
  predicate Touches(kinds: seq<Kind>) {
    if kinds == [] then true else kinds[0] == Down && Touching(kinds[1..])
  }

  predicate Touching(kinds: seq<Kind>) {
    if kinds == [] then true
    else if kinds[0] == Move then Touching(kinds[1..])
    else kinds[0] != Down && Touches(kinds[1..])
  }

  /** Whether a touch is still unfinished. */
  predicate Unfinished(kinds: seq<Kind>) {
    kinds != [] && (kinds[|kinds| - 1] == Down || kinds[|kinds| - 1] == Move)
  }
}
