/**
 Expiry over whole runs: on disjoint packets a query cannot tell which of the expiries up to its start,
 and which of the packets that end before it, were ever there.
 */
module ExpiryRuns {
  import opened Deque
  import opened DequeAdd
  import opened DequeExpiry
  import opened DequeQuery

  /** A packet that belongs to the same disjoint family as the stored ones. */
  predicate Fits(q: seq<PacketTime>, x: PacketTime) {
    && x.startTime < x.endTime
    && forall i :: 0 <= i < |q| ==> SameInterval(q[i], x) || q[i].endTime < x.startTime || x.endTime < q[i].startTime
  }

  lemma NoPointIsRepeated(q: seq<PacketTime>, x: PacketTime)
    requires Fits(q, x)
    ensures !RepeatsPoint(q, x)
  {
  }

  lemma {:induction false} ExpiredOfCut(q: seq<PacketTime>, s: int, k: nat)
    requires k <= |q|
    ensures Expired(q, s) == Expired(q[..k], s) + Expired(q[k..], s)
  {
    assert q == q[..k] + q[k..];
    ExpiredAppends(q[..k], q[k..], s);
  }

  lemma {:induction false} ExpiredOfOne(x: PacketTime, s: int)
    ensures Expired([x], s) == if x.endTime < s then [] else [x]
  {
    assert [x][..0] == [];
  }

  /** Inserting a packet that is over at s leaves the same packets at s. */
  lemma OverIsNotSeen(q: seq<PacketTime>, x: PacketTime, k: nat, s: int)
    requires k <= |q| && x.endTime < s
    ensures Expired(InsertedAt(q, x, k), s) == Expired(q, s)
  {
    ExpiredOfCut(q, s, k);
    ExpiredAppends(q[..k] + [x], q[k..], s);
    ExpiredAppends(q[..k], [x], s);
    ExpiredOfOne(x, s);
  }

  lemma DroppingOverIsNotSeen(r: seq<PacketTime>, s: int)
    requires r != [] && r[0].endTime < s
    ensures Expired(r[1..], s) == Expired(r, s)
  {
    ExpiredOfCut(r, s, 1);
    assert r[..1] == [r[0]];
    ExpiredOfOne(r[0], s);
  }

  /** Adding a packet that is over at s. */
  lemma AddingOver(q: seq<PacketTime>, x: PacketTime, capacity: nat, s: int)
    requires Gapped(q) && Sorted(q) && |q| <= capacity && Fits(q, x) && x.endTime < s
    ensures Expired(Added(q, x, capacity), s) == Expired(q, s)
  {
    NoPointIsRepeated(q, x);
    if !Present(q, x.startTime) {
      var k := Position(q, x.startTime);
      var r := InsertedAt(q, x, k);
      OverIsNotSeen(q, x, k, s);
      if |q| == capacity {
        assert k > 0 ==> q[0].startTime < x.startTime && r[0] == q[0];
        DroppingOverIsNotSeen(r, s);
      }
    }
  }

  /** What is left at s is a suffix, and a packet not over at s belongs into that suffix. */
  lemma BelongsIntoSuffix(q: seq<PacketTime>, x: PacketTime, s: int, k: nat)
    requires Gapped(q) && Sorted(q) && Fits(q, x) && s <= x.endTime && k <= |q|
    requires forall i :: 0 <= i < k ==> q[i].endTime < s
    ensures Present(q[k..], x.startTime) <==> Present(q, x.startTime)
    ensures k <= Position(q, x.startTime)
  {
    PresentInSuffix(q, x.startTime, k);
    if Present(q, x.startTime) {
      var i :| 0 <= i < |q| && q[i].startTime == x.startTime;
      assert q[k..][i - k] == q[i];
    }
    if k > 0 {
      assert q[k - 1].endTime < x.endTime;
      assert q[k - 1].startTime <= x.startTime;
    }
  }

  lemma InsertionIntoLeft(q: seq<PacketTime>, x: PacketTime, s: int, k: nat, p: nat)
    requires k <= p <= |q| && s <= x.endTime
    requires forall i :: 0 <= i < k ==> q[i].endTime < s
    requires forall i :: k <= i < |q| ==> s <= q[i].endTime
    ensures Expired(InsertedAt(q, x, p), s) == InsertedAt(q[k..], x, p - k)
    ensures k > 0 ==> Expired(InsertedAt(q, x, p)[1..], s) == InsertedAt(q[k..], x, p - k)
  {
    var r := InsertedAt(q, x, p);
    assert forall i :: 0 <= i < |r| ==> r[i] == if i < p then q[i] else if i == p then x else q[i - 1];
    ExpiredAt(r, s, k);
    assert r[k..] == InsertedAt(q[k..], x, p - k);
    if k > 0 {
      DroppingOverIsNotSeen(r, s);
    }
  }

  lemma NewestIntoLeft(q: seq<PacketTime>, x: PacketTime, capacity: nat, s: int, k: nat, p: nat)
    requires k <= p <= |q| <= capacity && s <= x.endTime
    requires forall i :: 0 <= i < k ==> q[i].endTime < s
    requires forall i :: k <= i < |q| ==> s <= q[i].endTime
    ensures Expired(Newest(InsertedAt(q, x, p), capacity), s) == Newest(InsertedAt(q[k..], x, p - k), capacity)
  {
    InsertionIntoLeft(q, x, s, k, p);
    if |q| == capacity && k == 0 {
      var r := InsertedAt(q, x, p)[1..];
      assert q[k..] == q;
      forall i | 0 <= i < |r| ensures s <= r[i].endTime {
      }
      NothingExpires(r, s);
    }
  }

  lemma AddingIntoLeft(q: seq<PacketTime>, x: PacketTime, capacity: nat, s: int, k: nat)
    requires Gapped(q) && Sorted(q) && k <= |q| <= capacity && Fits(q, x) && s <= x.endTime
    requires forall i :: 0 <= i < k ==> q[i].endTime < s
    requires forall i :: k <= i < |q| ==> s <= q[i].endTime
    ensures Expired(Added(q, x, capacity), s) == Added(q[k..], x, capacity)
  {
    var left := q[k..];
    assert Fits(left, x);
    NoPointIsRepeated(q, x);
    NoPointIsRepeated(left, x);
    BelongsIntoSuffix(q, x, s, k);
    if Present(q, x.startTime) {
      ExpiredAt(q, s, k);
    } else {
      var p := Position(q, x.startTime);
      PositionIs(left, x.startTime, p - k);
      NewestIntoLeft(q, x, capacity, s, k, p);
    }
  }

  /** Adding a packet that is not over at s is adding it to what is left at s. */
  lemma AddingNotOver(q: seq<PacketTime>, x: PacketTime, capacity: nat, s: int)
    requires Gapped(q) && Sorted(q) && |q| <= capacity && Fits(q, x) && s <= x.endTime
    ensures Expired(Added(q, x, capacity), s) == Added(Expired(q, s), x, capacity)
  {
    GappedEndsAreSorted(q);
    ExpiredIsSuffix(q, s);
    AddingIntoLeft(q, x, capacity, s, Removed(q, s));
  }

  // ---------------------------------------------------------------- runs

  /** Events a query that starts at s can depend on: packets not over at s and expiries after s. */
  predicate Matters(e: Event, s: int) {
    match e
    case Add(x) => s <= x.endTime
    case Expire(t) => s < t
  }

  function Mattering(events: seq<Event>, s: int): seq<Event> {
    if events == [] then []
    else
      var e := events[|events| - 1];
      var front := Mattering(events[..|events| - 1], s);
      front + (if Matters(e, s) then [e] else [])
  }

  /** The run without its expiries up to s. */
  function WithoutExpiries(events: seq<Event>, s: int): seq<Event> {
    if events == [] then []
    else
      var e := events[|events| - 1];
      var front := WithoutExpiries(events[..|events| - 1], s);
      front + (if e.Expire? && e.oldest <= s then [] else [e])
  }

  lemma {:induction false} MatteringIsDrawn(events: seq<Event>, family: iset<PacketTime>, s: int)
    requires DrawnFrom(events, family)
    ensures DrawnFrom(Mattering(events, s), family) && DrawnFrom(WithoutExpiries(events, s), family)
  {
    if events != [] {
      MatteringIsDrawn(events[..|events| - 1], family, s);
    }
  }

  lemma ExtendedRun(events: seq<Event>, e: Event, capacity: nat)
    requires TimedEvents(events) && TimedEvents(events + [e])
    ensures Run(events + [e], capacity) == Step(Run(events, capacity), e, capacity)
  {
    assert (events + [e])[..|events|] == events;
  }

  lemma StepAtQuery(q: seq<PacketTime>, e: Event, capacity: nat, s: int)
    requires Gapped(q) && Sorted(q) && |q| <= capacity && (e.Add? ==> Fits(q, e.x))
    ensures Expired(Step(q, e, capacity), s)
            == if Matters(e, s) then Step(Expired(q, s), e, capacity) else Expired(q, s)
  {
    match e
    case Add(x) =>
      if x.endTime < s { AddingOver(q, x, capacity, s); } else { AddingNotOver(q, x, capacity, s); }
    case Expire(t) =>
      ExpiryComposes(q, t, s);
      ExpiryComposes(q, s, t);
  }

  lemma RetainedFits(q: seq<PacketTime>, family: iset<PacketTime>, x: PacketTime)
    requires DisjointFamily(family) && Within(q, family) && x in family
    ensures Fits(q, x)
  {
    forall i | 0 <= i < |q|
      ensures SameInterval(q[i], x) || q[i].endTime < x.startTime || x.endTime < q[i].startTime
    {
      assert q[i] in family;
    }
  }

  /** Every deque of such a run. */
  lemma RunIsGapped(events: seq<Event>, capacity: nat, family: iset<PacketTime>)
    requires DisjointFamily(family) && DrawnFrom(events, family)
    ensures TimedEvents(events)
    ensures var q := Run(events, capacity); Gapped(q) && Sorted(q) && |q| <= capacity && Within(q, family)
  {
    DrawnEventsAreTimed(events, family);
    RunStaysWithin(events, capacity, family);
    RetainedIsGapped(Run(events, capacity), capacity, family);
  }

  lemma MatteringExtends(front: seq<Event>, e: Event, s: int)
    ensures Mattering(front + [e], s) == Mattering(front, s) + (if Matters(e, s) then [e] else [])
  {
    assert (front + [e])[..|front|] == front;
  }

  lemma StepOfRunAtQuery(front: seq<Event>, e: Event, capacity: nat, family: iset<PacketTime>, s: int)
    requires DisjointFamily(family) && DrawnFrom(front, family) && (e.Add? ==> e.x in family)
    ensures TimedEvents(front)
    ensures Expired(Step(Run(front, capacity), e, capacity), s)
            == if Matters(e, s) then Step(Expired(Run(front, capacity), s), e, capacity)
               else Expired(Run(front, capacity), s)
  {
    RunIsGapped(front, capacity, family);
    var q := Run(front, capacity);
    if e.Add? {
      RetainedFits(q, family, e.x);
    }
    StepAtQuery(q, e, capacity, s);
  }

  lemma RunAtQueryExtends(front: seq<Event>, e: Event, capacity: nat, family: iset<PacketTime>, s: int)
    requires DisjointFamily(family) && DrawnFrom(front, family) && (e.Add? ==> e.x in family)
    requires TimedEvents(front) && TimedEvents(Mattering(front, s))
    requires TimedEvents(front + [e]) && TimedEvents(Mattering(front, s) + [e])
    requires Expired(Run(front, capacity), s) == Run(Mattering(front, s), capacity)
    ensures Expired(Run(front + [e], capacity), s)
            == if Matters(e, s) then Run(Mattering(front, s) + [e], capacity) else Run(Mattering(front, s), capacity)
  {
    StepOfRunAtQuery(front, e, capacity, family, s);
    ExtendedRun(front, e, capacity);
    ExtendedRun(Mattering(front, s), e, capacity);
  }

  /** What a run leaves at s is what the events that matter leave. */
  lemma {:induction false} RunAtQuery(events: seq<Event>, capacity: nat, family: iset<PacketTime>, s: int)
    requires DisjointFamily(family) && DrawnFrom(events, family)
    ensures TimedEvents(events) && TimedEvents(Mattering(events, s))
    ensures Expired(Run(events, capacity), s) == Run(Mattering(events, s), capacity)
  {
    MatteringIsDrawn(events, family, s);
    DrawnEventsAreTimed(events, family);
    DrawnEventsAreTimed(Mattering(events, s), family);
    if events != [] {
      var front, e := events[..|events| - 1], events[|events| - 1];
      assert events == front + [e];
      RunAtQuery(front, capacity, family, s);
      MatteringExtends(front, e, s);
      assert Mattering(front, s) + [] == Mattering(front, s);
      RunAtQueryExtends(front, e, capacity, family, s);
    }
  }

  /** On disjoint packets the answer depends only on the packets that are not over when the query starts,
      and on expiries after that. */
  lemma OnlyMatteringEventsAreSeen(events: seq<Event>, capacity: nat, family: iset<PacketTime>, s: int, e: int)
    requires DisjointFamily(family) && DrawnFrom(events, family)
    ensures TimedEvents(events) && TimedEvents(Mattering(events, s))
    ensures Answer(Run(events, capacity), s, e) == Answer(Run(Mattering(events, s), capacity), s, e)
  {
    RunAtQuery(events, capacity, family, s);
    RunIsGapped(events, capacity, family);
    ExpiryIsInvisibleWhenGapped(Run(events, capacity), s, s, e);
  }

  lemma {:induction false} SameMattering(events: seq<Event>, s: int)
    ensures Mattering(WithoutExpiries(events, s), s) == Mattering(events, s)
  {
    if events != [] {
      var front, e := events[..|events| - 1], events[|events| - 1];
      SameMattering(front, s);
      MatteringExtends(WithoutExpiries(front, s), e, s);
      assert events == front + [e];
      MatteringExtends(front, e, s);
      assert WithoutExpiries(front, s) + [] == WithoutExpiries(front, s);
    }
  }

  /** On disjoint packets all expiries of a run up to the start of a query could have been left out: the
      answer is the same, although without them the deque holds more, may be full sooner and may then
      refuse late packets. */
  lemma ExpiriesOfARunAreInvisible(events: seq<Event>, capacity: nat, family: iset<PacketTime>, s: int, e: int)
    requires DisjointFamily(family) && DrawnFrom(events, family)
    ensures TimedEvents(events) && TimedEvents(WithoutExpiries(events, s))
    ensures Answer(Run(WithoutExpiries(events, s), capacity), s, e) == Answer(Run(events, capacity), s, e)
  {
    MatteringIsDrawn(events, family, s);
    OnlyMatteringEventsAreSeen(events, capacity, family, s, e);
    OnlyMatteringEventsAreSeen(WithoutExpiries(events, s), capacity, family, s, e);
    SameMattering(events, s);
  }
}
