/**
 Adding packets: when one addition keeps the promise, what every run of additions and expiries
 keeps, and what a whole run of additions leaves behind whatever the order of arrival.
 */
module DequeAdd {
  import opened Deque

  // ---------------------------------------------------------------- one addition

  lemma PositionIs(q: seq<PacketTime>, t: int, k: nat)
    requires Sorted(q) && k <= |q|
    requires k > 0 ==> q[k - 1].startTime <= t
    requires k < |q| ==> t < q[k].startTime
    ensures Position(q, t) == k
  {
  }

  lemma InsertionStaysSorted(q: seq<PacketTime>, x: PacketTime, k: nat)
    requires Sorted(q) && k <= |q|
    requires forall i :: 0 <= i < k ==> q[i].startTime <= x.startTime
    requires forall i :: k <= i < |q| ==> x.startTime < q[i].startTime
    ensures Sorted(InsertedAt(q, x, k))
  {
  }

  lemma InsertionStaysWellTimed(q: seq<PacketTime>, x: PacketTime, k: nat)
    requires WellTimed(q) && k <= |q| && x.startTime <= x.endTime
    ensures WellTimed(InsertedAt(q, x, k))
  {
  }

  lemma InsertionRepeatsOnlyPoints(q: seq<PacketTime>, x: PacketTime, k: nat)
    requires OnlyPointsRepeat(q) && k <= |q|
    requires forall i :: 0 <= i < k && q[i].startTime == x.startTime ==> q[i].endTime == x.startTime
    requires forall i :: k <= i < |q| ==> x.startTime < q[i].startTime
    ensures OnlyPointsRepeat(InsertedAt(q, x, k))
  {
  }

  /** A packet that starts with the new one repeats a point, when the new one repeats the last point. */
  lemma OnlyPointsAreRepeated(q: seq<PacketTime>, x: PacketTime, i: nat)
    requires OnlyPointsRepeat(q) && i < |q| && q[i].startTime == x.startTime
    requires RepeatsPoint(q, x) || !Present(q, x.startTime)
    ensures q[i].endTime == x.startTime
  {
  }

  lemma InsertionStaysConsistent(q: seq<PacketTime>, x: PacketTime)
    requires Sorted(q) && WellTimed(q) && OnlyPointsRepeat(q)
    requires x.startTime <= x.endTime
    requires RepeatsPoint(q, x) || !Present(q, x.startTime)
    ensures Sorted(Inserted(q, x)) && WellTimed(Inserted(q, x)) && OnlyPointsRepeat(Inserted(q, x))
    ensures |Inserted(q, x)| == |q| + 1
  {
    var k := Position(q, x.startTime);
    forall i | 0 <= i < k && q[i].startTime == x.startTime
      ensures q[i].endTime == x.startTime
    {
      OnlyPointsAreRepeated(q, x, i);
    }
    InsertionStaysSorted(q, x, k);
    InsertionStaysWellTimed(q, x, k);
    InsertionRepeatsOnlyPoints(q, x, k);
  }

  lemma NewestIsConsistent(q: seq<PacketTime>, capacity: nat)
    requires Sorted(q) && WellTimed(q) && OnlyPointsRepeat(q)
    ensures Consistent(Newest(q, capacity), capacity)
  {
  }

  lemma AddedIsConsistent(q: seq<PacketTime>, x: PacketTime, capacity: nat)
    requires Consistent(q, capacity) && x.startTime <= x.endTime
    ensures Consistent(Added(q, x, capacity), capacity)
  {
    if RepeatsPoint(q, x) || !Present(q, x.startTime) {
      InsertionStaysConsistent(q, x);
      NewestIsConsistent(Inserted(q, x), capacity);
    }
  }

  /** A packet already kept everywhere: the deque is full of copies of it. */
  predicate FullOf(q: seq<PacketTime>, x: PacketTime, capacity: nat) {
    |q| == capacity && forall i :: 0 <= i < |q| ==> q[i] == x
  }

  lemma {:induction false} RotationOfCopies(q: seq<PacketTime>, x: PacketTime)
    requires q != [] && q[1..] + [x] == q
    ensures forall i :: 0 <= i < |q| ==> q[i] == x
  {
    assert q[|q| - 1] == x;
    var i := |q| - 1;
    while i > 0
      invariant 0 <= i < |q|
      invariant forall k :: i <= k < |q| ==> q[k] == x
    {
      assert q[i - 1] == (q[1..] + [x])[i - 1] == q[i];
      i := i - 1;
    }
  }

  /** One addition keeps the promise exactly when it does not repeat a point at the end of the deque
      (or the deque is full of that very packet, so that storing it again changes nothing). */
  lemma AddKeepsPromiseIff(q: seq<PacketTime>, x: PacketTime, capacity: nat)
    requires Consistent(q, capacity) && capacity >= 1
    ensures Added(q, x, capacity) == KeepNewest(q, x, capacity)
            <==> (!RepeatsPoint(q, x) || FullOf(q, x, capacity))
  {
    if RepeatsPoint(q, x) {
      assert Present(q, x.startTime);
      PositionIs(q, x.startTime, |q|);
      assert Inserted(q, x) == q + [x];
      if |q| < capacity {
        assert |Added(q, x, capacity)| == |q| + 1;
      } else {
        assert Added(q, x, capacity) == (q + [x])[1..] == q[1..] + [x];
        if q[1..] + [x] == q {
          RotationOfCopies(q, x);
        }
        assert FullOf(q, x, capacity) ==> q[1..] + [x] == q;
      }
    }
  }

  /** The new packet behind all that start no later, among packets that are left as they were. */
  predicate PlacedAt(left: seq<PacketTime>, x: PacketTime, k: nat, r: seq<PacketTime>) {
    && k <= |left| && r == left[..k] + [x] + left[k..]
    && (forall i :: 0 <= i < k ==> left[i].startTime <= x.startTime)
    && (forall i :: k <= i < |left| ==> x.startTime < left[i].startTime)
  }

  ghost predicate Placed(left: seq<PacketTime>, x: PacketTime, r: seq<PacketTime>) {
    exists k: nat :: PlacedAt(left, x, k, r)
  }

  lemma PlacedInRoom(q: seq<PacketTime>, x: PacketTime)
    requires Sorted(q)
    ensures PlacedAt(q, x, Position(q, x.startTime), Inserted(q, x))
  {
  }

  lemma PlacedInFull(q: seq<PacketTime>, x: PacketTime)
    requires Sorted(q) && q != [] && q[0].startTime <= x.startTime
    ensures Position(q, x.startTime) >= 1
    ensures PlacedAt(q[1..], x, Position(q, x.startTime) - 1, Inserted(q, x)[1..])
  {
    var k, left := Position(q, x.startTime), q[1..];
    assert forall i :: 0 <= i < |left| ==> left[i] == q[i + 1];
    assert q[1..k] == left[..k - 1] && q[k..] == left[k - 1..];
    assert Inserted(q, x)[1..] == q[1..k] + [x] + q[k..];
  }

  lemma OldestRefused(q: seq<PacketTime>, x: PacketTime)
    requires Sorted(q) && q != [] && x.startTime < q[0].startTime
    ensures Inserted(q, x)[1..] == q
  {
    PositionIs(q, x.startTime, 0);
    assert [x] + q == Inserted(q, x);
  }

  /** Which packets an addition stores, and what becomes of the others: all stay in their order, except that
      a full deque gives up its oldest packet. */
  lemma AddingConserves(q: seq<PacketTime>, x: PacketTime, capacity: nat)
    requires Consistent(q, capacity) && capacity >= 1
    ensures var refused := || (|q| == capacity && x.startTime < q[0].startTime)
                           || (Present(q, x.startTime) && !RepeatsPoint(q, x));
            if refused then Added(q, x, capacity) == q
            else Placed(if |q| == capacity then q[1..] else q, x, Added(q, x, capacity))
  {
    if |q| < capacity {
      PlacedInRoom(q, x);
    } else if x.startTime < q[0].startTime {
      OldestRefused(q, x);
    } else {
      PlacedInFull(q, x);
      assert Newest(Inserted(q, x), capacity) == Inserted(q, x)[1..];
    }
  }

  // ---------------------------------------------------------------- runs

  datatype Event = Add(x: PacketTime) | Expire(oldest: int)

  function Step(q: seq<PacketTime>, e: Event, capacity: nat): seq<PacketTime>
  {
    match e
    case Add(x) => Added(q, x, capacity)
    case Expire(t) => Expired(q, t)
  }

  predicate TimedEvents(events: seq<Event>) {
    forall e <- events :: e.Add? ==> e.x.startTime <= e.x.endTime
  }

  /** The deque after a run of events, from empty; every state on the way is consistent. */
  function Run(events: seq<Event>, capacity: nat): (q: seq<PacketTime>)
    requires TimedEvents(events)
    ensures Consistent(q, capacity)
  {
    if events == [] then []
    else
      var before := Run(events[..|events| - 1], capacity);
      var e := events[|events| - 1];
      StepIsConsistent(before, e, capacity);
      Step(before, e, capacity)
  }

  lemma StepIsConsistent(q: seq<PacketTime>, e: Event, capacity: nat)
    requires Consistent(q, capacity)
    requires e.Add? ==> e.x.startTime <= e.x.endTime
    ensures Consistent(Step(q, e, capacity), capacity)
  {
    match e
    case Add(x) => AddedIsConsistent(q, x, capacity);
    case Expire(t) => ExpiredIsConsistent(q, t);
  }

  lemma {:induction false} ExpiredMembers(q: seq<PacketTime>, oldest: int)
    ensures forall p :: p in Expired(q, oldest) <==> p in q && p.endTime >= oldest
  {
    if q != [] {
      ExpiredMembers(q[..|q| - 1], oldest);
      assert q == q[..|q| - 1] + [q[|q| - 1]];
    }
  }

  lemma ExtensionStaysConsistent(r: seq<PacketTime>, last: PacketTime)
    requires Sorted(r) && WellTimed(r) && OnlyPointsRepeat(r)
    requires last.startTime <= last.endTime
    requires forall p <- r :: p.startTime <= last.startTime
    requires forall p <- r :: p.startTime == last.startTime ==> p.endTime == p.startTime
    ensures Sorted(r + [last]) && WellTimed(r + [last]) && OnlyPointsRepeat(r + [last])
  {
  }

  /** Expiry keeps the order of what it leaves. */
  lemma {:induction false} ExpiredIsConsistent(q: seq<PacketTime>, oldest: int)
    requires Sorted(q) && WellTimed(q) && OnlyPointsRepeat(q)
    ensures Sorted(Expired(q, oldest)) && WellTimed(Expired(q, oldest)) && OnlyPointsRepeat(Expired(q, oldest))
  {
    if q != [] {
      var front, last := q[..|q| - 1], q[|q| - 1];
      ExpiredIsConsistent(front, oldest);
      ExpiredMembers(front, oldest);
      forall p | p in front
        ensures p.startTime <= last.startTime
        ensures p.startTime == last.startTime ==> p.endTime == p.startTime
      {
        var k :| 0 <= k < |front| && q[k] == p;
      }
      if last.endTime >= oldest {
        ExtensionStaysConsistent(Expired(front, oldest), last);
      }
    }
  }

  // ---------------------------------------------------------------- runs of additions only

  predicate TimedPackets(ps: seq<PacketTime>) {
    forall p <- ps :: p.startTime <= p.endTime
  }

  function Adds(ps: seq<PacketTime>): (events: seq<Event>)
    ensures |events| == |ps| && forall i :: 0 <= i < |ps| ==> events[i] == Add(ps[i])
  {
    seq(|ps|, i requires 0 <= i < |ps| => Add(ps[i]))
  }

  /** The first packet to arrive with its start time. */
  predicate FirstArrival(ps: seq<PacketTime>, x: PacketTime) {
    exists i :: 0 <= i < |ps| && ps[i] == x && forall j :: 0 <= j < i ==> ps[j].startTime != x.startTime
  }

  predicate Ascending(q: seq<PacketTime>) {
    forall i, j :: 0 <= i < j < |q| ==> q[i].startTime < q[j].startTime
  }

  /** The first arrivals in ascending order of start time. */
  ghost predicate IsFirsts(f: seq<PacketTime>, ps: seq<PacketTime>) {
    Ascending(f) && forall x :: x in f <==> FirstArrival(ps, x)
  }

  function FirstsWith(g: seq<PacketTime>, x: PacketTime): seq<PacketTime> {
    if Present(g, x.startTime) then g else Inserted(g, x)
  }

  lemma InsertionStaysAscending(g: seq<PacketTime>, x: PacketTime, k: nat)
    requires Ascending(g) && k <= |g|
    requires forall i :: 0 <= i < k ==> g[i].startTime < x.startTime
    requires forall i :: k <= i < |g| ==> x.startTime < g[i].startTime
    ensures Ascending(InsertedAt(g, x, k))
  {
  }

  lemma FirstsWithAscends(g: seq<PacketTime>, x: PacketTime)
    requires Ascending(g)
    ensures Ascending(FirstsWith(g, x))
  {
    if !Present(g, x.startTime) {
      assert Sorted(g);
      InsertionStaysAscending(g, x, Position(g, x.startTime));
    }
  }

  /** The sorted list of first arrivals, kept without any bound. */
  function Firsts(ps: seq<PacketTime>): (f: seq<PacketTime>)
    ensures Ascending(f)
  {
    if ps == [] then []
    else
      var f := Firsts(ps[..|ps| - 1]);
      FirstsWithAscends(f, ps[|ps| - 1]);
      FirstsWith(f, ps[|ps| - 1])
  }

  lemma MembersOfFirstsWith(f: seq<PacketTime>, x: PacketTime, y: PacketTime)
    ensures y in FirstsWith(f, x) <==> y in f || (y == x && !Present(f, x.startTime))
  {
    if !Present(f, x.startTime) {
      var k := Position(f, x.startTime);
      assert f == f[..k] + f[k..];
    }
  }

  lemma {:induction false} FirstsAreTheFirstArrivals(ps: seq<PacketTime>)
    ensures IsFirsts(Firsts(ps), ps)
  {
    if ps != [] {
      var before, x := ps[..|ps| - 1], ps[|ps| - 1];
      FirstsAreTheFirstArrivals(before);
      var f := Firsts(before);
      PresentInFirsts(f, before, x.startTime);
      assert ps == before + [x];
      forall y ensures y in Firsts(ps) <==> FirstArrival(ps, y) {
        FirstArrivalExtends(before, x, y);
        MembersOfFirstsWith(f, x, y);
      }
    }
  }

  lemma PresentInFirsts(f: seq<PacketTime>, ps: seq<PacketTime>, t: int)
    requires IsFirsts(f, ps)
    ensures Present(f, t) <==> exists i :: 0 <= i < |ps| && ps[i].startTime == t
  {
    if i :| 0 <= i < |f| && f[i].startTime == t {
      assert f[i] in f;
      assert FirstArrival(ps, f[i]);
    }
    if exists i :: 0 <= i < |ps| && ps[i].startTime == t {
      var i := LeastArrival(ps, t);
      assert FirstArrival(ps, ps[i]);
      assert ps[i] in f;
    }
  }

  lemma LeastArrival(ps: seq<PacketTime>, t: int) returns (i: nat)
    requires exists i :: 0 <= i < |ps| && ps[i].startTime == t
    ensures i < |ps| && ps[i].startTime == t && forall j :: 0 <= j < i ==> ps[j].startTime != t
  {
    i := 0;
    while ps[i].startTime != t
      invariant i < |ps| && forall j :: 0 <= j < i ==> ps[j].startTime != t
      decreases |ps| - i
    {
      i := i + 1;
    }
  }

  lemma FirstArrivalExtends(ps: seq<PacketTime>, x: PacketTime, y: PacketTime)
    ensures FirstArrival(ps + [x], y) <==>
            FirstArrival(ps, y) || (x == y && forall i :: 0 <= i < |ps| ==> ps[i].startTime != x.startTime)
  {
    var all := ps + [x];
    assert all[|ps|] == x;
    if FirstArrival(ps, y) {
      var i :| 0 <= i < |ps| && ps[i] == y && forall j :: 0 <= j < i ==> ps[j].startTime != y.startTime;
      assert all[i] == y && forall j :: 0 <= j < i ==> all[j].startTime != y.startTime;
    }
    if FirstArrival(all, y) {
      var i :| 0 <= i < |all| && all[i] == y && forall j :: 0 <= j < i ==> all[j].startTime != y.startTime;
      assert forall j :: 0 <= j < |ps| ==> all[j] == ps[j];
      if i < |ps| {
        assert ps[i] == y && forall j :: 0 <= j < i ==> ps[j].startTime != y.startTime;
      }
    }
  }

  // ---------------------------------------------------------------- bounded and unbounded deques

  /** What is stored without a bound: first arrivals, and packets that repeat a point at the end. */
  function Kept(ps: seq<PacketTime>): (f: seq<PacketTime>)
    ensures Sorted(f)
  {
    if ps == [] then []
    else
      var f := Kept(ps[..|ps| - 1]);
      InsertedIsSorted(f, ps[|ps| - 1]);
      KeptWith(f, ps[|ps| - 1])
  }

  function KeptWith(f: seq<PacketTime>, x: PacketTime): seq<PacketTime> {
    if RepeatsPoint(f, x) || !Present(f, x.startTime) then Inserted(f, x) else f
  }

  lemma InsertedIsSorted(f: seq<PacketTime>, x: PacketTime)
    requires Sorted(f)
    ensures Sorted(Inserted(f, x))
  {
    InsertionStaysSorted(f, x, Position(f, x.startTime));
  }

  lemma NewestIsSorted(f: seq<PacketTime>, capacity: nat)
    requires Sorted(f)
    ensures Sorted(Newest(f, capacity))
  {
  }

  /** The place in a suffix: the same place when it falls there, else the front. */
  lemma PositionInSuffix(f: seq<PacketTime>, t: int, cut: nat)
    requires Sorted(f) && cut <= |f| && Sorted(f[cut..])
    ensures Position(f[cut..], t) == if Position(f, t) >= cut then Position(f, t) - cut else 0
  {
    var k := Position(f, t);
    PositionIs(f[cut..], t, if k >= cut then k - cut else 0);
  }

  /** Inserting into a suffix leaves the same newest packets as inserting into the whole. */
  lemma InsertionIntoSuffix(f: seq<PacketTime>, x: PacketTime, k: nat, cut: nat)
    requires k <= |f| && cut <= |f|
    ensures Newest(InsertedAt(f[cut..], x, if k >= cut then k - cut else 0), |f| - cut)
            == Newest(InsertedAt(f, x, k), |f| - cut)
  {
  }

  /** Inserting before cutting to the newest is inserting after it. */
  lemma InsertionCommutesWithNewest(f: seq<PacketTime>, x: PacketTime, cut: nat)
    requires cut <= |f| && Sorted(f) && Sorted(f[cut..])
    ensures Newest(Inserted(f[cut..], x), |f| - cut) == Newest(Inserted(f, x), |f| - cut)
  {
    PositionInSuffix(f, x.startTime, cut);
    InsertionIntoSuffix(f, x, Position(f, x.startTime), cut);
  }

  lemma PresentInSuffix(f: seq<PacketTime>, t: int, cut: nat)
    requires cut <= |f|
    ensures Present(f[cut..], t) ==> Present(f, t)
  {
  }

  /** A start time that was cut off is older than everything kept. */
  lemma CutOffIsOlder(f: seq<PacketTime>, t: int, cut: nat)
    requires cut <= |f| && Sorted(f)
    requires Present(f, t) && !Present(f[cut..], t)
    ensures forall i :: cut <= i < |f| ==> t < f[i].startTime
  {
    var i :| 0 <= i < |f| && f[i].startTime == t;
    forall k | cut <= k < |f| ensures f[k].startTime != t {
      assert f[cut..][k - cut] == f[k];
    }
  }

  /** So a full deque drops it. */
  lemma CutOffIsDropped(f: seq<PacketTime>, x: PacketTime, cut: nat)
    requires cut <= |f| && Sorted(f) && Sorted(f[cut..])
    requires Present(f, x.startTime) && !Present(f[cut..], x.startTime)
    ensures Newest(Inserted(f[cut..], x), |f| - cut) == f[cut..]
  {
    CutOffIsOlder(f, x.startTime, cut);
    PositionIs(f[cut..], x.startTime, 0);
    assert InsertedAt(f[cut..], x, 0) == [x] + f[cut..];
  }

  lemma SameEnd(f: seq<PacketTime>, x: PacketTime, cut: nat)
    requires cut < |f| || |f| == 0 == cut
    ensures RepeatsPoint(f[cut..], x) <==> RepeatsPoint(f, x)
  {
  }

  /** Adding to a deque that was cut to its capacity is adding without a bound and cutting then. */
  lemma AddedAfterCut(f: seq<PacketTime>, x: PacketTime, cut: nat, capacity: nat)
    requires cut <= |f| && Sorted(f) && Sorted(f[cut..]) && capacity >= 1
    requires if cut == 0 then |f| <= capacity else |f| == cut + capacity
    ensures Added(f[cut..], x, capacity) == Newest(KeptWith(f, x), capacity)
  {
    if cut == 0 {
      assert f[cut..] == f;
    } else {
      SameEnd(f, x, cut);
      PresentInSuffix(f, x.startTime, cut);
      if RepeatsPoint(f, x) || !Present(f, x.startTime) {
        InsertionCommutesWithNewest(f, x, cut);
      } else if !Present(f[cut..], x.startTime) {
        CutOffIsDropped(f, x, cut);
      }
    }
  }

  lemma AddedFollowsKept(f: seq<PacketTime>, x: PacketTime, capacity: nat)
    requires Sorted(f) && capacity >= 1
    ensures Added(Newest(f, capacity), x, capacity) == Newest(KeptWith(f, x), capacity)
  {
    NewestIsSorted(f, capacity);
    assert Newest(f, capacity) == f[if |f| > capacity then |f| - capacity else 0..];
    AddedAfterCut(f, x, if |f| > capacity then |f| - capacity else 0, capacity);
  }

  lemma AddsAreTimed(ps: seq<PacketTime>)
    requires TimedPackets(ps)
    ensures TimedEvents(Adds(ps))
  {
  }

  lemma RunOfOneMore(before: seq<PacketTime>, x: PacketTime, capacity: nat)
    requires TimedEvents(Adds(before)) && TimedEvents(Adds(before + [x]))
    ensures Run(Adds(before + [x]), capacity) == Added(Run(Adds(before), capacity), x, capacity)
  {
    assert Adds(before + [x])[..|before|] == Adds(before);
  }

  lemma KeptExtends(before: seq<PacketTime>, x: PacketTime)
    ensures Kept(before + [x]) == KeptWith(Kept(before), x)
  {
    assert (before + [x])[..|before|] == before;
  }

  /** A bounded deque is always the newest part of the unbounded one, whatever packets arrive. */
  lemma {:induction false} RunIsNewestOfKept(ps: seq<PacketTime>, capacity: nat)
    requires TimedPackets(ps) && capacity >= 1
    ensures TimedEvents(Adds(ps))
    ensures Run(Adds(ps), capacity) == Newest(Kept(ps), capacity)
  {
    AddsAreTimed(ps);
    if ps != [] {
      var before, x := ps[..|ps| - 1], ps[|ps| - 1];
      assert ps == before + [x];
      RunIsNewestOfKept(before, capacity);
      RunOfOneMore(before, x, capacity);
      KeptExtends(before, x);
      AddedFollowsKept(Kept(before), x, capacity);
    }
  }

  // ---------------------------------------------------------------- when only first arrivals are stored

  /** Arrival i is stored although its start time arrived before: no earlier arrival starts later, and all
      earlier arrivals with its start time have zero length. */
  predicate StoredAgain(ps: seq<PacketTime>, i: nat) {
    && i < |ps|
    && (exists j :: 0 <= j < i && ps[j].startTime == ps[i].startTime)
    && (forall j :: 0 <= j < i ==> ps[j].startTime <= ps[i].startTime)
    && (forall j :: 0 <= j < i && ps[j].startTime == ps[i].startTime ==> ps[j].endTime == ps[j].startTime)
  }

  /** The end of the unbounded deque: the latest start time, as a point as long as only points had it. */
  ghost predicate EndsLike(f: seq<PacketTime>, ps: seq<PacketTime>) {
    f != [] && var l := f[|f| - 1];
    && (forall j :: 0 <= j < |ps| ==> ps[j].startTime <= l.startTime)
    && (exists j :: 0 <= j < |ps| && ps[j].startTime == l.startTime)
    && (l.endTime == l.startTime <==>
          forall j :: 0 <= j < |ps| && ps[j].startTime == l.startTime ==> ps[j].endTime == ps[j].startTime)
  }

  lemma KeptWithEnds(f: seq<PacketTime>, x: PacketTime)
    requires Sorted(f) && f != []
    ensures var g, l := KeptWith(f, x), f[|f| - 1];
            && g != []
            && g[|g| - 1] == if l.startTime < x.startTime || RepeatsPoint(f, x) then x else l
  {
    var l := f[|f| - 1];
    if l.startTime < x.startTime || RepeatsPoint(f, x) {
      assert forall i :: 0 <= i < |f| ==> f[i].startTime <= l.startTime;
      PositionIs(f, x.startTime, |f|);
    } else if x.startTime == l.startTime {
      assert Present(f, x.startTime);
    } else {
      assert Position(f, x.startTime) < |f|;
    }
  }

  lemma EndsLikeExtends(f: seq<PacketTime>, before: seq<PacketTime>, x: PacketTime)
    requires Sorted(f) && EndsLike(f, before)
    ensures EndsLike(KeptWith(f, x), before + [x])
  {
    KeptWithEnds(f, x);
    var ps := before + [x];
    assert forall j :: 0 <= j < |before| ==> ps[j] == before[j];
    assert ps[|before|] == x;
    var j :| 0 <= j < |before| && before[j].startTime == f[|f| - 1].startTime;
    assert ps[j].startTime == f[|f| - 1].startTime;
  }

  lemma {:induction false} KeptEnds(ps: seq<PacketTime>)
    requires ps != []
    ensures EndsLike(Kept(ps), ps)
  {
    var before, x := ps[..|ps| - 1], ps[|ps| - 1];
    assert ps == before + [x];
    KeptExtends(before, x);
    if before == [] {
      assert Kept(ps) == [x];
      assert ps[0] == x;
    } else {
      KeptEnds(before);
      EndsLikeExtends(Kept(before), before, x);
    }
  }

  lemma RepeatIsStoredAgain(before: seq<PacketTime>, x: PacketTime)
    ensures RepeatsPoint(Kept(before), x) <==> StoredAgain(before + [x], |before|)
  {
    var ps := before + [x];
    assert forall j :: 0 <= j < |before| ==> ps[j] == before[j];
    if before != [] {
      KeptEnds(before);
    }
  }

  lemma StoredAgainExtends(before: seq<PacketTime>, x: PacketTime)
    ensures (exists i :: StoredAgain(before + [x], i))
            <==> (exists i :: StoredAgain(before, i)) || StoredAgain(before + [x], |before|)
  {
    var ps := before + [x];
    forall i: nat | i < |before| ensures StoredAgain(ps, i) <==> StoredAgain(before, i) {
      assert forall j :: 0 <= j <= i ==> ps[j] == before[j];
    }
  }

  lemma PresentAfterInsertion(f: seq<PacketTime>, x: PacketTime, k: nat, t: int)
    requires k <= |f|
    ensures Present(InsertedAt(f, x, k), t) <==> Present(f, t) || t == x.startTime
  {
    var r := InsertedAt(f, x, k);
    assert r[k] == x;
    if Present(f, t) {
      var i :| 0 <= i < |f| && f[i].startTime == t;
      assert r[if i < k then i else i + 1] == f[i];
    }
    if Present(r, t) {
      var i :| 0 <= i < |r| && r[i].startTime == t;
      assert i == k || r[i] == f[if i < k then i else i - 1];
    }
  }

  ghost predicate SameStarts(f: seq<PacketTime>, g: seq<PacketTime>) {
    forall t :: Present(f, t) <==> Present(g, t)
  }

  lemma FirstsExtends(before: seq<PacketTime>, x: PacketTime)
    ensures Firsts(before + [x]) == FirstsWith(Firsts(before), x)
  {
    assert (before + [x])[..|before|] == before;
  }

  lemma StartsStaySame(f: seq<PacketTime>, g: seq<PacketTime>, x: PacketTime)
    requires SameStarts(f, g)
    ensures SameStarts(KeptWith(f, x), FirstsWith(g, x))
  {
    forall t ensures Present(KeptWith(f, x), t) <==> Present(FirstsWith(g, x), t) {
      PresentAfterInsertion(f, x, Position(f, x.startTime), t);
      PresentAfterInsertion(g, x, Position(g, x.startTime), t);
      assert Present(f, t) <==> Present(g, t);
      assert Present(f, x.startTime) <==> Present(g, x.startTime);
    }
  }

  /** The unbounded deque grows past the first arrivals when, and only when, a point is repeated. */
  lemma GrowsPastFirsts(f: seq<PacketTime>, g: seq<PacketTime>, x: PacketTime)
    requires SameStarts(f, g) && |g| <= |f|
    ensures |FirstsWith(g, x)| <= |KeptWith(f, x)|
    ensures |g| < |f| || RepeatsPoint(f, x) ==> |FirstsWith(g, x)| < |KeptWith(f, x)|
    ensures f == g && !RepeatsPoint(f, x) ==> KeptWith(f, x) == FirstsWith(g, x)
  {
    assert Present(f, x.startTime) <==> Present(g, x.startTime);
    if RepeatsPoint(f, x) {
      assert f[|f| - 1].startTime == x.startTime;
    }
  }

  /** Both lists have the same start times, and the unbounded deque has more packets once something was
      stored again. */
  lemma {:induction false} KeptAndFirsts(ps: seq<PacketTime>)
    ensures SameStarts(Kept(ps), Firsts(ps)) && |Firsts(ps)| <= |Kept(ps)|
    ensures (exists i :: StoredAgain(ps, i)) ==> |Firsts(ps)| < |Kept(ps)|
    ensures !(exists i :: StoredAgain(ps, i)) ==> Kept(ps) == Firsts(ps)
  {
    if ps != [] {
      var before, x := ps[..|ps| - 1], ps[|ps| - 1];
      assert ps == before + [x];
      KeptAndFirsts(before);
      KeptExtends(before, x);
      FirstsExtends(before, x);
      RepeatIsStoredAgain(before, x);
      StoredAgainExtends(before, x);
      StartsStaySame(Kept(before), Firsts(before), x);
      GrowsPastFirsts(Kept(before), Firsts(before), x);
    }
  }

  /** The stored packets are the first arrivals exactly when no arrival is stored again. */
  lemma KeptAreFirstsIff(ps: seq<PacketTime>)
    ensures Kept(ps) == Firsts(ps) <==> forall i :: !StoredAgain(ps, i)
  {
    KeptAndFirsts(ps);
  }

  /** After additions of which none is stored again the deque holds the newest first arrivals, each with
      the payload that came first. */
  lemma RunKeepsNewestFirsts(ps: seq<PacketTime>, capacity: nat)
    requires TimedPackets(ps) && capacity >= 1
    requires forall i :: !StoredAgain(ps, i)
    ensures TimedEvents(Adds(ps))
    ensures Run(Adds(ps), capacity) == Newest(Firsts(ps), capacity)
  {
    RunIsNewestOfKept(ps, capacity);
    KeptAreFirstsIff(ps);
  }

  // ---------------------------------------------------------------- the order of arrival

  predicate DistinctStarts(ps: seq<PacketTime>) {
    forall i, j :: 0 <= i < j < |ps| ==> ps[i].startTime != ps[j].startTime
  }

  lemma FirstArrivalsOfDistinct(ps: seq<PacketTime>, x: PacketTime)
    requires DistinctStarts(ps)
    ensures FirstArrival(ps, x) <==> x in ps
  {
  }

  /** An ascending list is determined by its members. */
  lemma {:induction false} AscendingIsUnique(a: seq<PacketTime>, b: seq<PacketTime>)
    requires Ascending(a) && Ascending(b)
    requires forall x :: x in a <==> x in b
    ensures a == b
  {
    assert b != [] ==> b[0] in a;
    assert a != [] ==> a[0] in b;
    if a != [] {
      var m, n := a[|a| - 1], b[|b| - 1];
      assert m in b && n in a;
      assert m == n;
      var a', b' := a[..|a| - 1], b[..|b| - 1];
      forall x ensures x in a' <==> x in b' {
        WithoutLast(a, x);
        WithoutLast(b, x);
      }
      AscendingIsUnique(a', b');
      assert a == a' + [m] && b == b' + [n];
    }
  }

  lemma WithoutLast(a: seq<PacketTime>, x: PacketTime)
    requires Ascending(a) && a != []
    ensures x in a[..|a| - 1] <==> x in a && x != a[|a| - 1]
  {
  }

  lemma {:induction false} RepeatIsCounted(ps: seq<PacketTime>, i: nat, j: nat)
    requires i < j < |ps| && ps[i] == ps[j]
    ensures multiset(ps)[ps[i]] >= 2
  {
    var x := ps[i];
    assert ps == ps[..j] + ps[j..];
    assert ps[..j][i] == x && ps[j..][0] == x;
    assert x in ps[..j] && x in ps[j..];
    assert multiset(ps) == multiset(ps[..j]) + multiset(ps[j..]);
  }

  lemma {:induction false} CountedIsRepeated(ps: seq<PacketTime>, x: PacketTime)
    requires multiset(ps)[x] >= 2
    ensures exists i, j :: 0 <= i < j < |ps| && ps[i] == x == ps[j]
  {
    var front, last := ps[..|ps| - 1], ps[|ps| - 1];
    assert ps == front + [last];
    if last == x {
      assert x in multiset(front);
      var i :| 0 <= i < |front| && front[i] == x;
      assert ps[i] == x == ps[|ps| - 1];
    } else {
      CountedIsRepeated(front, x);
      var i, j :| 0 <= i < j < |front| && front[i] == x == front[j];
      assert ps[i] == x == ps[j];
    }
  }

  /** Distinct start times survive reordering. */
  lemma DistinctUnderPermutation(ps: seq<PacketTime>, qs: seq<PacketTime>)
    requires multiset(ps) == multiset(qs) && DistinctStarts(ps)
    ensures DistinctStarts(qs)
  {
    forall i, j | 0 <= i < j < |qs| ensures qs[i].startTime != qs[j].startTime {
      assert qs[i] in multiset(ps) && qs[j] in multiset(ps);
      if qs[i] == qs[j] {
        RepeatIsCounted(qs, i, j);
        CountedIsRepeated(ps, qs[i]);
        assert false;
      }
    }
  }

  /** The order of arrival does not matter: every permutation of packets with distinct start times
      leaves the same deque, the newest of them in order. */
  lemma ArrivalOrderDoesNotMatter(ps: seq<PacketTime>, qs: seq<PacketTime>, capacity: nat)
    requires TimedPackets(ps) && DistinctStarts(ps) && capacity >= 1
    requires multiset(ps) == multiset(qs)
    ensures TimedEvents(Adds(ps)) && TimedEvents(Adds(qs))
    ensures Run(Adds(qs), capacity) == Run(Adds(ps), capacity) == Newest(Firsts(ps), capacity)
    ensures Ascending(Firsts(ps)) && multiset(Firsts(ps)) == multiset(ps)
  {
    DistinctUnderPermutation(ps, qs);
    forall x ensures x in ps <==> x in qs {
      assert x in ps <==> x in multiset(ps);
      assert x in qs <==> x in multiset(qs);
    }
    forall p | p in qs ensures p.startTime <= p.endTime {
      assert p in ps;
    }
    RunKeepsNewestFirsts(ps, capacity);
    RunKeepsNewestFirsts(qs, capacity);
    FirstsAreTheFirstArrivals(ps);
    FirstsAreTheFirstArrivals(qs);
    forall x ensures x in Firsts(ps) <==> x in ps
             ensures x in Firsts(qs) <==> x in ps
    {
      FirstArrivalsOfDistinct(ps, x);
      FirstArrivalsOfDistinct(qs, x);
    }
    AscendingIsUnique(Firsts(ps), Firsts(qs));
    SameMembersOnce(Firsts(ps), ps);
  }

  lemma SameMembersOnce(a: seq<PacketTime>, b: seq<PacketTime>)
    requires DistinctStarts(a) && DistinctStarts(b)
    requires forall x :: x in a <==> x in b
    ensures multiset(a) == multiset(b)
  {
    forall x ensures multiset(a)[x] == multiset(b)[x] {
      assert x in multiset(a) <==> x in a;
      assert x in multiset(b) <==> x in b;
      if multiset(a)[x] >= 2 {
        CountedIsRepeated(a, x);
        assert false;
      }
      if multiset(b)[x] >= 2 {
        CountedIsRepeated(b, x);
        assert false;
      }
    }
  }
}
