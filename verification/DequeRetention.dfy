/** What a run retains: no packet disappears but by expiry or because newer packets fill the deque. */
module DequeRetention {
  import opened Deque
  import opened DequeAdd

  /** The deque is full, and everything in it is newer than a time. */
  predicate FullOfNewer(q: seq<PacketTime>, t: int, capacity: nat) {
    |q| == capacity && forall i :: 0 <= i < |q| ==> t < q[i].startTime
  }

  lemma FrontDropped(r: seq<PacketTime>, t: int)
    requires Sorted(r) && Present(r, t)
    ensures Present(r[1..], t) || forall i :: 0 <= i < |r[1..]| ==> t < r[1..][i].startTime
  {
  }

  /** After an addition a start time is still there, or the deque is full of newer packets. */
  lemma AdditionRetains(q: seq<PacketTime>, x: PacketTime, capacity: nat, t: int)
    requires Consistent(q, capacity) && x.startTime <= x.endTime
    requires Present(q, t) || t == x.startTime
    ensures Present(Added(q, x, capacity), t) || FullOfNewer(Added(q, x, capacity), t, capacity)
  {
    if RepeatsPoint(q, x) || !Present(q, x.startTime) {
      InsertionStaysConsistent(q, x);
      PresentAfterInsertion(q, x, Position(q, x.startTime), t);
      if |q| == capacity {
        FrontDropped(Inserted(q, x), t);
      }
    }
  }

  /** After an expiry a start time is still there, or a packet with that start time had ended too early. */
  lemma ExpiryRetains(q: seq<PacketTime>, oldest: int, t: int)
    requires Present(q, t)
    ensures Present(Expired(q, oldest), t) || exists p <- q :: p.startTime == t && p.endTime < oldest
  {
    ExpiredMembers(q, oldest);
    var i :| 0 <= i < |q| && q[i].startTime == t;
    if q[i].endTime >= oldest {
      assert q[i] in Expired(q, oldest);
      var k :| 0 <= k < |Expired(q, oldest)| && Expired(q, oldest)[k] == q[i];
    }
  }

  /** Event j gives a start time up for a reason. */
  predicate GivenUpAt(events: seq<Event>, j: nat, t: int, capacity: nat)
    requires TimedEvents(events) && j < |events|
  {
    PrefixIsTimed(events, j);
    PrefixIsTimed(events, j + 1);
    match events[j]
    case Add(_) => FullOfNewer(Run(events[..j + 1], capacity), t, capacity)
    case Expire(oldest) => exists p <- Run(events[..j], capacity) :: p.startTime == t && p.endTime < oldest
  }

  lemma PrefixIsTimed(events: seq<Event>, j: nat)
    requires TimedEvents(events) && j <= |events|
    ensures TimedEvents(events[..j])
  {
  }

  lemma RunStep(events: seq<Event>, j: nat, capacity: nat)
    requires TimedEvents(events) && j < |events|
    ensures TimedEvents(events[..j]) && TimedEvents(events[..j + 1])
    ensures Run(events[..j + 1], capacity) == Step(Run(events[..j], capacity), events[j], capacity)
  {
    assert events[..j + 1][..j] == events[..j];
  }

  /** Nothing is lost without a reason: after a packet was offered, at any later point of a run its start
      time is retained, or some event since then filled the deque with newer packets or expired a packet
      of that start time.  This holds of all packets, overlapping ones and repeats too. */
  lemma {:induction false} NothingIsLostWithoutReason(events: seq<Event>, i: nat, n: nat, capacity: nat)
    requires TimedEvents(events) && i < n <= |events| && events[i].Add?
    ensures TimedEvents(events[..n])
    ensures Present(Run(events[..n], capacity), events[i].x.startTime)
            || exists j :: i <= j < n && GivenUpAt(events, j, events[i].x.startTime, capacity)
    decreases n
  {
    var t := events[i].x.startTime;
    var last := n - 1;
    RunStep(events, last, capacity);
    var before := Run(events[..last], capacity);
    if i < last {
      NothingIsLostWithoutReason(events, i, last, capacity);
    }
    if i == last || Present(before, t) {
      match events[last] {
        case Add(x) => AdditionRetains(before, x, capacity, t);
        case Expire(oldest) => ExpiryRetains(before, oldest, t);
      }
      if !Present(Run(events[..n], capacity), t) {
        assert GivenUpAt(events, last, t, capacity);
      }
    }
  }
}
