/**
 What the packet deque of one stream means: the invariant of its contents, and the intended effect
 of adding a packet, removing expired packets and asking for a time range.
 */
module Deque {
  import opened Messages

  /** A stored packet with its first and last sample time in nanoseconds. */
  datatype PacketTime = PacketTime(packet: CachePacket, startTime: int, endTime: int)

  // ---------------------------------------------------------------- invariant

  predicate Sorted(q: seq<PacketTime>) {
    forall i, j :: 0 <= i < j < |q| ==> q[i].startTime <= q[j].startTime
  }

  predicate WellTimed(q: seq<PacketTime>) {
    forall i :: 0 <= i < |q| ==> q[i].startTime <= q[i].endTime
  }

  /** A start time repeats only after a packet of zero length. */
  predicate OnlyPointsRepeat(q: seq<PacketTime>) {
    forall i, j :: 0 <= i < j < |q| && q[i].startTime == q[j].startTime ==> q[i].endTime == q[i].startTime
  }

  predicate Consistent(q: seq<PacketTime>, capacity: nat) {
    && Sorted(q)
    && WellTimed(q)
    && OnlyPointsRepeat(q)
    && |q| <= capacity
  }

  // ---------------------------------------------------------------- adding

  predicate Present(q: seq<PacketTime>, t: int) {
    exists i :: 0 <= i < |q| && q[i].startTime == t
  }

  /** How many of the first k packets start at or before a time. */
  function PositionWithin(q: seq<PacketTime>, t: int, k: nat): (r: nat)
    requires k <= |q|
    ensures r <= k
    ensures Sorted(q) ==> forall i :: 0 <= i < r ==> q[i].startTime <= t
    ensures forall i :: r <= i < k ==> q[i].startTime > t
  {
    if k == 0 || q[k - 1].startTime <= t then k else PositionWithin(q, t, k - 1)
  }

  /** How many packets start at or before a time: the place for a packet that starts then. */
  function Position(q: seq<PacketTime>, t: int): (k: nat)
    ensures k <= |q|
    ensures Sorted(q) ==> forall i :: 0 <= i < k ==> q[i].startTime <= t
    ensures forall i :: k <= i < |q| ==> q[i].startTime > t
  {
    PositionWithin(q, t, |q|)
  }

  function InsertedAt(q: seq<PacketTime>, x: PacketTime, k: nat): seq<PacketTime>
    requires k <= |q|
  {
    q[..k] + [x] + q[k..]
  }

  function Inserted(q: seq<PacketTime>, x: PacketTime): seq<PacketTime>
  {
    InsertedAt(q, x, Position(q, x.startTime))
  }

  /** The newest packets that fit. */
  function Newest(q: seq<PacketTime>, capacity: nat): seq<PacketTime> {
    if |q| <= capacity then q else q[|q| - capacity..]
  }

  /** The promise: the first arrival for a start time wins, and the newest packets are kept. */
  function KeepNewest(q: seq<PacketTime>, x: PacketTime, capacity: nat): seq<PacketTime>
  {
    if Present(q, x.startTime) then q else Newest(Inserted(q, x), capacity)
  }

  /** The last packet has zero length and the new packet starts at that same instant. */
  predicate RepeatsPoint(q: seq<PacketTime>, x: PacketTime) {
    q != [] && q[|q| - 1].startTime == x.startTime == q[|q| - 1].endTime
  }

  /** What adding does: the promise, except that a packet repeating a point at the end is stored too. */
  function Added(q: seq<PacketTime>, x: PacketTime, capacity: nat): seq<PacketTime>
  {
    if RepeatsPoint(q, x) then Newest(Inserted(q, x), capacity) else KeepNewest(q, x, capacity)
  }

  // ---------------------------------------------------------------- expiring

  function Expired(q: seq<PacketTime>, oldest: int): (r: seq<PacketTime>)
    ensures |r| <= |q|
  {
    if q == [] then []
    else Expired(q[..|q| - 1], oldest) + (if q[|q| - 1].endTime < oldest then [] else [q[|q| - 1]])
  }

  // ---------------------------------------------------------------- asking

  predicate Overlaps(p: PacketTime, s: int, e: int) {
    p.startTime <= e && s <= p.endTime
  }

  /** The stored packets that overlap a time range, in order. */
  function Overlapping(q: seq<PacketTime>, s: int, e: int): seq<PacketTime> {
    if q == [] then []
    else Overlapping(q[..|q| - 1], s, e) + (if Overlaps(q[|q| - 1], s, e) then [q[|q| - 1]] else [])
  }

  /** An answer may begin here: the packet starts in the range or after it, or it is still running at
      its start while the next packet begins later. */
  predicate Anchor(q: seq<PacketTime>, s: int, i: nat)
    requires i < |q|
  {
    || s <= q[i].startTime
    || (i + 1 < |q| && s < q[i + 1].startTime && s <= q[i].endTime)
  }

  /** An answer must end before packet j: there is none, it starts after the range, or the packet
      before it already reaches the end of the range. */
  predicate Closes(q: seq<PacketTime>, e: int, j: nat)
    requires 0 < j <= |q|
  {
    j == |q| || e < q[j].startTime || e <= q[j - 1].endTime
  }

  predicate Answers(q: seq<PacketTime>, s: int) {
    q != [] && s <= q[|q| - 1].startTime
  }

  function FirstAnchor(q: seq<PacketTime>, s: int, i: nat): (lo: nat)
    requires Answers(q, s) && i < |q|
    ensures i <= lo < |q| && Anchor(q, s, lo)
    ensures forall k :: i <= k < lo ==> !Anchor(q, s, k)
    decreases |q| - i
  {
    if Anchor(q, s, i) then i else FirstAnchor(q, s, i + 1)
  }

  function FirstClose(q: seq<PacketTime>, e: int, j: nat): (hi: nat)
    requires 0 < j <= |q|
    ensures j <= hi <= |q| && Closes(q, e, hi)
    ensures forall k :: j <= k < hi ==> !Closes(q, e, k)
    decreases |q| - j
  {
    if Closes(q, e, j) then j else FirstClose(q, e, j + 1)
  }

  /** Where the answer begins. */
  function Low(q: seq<PacketTime>, s: int): nat
    requires Answers(q, s)
  {
    FirstAnchor(q, s, 0)
  }

  /** Where it ends; it always holds at least one packet. */
  function High(q: seq<PacketTime>, s: int, e: int): nat
    requires Answers(q, s)
  {
    FirstClose(q, e, Low(q, s) + 1)
  }

  /** The answer to a range query: the packets from the first anchor to the first close after it.  It
      is empty exactly when the deque is or the range starts after the newest packet does. */
  function Answer(q: seq<PacketTime>, s: int, e: int): (r: seq<PacketTime>)
    ensures r == [] <==> !Answers(q, s)
  {
    if Answers(q, s) then q[Low(q, s)..High(q, s, e)] else []
  }

  // ---------------------------------------------------------------- payloads

  function Packets(q: seq<PacketTime>): (r: seq<CachePacket>)
    ensures |r| == |q| && forall i :: 0 <= i < |q| ==> r[i] == q[i].packet
  {
    seq(|q|, i requires 0 <= i < |q| => q[i].packet)
  }
}
