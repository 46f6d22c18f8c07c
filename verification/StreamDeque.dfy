/**
 The packet deque of one stream.  The clock is an input of every operation that reads it, and the
 debug build is a field, because it adds a check to one operation.
 */
module StreamDeques {
  import opened Wrappers
  import opened Messages
  import opened Deque
  import DequeAdd
  import DequeExpiry
  import DequeQuery
  import Identifiers
  import PacketConversion
  import PacketTimes

  /** The largest value of the option, a positive int. */
  const MAX_PACKETS := 0x7FFF_FFFF

  predicate Timable(c: CachePacket) {
    c.numberOfSamples >= 1 && c.samplingRate > 0.0
  }

  /** A packet as it is stored. */
  function Stamped(c: CachePacket): (p: PacketTime)
    requires Timable(c)
    ensures p.startTime <= p.endTime
  {
    PacketTimes.EndIsWithinHalfANanosecond(c.startTime, c.numberOfSamples, c.samplingRate);
    PacketTime(c, PacketTimes.StartNanoseconds(c.startTime),
               PacketTimes.EndNanoseconds(c.startTime, c.numberOfSamples, c.samplingRate).value)
  }

  /** The times of a stored packet, from what the packet says: the end is as many sampling periods after
      the start as there are further samples, to within half a nanosecond, halves up. */
  lemma StampedTimes(c: CachePacket)
    requires Timable(c)
    ensures var p := Stamped(c);
            && p.packet == c
            && p.startTime == c.startTime.seconds * 1_000_000_000 + c.startTime.nanos
            && -c.samplingRate
               < 2.0 * ((p.endTime - p.startTime) as real * c.samplingRate
                        - (c.numberOfSamples - 1) as real * 1_000_000_000.0)
               <= c.samplingRate
  {
    PacketTimes.EndBySamplesAndRate(c.startTime, c.numberOfSamples, c.samplingRate);
  }

  /** Packets a deque takes, whatever their stream. */
  predicate Acceptable(p: ImportPacket) {
    p.streamIdentifier.Some? && PacketConversion.Convertible(p) && p.Samples() >= 1
  }

  function StoredForm(p: ImportPacket): PacketTime
    requires Acceptable(p)
  {
    Stamped(PacketConversion.CacheForm(p))
  }

  /** std::ranges::upper_bound with the comparator of the source, which is called with the value first:
      the first packet that starts at or after a time. */
  method UpperBound(q: seq<PacketTime>, t: int) returns (it: nat)
    requires Sorted(q)
    ensures it <= |q|
    ensures forall i :: 0 <= i < it ==> q[i].startTime < t
    ensures forall i :: it <= i < |q| ==> t <= q[i].startTime
  {
    it := 0;
    var len := |q|;
    while len > 0
      invariant 0 <= len && it + len <= |q|
      invariant forall i :: 0 <= i < it ==> q[i].startTime < t
      invariant forall i :: it + len <= i < |q| ==> t <= q[i].startTime
    {
      var half := len / 2;
      var middle := it + half;
      if t <= q[middle].startTime {
        len := half;
      } else {
        it := middle + 1;
        len := len - half - 1;
      }
    }
  }

  /** std::ranges::lower_bound with the comparator of the source: the first packet that starts after a time. */
  method LowerBound(q: seq<PacketTime>, t: int) returns (it: nat)
    requires Sorted(q)
    ensures it == Position(q, t)
  {
    it := 0;
    var len := |q|;
    while len > 0
      invariant 0 <= len && it + len <= |q|
      invariant forall i :: 0 <= i < it ==> q[i].startTime <= t
      invariant forall i :: it + len <= i < |q| ==> t < q[i].startTime
    {
      var half := len / 2;
      var middle := it + half;
      if t >= q[middle].startTime {
        it := middle + 1;
        len := len - half - 1;
      } else {
        len := half;
      }
    }
    DequeAdd.PositionIs(q, t, it);
  }

  /** std::erase_if: the kept packets move forward in order. */
  method EraseExpired(q: seq<PacketTime>, oldestTime: int)
    returns (kept: seq<PacketTime>, nRemoved: nat)
    ensures kept == Expired(q, oldestTime)
    ensures nRemoved == DequeExpiry.Removed(q, oldestTime)
  {
    kept := [];
    for i := 0 to |q|
      invariant kept == Expired(q[..i], oldestTime)
    {
      assert q[..i + 1][..i] == q[..i];
      if !(q[i].endTime < oldestTime) {
        kept := kept + [q[i]];
      }
    }
    assert q[..|q|] == q;
    nRemoved := |q| - |kept|;
  }

  lemma PacketsExtend(q: seq<PacketTime>, lo: nat, hi: nat)
    requires lo <= hi < |q|
    ensures Packets(q[lo..hi + 1]) == Packets(q[lo..hi]) + [q[hi].packet]
  {
  }

  /** The copy loop, which stops early at a packet that reaches the end of the range. */
  method CopyRange(q: seq<PacketTime>, it0: nat, it1: nat, endTime: int) returns (result: seq<CachePacket>)
    requires it0 < it1 <= |q| && Closes(q, endTime, it1)
    requires forall j :: it0 < j < it1 ==> q[j].startTime <= endTime
    ensures FirstClose(q, endTime, it0 + 1) <= it1
    ensures result == Packets(q[it0..FirstClose(q, endTime, it0 + 1)])
  {
    ghost var hi := FirstClose(q, endTime, it0 + 1);
    result := [];
    var it := it0;
    while it != it1
      invariant it0 <= it <= it1
      invariant forall j :: it0 < j <= it && j < it1 ==> !Closes(q, endTime, j)
      invariant result == Packets(q[it0..it])
    {
      PacketsExtend(q, it0, it);
      result := result + [q[it].packet];
      if endTime <= q[it].endTime {
        assert Closes(q, endTime, it + 1);
        return;
      }
      it := it + 1;
    }
  }

  /** The first bound of a query: the search, and the step back to a packet still running at the start. */
  method FirstBound(q: seq<PacketTime>, startTime: int) returns (it0: nat)
    requires Sorted(q) && q != []
    ensures it0 == if Answers(q, startTime) then Low(q, startTime) else |q|
  {
    it0 := UpperBound(q, startTime);
    if it0 == |q| { return; }
    ghost var first := it0;
    if it0 != 0 && q[it0].startTime > startTime {
      it0 := it0 - 1;
      if q[it0].endTime < startTime { it0 := it0 + 1; }
    }
    DequeQuery.LowIs(q, startTime, first, it0);
  }

  /** The query itself.  The second result is what the debug build asserts after a general copy: that
      as many packets were copied as were planned. */
  method Query(q: seq<PacketTime>, startTime: int, endTime: int) returns (result: seq<CachePacket>, copyIsWhole: bool)
    requires Sorted(q) && WellTimed(q) && startTime <= endTime
    ensures result == Packets(Answer(q, startTime, endTime))
    ensures copyIsWhole <==>
            (startTime < endTime && Answers(q, startTime)
             ==> DequeQuery.CopyIsWhole(q, startTime, endTime))
  {
    result := [];
    copyIsWhole := true;
    if q == [] { return; }
    var it0 := FirstBound(q, startTime);
    if it0 == |q| { return; }
    DequeQuery.BoundsAreOrdered(q, startTime, endTime);
    if startTime == endTime {
      InstantHoldsOnePacket(q, startTime);
      result := result + [q[it0].packet];
      return;
    }
    var it1 := |q|;
    if endTime < q[|q| - 1].startTime {
      it1 := LowerBound(q, endTime);
    }
    DequeAdd.PositionIs(q, endTime, it1);
    if it0 == it1 {
      DequeQuery.NextPacketStandsAlone(q, startTime, endTime);
      result := result + [q[it0].packet];
      return;
    }
    assert it0 < it1;
    DequeQuery.EarlyExitIff(q, startTime, endTime);
    var nPackets := it1 - it0;
    if nPackets < 1 { return; }
    PositionCloses(q, endTime, it0, it1);
    result := CopyRange(q, it0, it1, endTime);
    copyIsWhole := nPackets == |result|;
  }

  /** What holds of a deque at all times: the invariant, and times that are those of the packets. */
  predicate ValidContents(q: seq<PacketTime>, capacity: nat) {
    && Consistent(q, capacity)
    && forall p <- q :: Timable(p.packet) && p == Stamped(p.packet)
  }

  lemma AddedIsValid(q: seq<PacketTime>, c: CachePacket, capacity: nat)
    requires ValidContents(q, capacity) && Timable(c)
    ensures ValidContents(Added(q, Stamped(c), capacity), capacity)
  {
    DequeAdd.AddedIsConsistent(q, Stamped(c), capacity);
    AddedMembers(q, Stamped(c), capacity);
  }

  lemma ExpiredIsValid(q: seq<PacketTime>, oldest: int, capacity: nat)
    requires ValidContents(q, capacity)
    ensures ValidContents(Expired(q, oldest), capacity)
    ensures DequeExpiry.Removed(q, oldest) <= capacity
  {
    DequeAdd.ExpiredIsConsistent(q, oldest);
    DequeAdd.ExpiredMembers(q, oldest);
  }

  class StreamDeque {
    var mDeque: seq<PacketTime>
    var mStreamIdentifier: string
    var mLastUpdate: int
    const mMaximumNumberOfPackets: nat
    const debug: bool

    ghost predicate Valid()
      reads this
    {
      1 <= mMaximumNumberOfPackets <= MAX_PACKETS && ValidContents(mDeque, mMaximumNumberOfPackets)
    }

    /** The members before the first packet is added; creation counts as an update. */
    constructor (maximumNumberOfPackets: nat, identifier: string, debug: bool, now: int)
      requires 1 <= maximumNumberOfPackets <= MAX_PACKETS
      ensures Valid()
      ensures mDeque == [] && mStreamIdentifier == identifier && mLastUpdate == now
      ensures mMaximumNumberOfPackets == maximumNumberOfPackets && this.debug == debug
    {
      mDeque := [];
      mStreamIdentifier := identifier;
      mLastUpdate := now;
      mMaximumNumberOfPackets := maximumNumberOfPackets;
      this.debug := debug;
    }

    /** Construction from a first packet; every exception leaves no deque behind. */
    static method Create(maximumNumberOfPackets: nat, packet: ImportPacket, debug: bool, now: int)
      returns (r: Result<StreamDeque>)
      requires 1 <= maximumNumberOfPackets <= MAX_PACKETS
      ensures r.Ok? <==> Acceptable(packet) && Identifiers.Printed(packet.Identifier()).Ok?
      ensures r.Ok? ==>
                && fresh(r.value) && r.value.Valid()
                && r.value.mDeque == [StoredForm(packet)]
                && r.value.mStreamIdentifier == Identifiers.Printed(packet.Identifier()).value
                && r.value.mMaximumNumberOfPackets == maximumNumberOfPackets
                && r.value.debug == debug && r.value.mLastUpdate == now
    {
      if packet.streamIdentifier.None? {
        return Err("Packet identifier not set");
      }
      var identifier := Identifiers.ToString(packet.Identifier());
      if identifier.Err? {
        return Err(identifier.message);
      }
      var result := new StreamDeque(maximumNumberOfPackets, identifier.value, debug, now);
      var outcome := result.AddPacket(packet, now);
      if outcome.Fail? {
        return Err(outcome.message);
      }
      return Ok(result);
    }

    /** Adds an import packet: the rejections, the identifier check of the debug build, the conversion. */
    method AddPacket(packet: ImportPacket, now: int) returns (outcome: Outcome)
      requires Valid()
      modifies this
      ensures Valid() && mStreamIdentifier == old(mStreamIdentifier)
      ensures outcome.Pass? <==>
              Acceptable(packet)
              && (debug ==> Identifiers.Printed(packet.Identifier()) == Ok(mStreamIdentifier))
      ensures outcome.Pass? ==>
                mDeque == Added(old(mDeque), StoredForm(packet), mMaximumNumberOfPackets) && mLastUpdate == now
      ensures outcome.Fail? ==> mDeque == old(mDeque) && mLastUpdate == old(mLastUpdate)
    {
      if packet.streamIdentifier.None? {
        return Fail("Stream identifier not set");
      }
      if packet.samplingRate.None? {
        return Fail("Sampling rate not set");
      }
      if packet.startTime.None? {
        return Fail("Start time is not set");
      }
      if packet.Samples() < 1 {
        return Fail("No samples");
      }
      if debug {
        var thisIdentifier := Identifiers.ToString(packet.Identifier());
        if thisIdentifier.Err? {
          return Fail(thisIdentifier.message);
        }
        if thisIdentifier.value != mStreamIdentifier {
          return Fail("This stream identifier (" + thisIdentifier.value
                      + ") does not match expected stream identifier (" + mStreamIdentifier + ")");
        }
      }
      var convertedPacket := PacketConversion.ConvertPacket(packet);
      if convertedPacket.Err? {
        return Fail(convertedPacket.message);
      }
      outcome := AddConverted(convertedPacket.value, now);
    }

    /** Adds a converted packet: append, slipped append, repeat of the front, too old for a full deque,
        prepend, repeat elsewhere, insertion, insertion that evicts the oldest. */
    method AddConverted(packet: CachePacket, now: int) returns (outcome: Outcome)
      requires Valid()
      modifies this`mDeque, this`mLastUpdate
      ensures Valid()
      ensures outcome.Pass? <==> Timable(packet)
      ensures outcome.Pass? ==>
                mDeque == Added(old(mDeque), Stamped(packet), mMaximumNumberOfPackets) && mLastUpdate == now
      ensures outcome.Fail? ==> mDeque == old(mDeque) && mLastUpdate == old(mLastUpdate)
    {
      var startTime := PacketTimes.StartNanoseconds(packet.startTime);
      var end := PacketTimes.EndNanoseconds(packet.startTime, packet.numberOfSamples, packet.samplingRate);
      if end.Err? {
        return Fail(end.message);
      }
      var endTime := end.value;
      var newPacket := PacketTime(packet, startTime, endTime);
      assert newPacket == Stamped(packet);
      AddedIsValid(mDeque, packet, mMaximumNumberOfPackets);
      StoreNew(newPacket, now);
      return Pass;
    }

    /** The branches of the insertion. */
    method StoreNew(newPacket: PacketTime, now: int)
      requires 1 <= mMaximumNumberOfPackets && Consistent(mDeque, mMaximumNumberOfPackets)
      requires newPacket.startTime <= newPacket.endTime
      modifies this`mDeque, this`mLastUpdate
      ensures mDeque == Added(old(mDeque), newPacket, mMaximumNumberOfPackets)
      ensures mLastUpdate == now
    {
      ghost var q := mDeque;
      var startTime, endTime := newPacket.startTime, newPacket.endTime;
      if mDeque == [] {
        AppendIsAdded(q, newPacket, mMaximumNumberOfPackets);
        mDeque := mDeque + [newPacket];
        mLastUpdate := now;
        return;
      }

      var isFull := |mDeque| >= mMaximumNumberOfPackets;

      var currentOldestTime := mDeque[|mDeque| - 1].endTime;
      if startTime >= currentOldestTime {
        AppendIsAdded(q, newPacket, mMaximumNumberOfPackets);
        if isFull { mDeque := mDeque[1..]; }
        mDeque := mDeque + [newPacket];
        mLastUpdate := now;
        return;
      }
      if startTime > mDeque[|mDeque| - 1].startTime {
        AppendIsAdded(q, newPacket, mMaximumNumberOfPackets);
        if isFull { mDeque := mDeque[1..]; }
        mDeque := mDeque + [newPacket];
        mLastUpdate := now;
        return;
      }
      var currentEarliestTime := mDeque[0].startTime;
      if startTime == currentEarliestTime {
        assert Present(q, startTime);
        mLastUpdate := now;
        return;
      }
      if startTime < currentEarliestTime && isFull {
        OlderThanFullIsDropped(q, newPacket, mMaximumNumberOfPackets);
        mLastUpdate := now;
        return;
      }
      if endTime <= currentEarliestTime && !isFull {
        InsertionIsAdded(q, newPacket, mMaximumNumberOfPackets, 0);
        mDeque := [newPacket] + mDeque;
        mLastUpdate := now;
        return;
      }

      var it := UpperBound(mDeque, startTime);
      assert it < |q|;
      if it != |mDeque| {
        var startTimeNeighbor := mDeque[it].startTime;
        if startTime == startTimeNeighbor {
          assert Present(q, startTime);
          mLastUpdate := now;
          return;
        }
        InsertionIsAdded(q, newPacket, mMaximumNumberOfPackets, it);
        mDeque := mDeque[..it] + [newPacket] + mDeque[it..];
        if isFull { mDeque := mDeque[1..]; }
        mLastUpdate := now;
        assert Sorted(mDeque) by {
          DequeAdd.AddedIsConsistent(q, newPacket, mMaximumNumberOfPackets);
        }
      }
    }

    /** Removes the packets that end before a time; the count is cast to 32 bits. */
    method RemoveExpiredPackets(oldestTime: int) returns (nRemoved: uint32)
      requires Valid()
      modifies this`mDeque
      ensures Valid()
      ensures mDeque == Expired(old(mDeque), oldestTime)
      ensures nRemoved == DequeExpiry.Removed(old(mDeque), oldestTime)
    {
      ExpiredIsValid(mDeque, oldestTime, mMaximumNumberOfPackets);
      var kept, removed := EraseExpired(mDeque, oldestTime);
      mDeque := kept;
      nRemoved := Truncated(removed);
    }

    method GetAllPackets() returns (result: seq<CachePacket>)
      ensures result == Packets(mDeque)
    {
      result := [];
      for i := 0 to |mDeque|
        invariant |result| == i && forall k :: 0 <= k < i ==> result[k] == mDeque[k].packet
      {
        result := result + [mDeque[i].packet];
      }
    }

    method GetPackets(startTime: int, endTime: int) returns (r: Result<seq<CachePacket>>)
      requires Valid()
      ensures r == if endTime < startTime then Err("Start time exceeds end time")
                   else Ok(Packets(Answer(mDeque, startTime, endTime)))
    {
      if endTime < startTime {
        return Err("Start time exceeds end time");
      }
      var result, _ := Query(mDeque, startTime, endTime);
      return Ok(result);
    }
  }

  // ---------------------------------------------------------------- lemmas behind the branches

  lemma AddedMembers(q: seq<PacketTime>, x: PacketTime, capacity: nat)
    requires Sorted(q)
    ensures forall p <- Added(q, x, capacity) :: p in q || p == x
  {
  }

  /** A packet that starts after the newest packet, or at the end of a last packet, goes to the end. */
  lemma AppendIsAdded(q: seq<PacketTime>, x: PacketTime, capacity: nat)
    requires Consistent(q, capacity) && capacity >= 1
    requires q != [] ==> q[|q| - 1].startTime < x.startTime || RepeatsPoint(q, x)
    ensures Added(q, x, capacity) == (if |q| >= capacity then q[1..] else q) + [x]
  {
    assert q != [] ==> forall i :: 0 <= i < |q| ==> q[i].startTime <= q[|q| - 1].startTime;
    DequeAdd.PositionIs(q, x.startTime, |q|);
    assert InsertedAt(q, x, |q|) == q + [x];
    if |q| >= capacity {
      assert (q + [x])[1..] == q[1..] + [x];
    }
  }

  /** A packet older than a full deque is not stored. */
  lemma OlderThanFullIsDropped(q: seq<PacketTime>, x: PacketTime, capacity: nat)
    requires Consistent(q, capacity) && |q| == capacity && q != [] && x.startTime < q[0].startTime
    ensures Added(q, x, capacity) == q
  {
  }

  /** A new start time before the newest packet is inserted at its place. */
  lemma InsertionIsAdded(q: seq<PacketTime>, x: PacketTime, capacity: nat, k: nat)
    requires Consistent(q, capacity) && k < |q|
    requires k > 0 ==> q[k - 1].startTime < x.startTime
    requires x.startTime < q[k].startTime
    ensures Added(q, x, capacity)
            == if |q| >= capacity then InsertedAt(q, x, k)[1..] else InsertedAt(q, x, k)
  {
    forall i | 0 <= i < |q| ensures q[i].startTime != x.startTime {
      assert i < k ==> q[i].startTime <= q[k - 1].startTime;
      assert k <= i ==> q[k].startTime <= q[i].startTime;
    }
    DequeAdd.PositionIs(q, x.startTime, k);
  }

  lemma InstantHoldsOnePacket(q: seq<PacketTime>, s: int)
    requires Sorted(q) && WellTimed(q) && Answers(q, s)
    ensures High(q, s, s) == Low(q, s) + 1
  {
  }

  lemma PositionCloses(q: seq<PacketTime>, e: int, lo: nat, k: nat)
    requires Sorted(q) && lo < k == Position(q, e)
    ensures Closes(q, e, k)
    ensures forall j :: lo < j < k ==> q[j].startTime <= e
  {
  }
}
