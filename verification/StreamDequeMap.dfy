/**
 The keyed collection of packet deques.  Its mutex makes every operation one step, so each is a
 method on its own.
 */
module StreamDequeMaps {
  import opened Wrappers
  import opened Messages
  import opened Deque
  import opened KeyOrder
  import opened MapModel
  import opened StreamDeques
  import DequeExpiry
  import Identifiers

  class StreamDequeMap {
    var mStreamDequeMap: map<string, StreamDeque>
    const debug: bool

    /** The deque of a key is valid and identifies itself with that key. */
    ghost predicate Holds(key: string)
      reads this, mStreamDequeMap.Values
    {
      key in mStreamDequeMap ==>
        && mStreamDequeMap[key].Valid()
        && mStreamDequeMap[key].mStreamIdentifier == key
        && mStreamDequeMap[key].mMaximumNumberOfPackets == CAPACITY
        && mStreamDequeMap[key].debug == debug
    }

    /** This holds of every key, and no two keys share a deque. */
    ghost predicate Valid()
      reads this, mStreamDequeMap.Values
    {
      && (forall k :: Holds(k))
      && (forall j, k :: j in mStreamDequeMap && k in mStreamDequeMap && j != k ==>
            mStreamDequeMap[j] != mStreamDequeMap[k])
    }

    /** The contents of every stream. */
    ghost function State(): (m: Streams)
      reads this, mStreamDequeMap.Values
      ensures m.Keys == mStreamDequeMap.Keys
    {
      map k | k in mStreamDequeMap :: mStreamDequeMap[k].mDeque
    }

    constructor (debug: bool)
      ensures Valid() && State() == map[]
    {
      mStreamDequeMap := map[];
      this.debug := debug;
    }

    lemma StateIsValid()
      requires Valid()
      ensures ValidStreams(State())
    {
      forall k | k in State() ensures ValidContents(State()[k], CAPACITY) {
        assert Holds(k);
      }
    }

    /** Changing one deque changes that stream only. */
    twostate lemma OneStreamChanged(key: string)
      requires mStreamDequeMap == old(mStreamDequeMap) && key in mStreamDequeMap
      requires forall k :: k in mStreamDequeMap && k != key ==> unchanged(mStreamDequeMap[k])
      ensures State() == old(State())[key := mStreamDequeMap[key].mDeque]
    {
    }

    /** And it leaves the collection valid when that deque is left valid. */
    twostate lemma StaysValid(key: string)
      requires old(Valid()) && mStreamDequeMap == old(mStreamDequeMap) && key in mStreamDequeMap
      requires forall k :: k in mStreamDequeMap && k != key ==> unchanged(mStreamDequeMap[k])
      requires Holds(key)
      ensures Valid()
    {
      forall k ensures Holds(k) {
        assert old(Holds(k));
      }
    }

    /** Adding a deque under a new key adds that stream. */
    twostate lemma StreamAdded(key: string, new deque: StreamDeque)
      requires old(Valid()) && key !in old(mStreamDequeMap) && fresh(deque)
      requires mStreamDequeMap == old(mStreamDequeMap)[key := deque]
      requires forall k :: k in old(mStreamDequeMap) ==> unchanged(old(mStreamDequeMap)[k])
      requires Holds(key)
      ensures Valid()
      ensures State() == old(State())[key := deque.mDeque]
    {
      forall k ensures Holds(k) {
        assert old(Holds(k));
      }
      forall k | k in old(mStreamDequeMap) ensures mStreamDequeMap[k] != deque {
        assert old(mStreamDequeMap)[k] == mStreamDequeMap[k];
      }
    }

    /** Adds a packet to the deque of its key, which is created with the first packet.  The identifier
        check of the debug build never rejects anything: the outcome does not depend on the build. */
    method AddPacket(packet: ImportPacket, now: int) returns (outcome: Outcome)
      requires Valid()
      modifies this`mStreamDequeMap, mStreamDequeMap.Values
      ensures Valid()
      ensures fresh(mStreamDequeMap.Values - old(mStreamDequeMap.Values))
      ensures outcome.Pass? <==> Accepted(packet)
      ensures State() == Offered(old(State()), packet)
      ensures outcome.Pass? ==> mStreamDequeMap[KeyOf(packet)].mLastUpdate == now
    {
      var streamIdentifier := Identifiers.ToString(packet.Identifier());
      if streamIdentifier.Err? {
        return Fail(streamIdentifier.message);
      }
      var key := streamIdentifier.value;
      if key in mStreamDequeMap {
        outcome := AddToStream(key, packet, now);
      } else {
        outcome := AddStream(key, packet, now);
      }
    }

    /** The key is known: its deque takes or rejects the packet. */
    method AddToStream(key: string, packet: ImportPacket, now: int) returns (outcome: Outcome)
      requires Valid() && key in mStreamDequeMap && Identifiers.Printed(packet.Identifier()) == Ok(key)
      modifies mStreamDequeMap[key]
      ensures Valid()
      ensures outcome.Pass? <==> Acceptable(packet)
      ensures State() == Offered(old(State()), packet)
      ensures outcome.Pass? ==> mStreamDequeMap[key].mLastUpdate == now
    {
      assert Holds(key);
      outcome := mStreamDequeMap[key].AddPacket(packet, now);
      StaysValid(key);
      OneStreamChanged(key);
    }

    /** The key is new: its deque is created with the packet, or nothing is. */
    method AddStream(key: string, packet: ImportPacket, now: int) returns (outcome: Outcome)
      requires Valid() && key !in mStreamDequeMap && Identifiers.Printed(packet.Identifier()) == Ok(key)
      modifies this`mStreamDequeMap
      ensures Valid()
      ensures fresh(mStreamDequeMap.Values - old(mStreamDequeMap.Values))
      ensures outcome.Pass? <==> Acceptable(packet)
      ensures State() == Offered(old(State()), packet)
      ensures outcome.Pass? ==> mStreamDequeMap[key].mLastUpdate == now
    {
      var streamDeque := StreamDeque.Create(CAPACITY, packet, debug, now);
      if streamDeque.Err? {
        return Fail(streamDeque.message);
      }
      OfferedFirst(State(), packet);
      mStreamDequeMap := mStreamDequeMap[key := streamDeque.value];
      StreamAdded(key, streamDeque.value);
      return Pass;
    }

    /** Expires every stream.  The counts are added in 32 bits, so the result is the number of packets
        lost as long as that fits. */
    method RemoveExpiredPackets(oldestTime: int) returns (nRemoved: uint32)
      requires Valid()
      modifies mStreamDequeMap.Values
      ensures Valid()
      ensures State() == AllExpired(old(State()), oldestTime)
      ensures nRemoved == Truncated(TotalRemoved(old(State()), oldestTime))
    {
      ghost var before := State();
      var keys := InOrder(mStreamDequeMap.Keys);
      nRemoved := VisitAll(keys, oldestTime);
      VisitingExpiresAll(before, keys, oldestTime);
    }

    /** The loop over the streams. */
    method VisitAll(keys: seq<string>, oldestTime: int) returns (nRemoved: uint32)
      requires Valid() && Covers(keys, State())
      modifies mStreamDequeMap.Values
      ensures Valid() && mStreamDequeMap == old(mStreamDequeMap)
      ensures State() == Visited(old(State()), keys, |keys|, oldestTime)
      ensures nRemoved == Truncated(Lost(old(State()), keys, |keys|, oldestTime))
    {
      ghost var before := State();
      nRemoved := 0;
      for i := 0 to |keys|
        invariant Valid() && mStreamDequeMap == old(mStreamDequeMap)
        invariant State() == Visited(before, keys, i, oldestTime)
        invariant nRemoved == Truncated(Lost(before, keys, i, oldestTime))
      {
        var n := ExpireNext(keys, i, oldestTime, before);
        nRemoved := SumOfCounts(nRemoved, n, Lost(before, keys, i, oldestTime), Lost(before, keys, i + 1, oldestTime));
      }
    }

    /** One round of the loop. */
    method ExpireNext(keys: seq<string>, i: nat, oldestTime: int, ghost before: Streams) returns (n: uint32)
      requires Valid() && Covers(keys, before) && i < |keys|
      requires State() == Visited(before, keys, i, oldestTime)
      modifies mStreamDequeMap.Values
      ensures Valid() && mStreamDequeMap == old(mStreamDequeMap)
      ensures State() == Visited(before, keys, i + 1, oldestTime)
      ensures Lost(before, keys, i + 1, oldestTime) == Lost(before, keys, i, oldestTime) + n
    {
      VisitNext(before, keys, i, oldestTime);
      n := ExpireOne(keys[i], oldestTime);
    }

    method ExpireOne(key: string, oldestTime: int) returns (n: uint32)
      requires Valid() && key in mStreamDequeMap
      modifies mStreamDequeMap[key]
      ensures Valid()
      ensures State() == old(State())[key := Expired(Lookup(old(State()), key), oldestTime)]
      ensures n == DequeExpiry.Removed(Lookup(old(State()), key), oldestTime)
    {
      assert Holds(key);
      n := mStreamDequeMap[key].RemoveExpiredPackets(oldestTime);
      StaysValid(key);
      OneStreamChanged(key);
    }

    /** The checks of the request, then the query of the deque; an unknown stream has no packets. */
    method GetPackets(identifier: StreamIdentifier, startTime: int, endTime: int)
      returns (r: Result<seq<CachePacket>>)
      requires Valid()
      ensures r.Ok? <==>
              && identifier.network.Some? && identifier.station.Some?
              && identifier.channel.Some? && identifier.locationCode.Some?
              && startTime <= endTime && Identifiers.Printed(identifier).Ok?
      ensures r.Ok? ==>
                r.value == Packets(Answer(Lookup(State(), Identifiers.Printed(identifier).value), startTime, endTime))
    {
      if identifier.network.None? { return Err("Network not set"); }
      if identifier.station.None? { return Err("Station not set"); }
      if identifier.channel.None? { return Err("Channel not set"); }
      if identifier.locationCode.None? { return Err("Location code not set"); }
      if startTime > endTime { return Err("Start time is greater than end time"); }
      var streamIdentifier := Identifiers.ToString(identifier);
      if streamIdentifier.Err? {
        return Err(streamIdentifier.message);
      }
      var result: seq<CachePacket> := [];
      if streamIdentifier.value in mStreamDequeMap {
        assert Holds(streamIdentifier.value);
        r := mStreamDequeMap[streamIdentifier.value].GetPackets(startTime, endTime);
        return;
      }
      return Ok(result);
    }

    /** Lists the streams in key order.  The assertion is the duplicate check of the debug build. */
    method GetAvailableStreams() returns (r: Result<seq<StreamIdentifier>>)
      requires Valid()
      ensures r.Ok? <==> forall k <- State().Keys :: Identifiers.Parsed(k).Ok?
      ensures r.Ok? ==>
                && |r.value| == |State().Keys|
                && forall i :: 0 <= i < |r.value| ==> Identifiers.Parsed(InOrder(State().Keys)[i]) == Ok(r.value[i])
    {
      var keys := InOrder(mStreamDequeMap.Keys);
      var streamNames: seq<string> := [];
      for i := 0 to |keys|
        invariant streamNames == keys[..i]
      {
        assert keys[i] !in streamNames;
        streamNames := streamNames + [keys[i]];
      }
      assert streamNames == keys;
      r := ParseAll(streamNames);
    }
  }

  /** The 32-bit sum of two counts, the first of which may have been truncated. */
  method SumOfCounts(a: uint32, n: uint32, ghost whole: nat, ghost sum: nat) returns (r: uint32)
    requires a == Truncated(whole) && sum == whole + n
    ensures r == Truncated(sum)
  {
    TruncatedSum(whole, n);
    r := Truncated(a + n);
  }

  method ParseAll(streamNames: seq<string>) returns (r: Result<seq<StreamIdentifier>>)
    ensures r.Ok? <==> forall k <- streamNames :: Identifiers.Parsed(k).Ok?
    ensures r.Ok? ==>
              && |r.value| == |streamNames|
              && forall i :: 0 <= i < |r.value| ==> Identifiers.Parsed(streamNames[i]) == Ok(r.value[i])
  {
    var result := [];
    for i := 0 to |streamNames|
      invariant |result| == i
      invariant forall j :: 0 <= j < i ==> Identifiers.Parsed(streamNames[j]) == Ok(result[j])
    {
      var identifier := Identifiers.FromString(streamNames[i]);
      if identifier.Err? {
        assert streamNames[i] in streamNames;
        return Err(identifier.message);
      }
      result := result + [identifier.value];
    }
    return Ok(result);
  }

  /** The first packet of a stream is all it holds. */
  lemma OfferedFirst(m: Streams, p: ImportPacket)
    requires Accepted(p) && KeyOf(p) !in m
    ensures Offered(m, p) == m[KeyOf(p) := [StoredForm(p)]]
  {
    assert InsertedAt([], StoredForm(p), 0) == [StoredForm(p)];
  }
}
