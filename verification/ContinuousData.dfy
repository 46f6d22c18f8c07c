/**
 From sampling to exact answers: continuous data of one stream at a usual rate is a family of
 disjoint packets of positive length, which is what the exactness of queries needs.
 */
module ContinuousData {
  import opened Messages
  import opened Deque
  import opened DequeQuery
  import MapModel
  import PacketTimes
  import StreamDeques

  /** Packets of one stream without a gap: each holds two samples or more, and the next packet starts
      where the next sample is due, to the nanosecond. */
  predicate Continuous(ps: seq<CachePacket>, rate: real) {
    && 0.0 < rate <= PacketTimes.SECONDS_TO_NANOSECONDS
    && (forall p <- ps :: p.samplingRate == rate && p.numberOfSamples >= 2)
    && (forall i :: 0 <= i < |ps| - 1 ==>
          PacketTimes.StartNanoseconds(ps[i + 1].startTime)
          == PacketTimes.StartNanoseconds(ps[i].startTime)
             + PacketTimes.Round(PacketTimes.ExactSpan(ps[i].numberOfSamples + 1, rate)))
  }

  /** A stored packet on the interval of one of these packets, whatever its payload, data type or rate. */
  ghost predicate OnIntervalOf(p: PacketTime, ps: seq<CachePacket>, rate: real)
    requires Continuous(ps, rate)
  {
    exists i :: 0 <= i < |ps| && SameInterval(p, StreamDeques.Stamped(ps[i]))
  }

  /** All stored packets on these intervals. */
  ghost function Stored(ps: seq<CachePacket>, rate: real): iset<PacketTime>
    requires Continuous(ps, rate)
  {
    iset p: PacketTime | OnIntervalOf(p, ps, rate)
  }

  lemma NextStartsAfterEnd(ps: seq<CachePacket>, rate: real, i: nat)
    requires Continuous(ps, rate) && i + 1 < |ps|
    ensures StreamDeques.Stamped(ps[i]).endTime < StreamDeques.Stamped(ps[i + 1]).startTime
  {
    PacketTimes.NextPacketStartsLater(ps[i].startTime, ps[i].numberOfSamples, rate);
    assert ps[i + 1] in ps;
  }

  lemma {:induction false} LaterStartsAfterEnd(ps: seq<CachePacket>, rate: real, i: nat, j: nat)
    requires Continuous(ps, rate) && i < j < |ps|
    ensures StreamDeques.Stamped(ps[i]).endTime < StreamDeques.Stamped(ps[j]).startTime
    decreases j
  {
    NextStartsAfterEnd(ps, rate, j - 1);
    if i < j - 1 {
      LaterStartsAfterEnd(ps, rate, i, j - 1);
    }
  }

  lemma ContinuousDataIsDisjoint(ps: seq<CachePacket>, rate: real)
    requires Continuous(ps, rate)
    ensures DisjointFamily(Stored(ps, rate))
  {
    var family := Stored(ps, rate);
    forall p | p in family ensures p.startTime < p.endTime {
      var i :| 0 <= i < |ps| && SameInterval(p, StreamDeques.Stamped(ps[i]));
      PacketTimes.PositiveLength(ps[i].startTime, ps[i].numberOfSamples, rate);
    }
    forall p, r | p in family && r in family
      ensures SameInterval(p, r) || p.endTime < r.startTime || r.endTime < p.startTime
    {
      var i :| 0 <= i < |ps| && SameInterval(p, StreamDeques.Stamped(ps[i]));
      var j :| 0 <= j < |ps| && SameInterval(r, StreamDeques.Stamped(ps[j]));
      if i < j {
        LaterStartsAfterEnd(ps, rate, i, j);
      } else if j < i {
        LaterStartsAfterEnd(ps, rate, j, i);
      }
    }
  }

  /** A stream of continuous data, arriving in any order and with intervals sent again under the same or
      another payload, among any other traffic and any expiries, answers every query that starts no later
      than its newest retained packet with exactly the retained packets that overlap it, or with the
      single next packet when none does. */
  lemma ContinuousStreamAnswersExactly(ps: seq<CachePacket>, rate: real,
                                       events: seq<MapModel.Event>, key: string, s: int, e: int)
    requires Continuous(ps, rate) && s <= e
    requires DrawnFrom(MapModel.EventsFor(events, key), Stored(ps, rate))
    ensures AnswersExactly(MapModel.Lookup(MapModel.Run(events), key), s, e)
  {
    ContinuousDataIsDisjoint(ps, rate);
    MapModel.EveryStreamAnswersExactly(events, key, Stored(ps, rate), s, e);
  }
}
