/**
 What the keyed collection of deques means, and how a run of it decomposes into runs of single deques.
 */
module MapModel {
  import opened Wrappers
  import opened Messages
  import opened Deque
  import opened DequeQuery
  import opened Identifiers
  import opened KeyOrder
  import DequeAdd
  import DequeExpiry
  import PacketConversion
  import StreamDeques

  /** Every stream of the collection has the default capacity. */
  const CAPACITY: nat := StreamDeques.MAX_PACKETS

  type Streams = map<string, seq<PacketTime>>

  predicate ValidStreams(m: Streams) {
    forall k <- m :: StreamDeques.ValidContents(m[k], CAPACITY)
  }

  /** Packets the collection takes: those a deque takes whose identifier can be printed. */
  predicate Accepted(p: ImportPacket) {
    StreamDeques.Acceptable(p) && Printed(p.Identifier()).Ok?
  }

  /** What this asks of the packet, field by field. */
  lemma AcceptedIff(p: ImportPacket)
    ensures Accepted(p)
            <==> && p.streamIdentifier.Some?
                 && p.Identifier().network.GetOr("") != "" && p.Identifier().station.GetOr("") != ""
                 && p.Identifier().channel.GetOr("") != ""
                 && p.startTime.Some? && p.samplingRate.Some? && p.samplingRate.value > 0.0
                 && p.numberOfSamples.Some? && p.numberOfSamples.value > 0
                 && !p.Type().ImportText? && !p.Type().Unrecognized?
  {
    KeysAreTidy(p.Identifier());
  }

  function KeyOf(p: ImportPacket): string
    requires Accepted(p)
  {
    Printed(p.Identifier()).value
  }

  function Lookup(m: Streams, key: string): seq<PacketTime> {
    if key in m then m[key] else []
  }

  function Offered(m: Streams, p: ImportPacket): Streams
  {
    if Accepted(p) then m[KeyOf(p) := Added(Lookup(m, KeyOf(p)), StreamDeques.StoredForm(p), CAPACITY)] else m
  }

  function AllExpired(m: Streams, oldest: int): Streams {
    map k | k in m :: Expired(m[k], oldest)
  }

  // ---------------------------------------------------------------- counting

  /** The packets held under the first i of a list of keys. */
  function Held(m: Streams, keys: seq<string>, i: nat): nat
    requires i <= |keys|
  {
    if i == 0 then 0 else Held(m, keys, i - 1) + |Lookup(m, keys[i - 1])|
  }

  /** The packets an expiry removes under the first i of a list of keys. */
  function Lost(m: Streams, keys: seq<string>, i: nat, oldest: int): nat
    requires i <= |keys|
  {
    if i == 0 then 0 else Lost(m, keys, i - 1, oldest) + DequeExpiry.Removed(Lookup(m, keys[i - 1]), oldest)
  }

  function Size(m: Streams): nat {
    Held(m, InOrder(m.Keys), |m.Keys|)
  }

  function TotalRemoved(m: Streams, oldest: int): nat {
    Lost(m, InOrder(m.Keys), |m.Keys|, oldest)
  }

  /** The streams after an expiry that has visited the first i keys, one after the other. */
  function Visited(m: Streams, keys: seq<string>, i: nat, oldest: int): Streams
    requires i <= |keys|
  {
    if i == 0 then m
    else
      var before := Visited(m, keys, i - 1, oldest);
      before[keys[i - 1] := Expired(Lookup(before, keys[i - 1]), oldest)]
  }

  lemma {:induction false} VisitedKeys(m: Streams, keys: seq<string>, i: nat, oldest: int)
    requires i <= |keys| && forall a :: 0 <= a < |keys| ==> keys[a] in m
    ensures Visited(m, keys, i, oldest).Keys == m.Keys
  {
    if i > 0 {
      VisitedKeys(m, keys, i - 1, oldest);
    }
  }

  /** Visiting distinct keys expires each of them once and leaves the others alone. */
  lemma {:induction false} VisitedIs(m: Streams, keys: seq<string>, i: nat, oldest: int, k: string)
    requires i <= |keys| && Distinct(keys)
    ensures Lookup(Visited(m, keys, i, oldest), k)
            == if k in keys[..i] then Expired(Lookup(m, k), oldest) else Lookup(m, k)
  {
    if i > 0 {
      var next := keys[i - 1];
      VisitedIs(m, keys, i - 1, oldest, k);
      assert keys[..i] == keys[..i - 1] + [next];
      assert next !in keys[..i - 1];
    }
  }

  ghost predicate Covers(keys: seq<string>, m: Streams) {
    Distinct(keys) && forall k :: k in keys <==> k in m
  }

  lemma VisitedFully(m: Streams, keys: seq<string>, oldest: int, k: string)
    requires Distinct(keys) && k in keys && k in m
    ensures Lookup(Visited(m, keys, |keys|, oldest), k) == Expired(m[k], oldest)
  {
    assert keys[..|keys|] == keys;
    VisitedIs(m, keys, |keys|, oldest, k);
  }

  lemma AllExpiredIs(m: Streams, last: Streams, oldest: int)
    requires last.Keys == m.Keys
    requires forall k :: k in m ==> Lookup(last, k) == Expired(m[k], oldest)
    ensures last == AllExpired(m, oldest)
  {
    forall k | k in m ensures last[k] == AllExpired(m, oldest)[k] {
      assert Lookup(last, k) == last[k];
    }
  }

  /** Visiting every key in turn is expiring all streams. */
  lemma VisitingExpiresAll(m: Streams, keys: seq<string>, oldest: int)
    requires Covers(keys, m)
    ensures Visited(m, keys, |keys|, oldest) == AllExpired(m, oldest)
  {
    VisitedKeys(m, keys, |keys|, oldest);
    forall k | k in m ensures Lookup(Visited(m, keys, |keys|, oldest), k) == Expired(m[k], oldest) {
      VisitedFully(m, keys, oldest, k);
    }
    AllExpiredIs(m, Visited(m, keys, |keys|, oldest), oldest);
  }

  /** The next key to visit is still as it was, and visiting it accounts for its loss. */
  lemma VisitNext(m: Streams, keys: seq<string>, i: nat, oldest: int)
    requires Covers(keys, m) && i < |keys|
    ensures var before := Visited(m, keys, i, oldest);
            && keys[i] in m && keys[i] in before
            && Visited(m, keys, i + 1, oldest) == before[keys[i] := Expired(Lookup(before, keys[i]), oldest)]
            && Lost(m, keys, i + 1, oldest)
               == Lost(m, keys, i, oldest) + DequeExpiry.Removed(Lookup(before, keys[i]), oldest)
  {
    assert keys[i] in keys;
    VisitedKeys(m, keys, i, oldest);
    VisitedIs(m, keys, i, oldest, keys[i]);
    assert keys[i] !in keys[..i];
  }

  lemma {:induction false} LostIsTheLoss(m: Streams, keys: seq<string>, i: nat, oldest: int)
    requires i <= |keys|
    ensures Lost(m, keys, i, oldest) == Held(m, keys, i) - Held(AllExpired(m, oldest), keys, i)
  {
    if i > 0 {
      LostIsTheLoss(m, keys, i - 1, oldest);
    }
  }

  /** The total over the streams is what the collection loses, the keys stay, and expiring at a later
      time afterwards adds up to expiring once at the later of both times. */
  lemma ExpiryConserves(m: Streams, a: int, b: int)
    ensures Size(AllExpired(m, a)) + TotalRemoved(m, a) == Size(m)
    ensures AllExpired(m, a).Keys == m.Keys
    ensures AllExpired(AllExpired(m, a), b) == AllExpired(m, DequeExpiry.Max(a, b))
    ensures TotalRemoved(m, a) + TotalRemoved(AllExpired(m, a), b) == TotalRemoved(m, DequeExpiry.Max(a, b))
  {
    var once, twice := AllExpired(m, a), AllExpired(AllExpired(m, a), b);
    forall k | k in m ensures twice[k] == AllExpired(m, DequeExpiry.Max(a, b))[k] {
      DequeExpiry.ExpiryComposes(m[k], a, b);
    }
    assert twice == AllExpired(m, DequeExpiry.Max(a, b));
    assert once.Keys == m.Keys && twice.Keys == m.Keys;
    LostIsTheLoss(m, InOrder(m.Keys), |m.Keys|, a);
    LostIsTheLoss(once, InOrder(m.Keys), |m.Keys|, b);
    LostIsTheLoss(m, InOrder(m.Keys), |m.Keys|, DequeExpiry.Max(a, b));
  }

  // ---------------------------------------------------------------- runs

  datatype Event = Offer(p: ImportPacket) | ExpireAll(oldest: int)

  function Step(m: Streams, e: Event): (r: Streams)
    requires ValidStreams(m)
    ensures ValidStreams(r)
  {
    match e
    case Offer(p) =>
      if Accepted(p) then
        OfferedIsValid(m, p);
        Offered(m, p)
      else m
    case ExpireAll(t) =>
      AllExpiredIsValid(m, t);
      AllExpired(m, t)
  }

  lemma OfferedIsValid(m: Streams, p: ImportPacket)
    requires ValidStreams(m)
    ensures ValidStreams(Offered(m, p))
  {
    if Accepted(p) {
      StreamDeques.AddedIsValid(Lookup(m, KeyOf(p)), PacketConversion.CacheForm(p), CAPACITY);
    }
  }

  lemma AllExpiredIsValid(m: Streams, oldest: int)
    requires ValidStreams(m)
    ensures ValidStreams(AllExpired(m, oldest))
  {
    forall k | k in m ensures StreamDeques.ValidContents(Expired(m[k], oldest), CAPACITY) {
      StreamDeques.ExpiredIsValid(m[k], oldest, CAPACITY);
    }
  }

  /** The collection after a run of offered packets, rejected ones among them, and expiries. */
  function Run(events: seq<Event>): (m: Streams)
    ensures ValidStreams(m)
  {
    if events == [] then map[] else Step(Run(events[..|events| - 1]), events[|events| - 1])
  }

  /** What one event is to the stream of a key. */
  function EventFor(e: Event, key: string): seq<DequeAdd.Event> {
    match e
    case Offer(p) => if Accepted(p) && KeyOf(p) == key then [DequeAdd.Add(StreamDeques.StoredForm(p))] else []
    case ExpireAll(t) => [DequeAdd.Expire(t)]
  }

  /** The accepted packets of one key and all expiries, in order. */
  function EventsFor(events: seq<Event>, key: string): (r: seq<DequeAdd.Event>)
    ensures DequeAdd.TimedEvents(r)
  {
    if events == [] then [] else EventsFor(events[..|events| - 1], key) + EventFor(events[|events| - 1], key)
  }

  predicate Arrived(events: seq<Event>, key: string) {
    exists e <- events :: e.Offer? && Accepted(e.p) && KeyOf(e.p) == key
  }

  lemma RunOfAppended(events: seq<DequeAdd.Event>, e: DequeAdd.Event, capacity: nat)
    requires DequeAdd.TimedEvents(events + [e]) && DequeAdd.TimedEvents(events)
    ensures DequeAdd.Run(events + [e], capacity) == DequeAdd.Step(DequeAdd.Run(events, capacity), e, capacity)
  {
  }

  lemma ArrivedExtends(events: seq<Event>, e: Event, key: string)
    ensures Arrived(events + [e], key) <==>
            Arrived(events, key) || (e.Offer? && Accepted(e.p) && KeyOf(e.p) == key)
  {
  }

  /** One event, seen from one key. */
  lemma StepForKey(m: Streams, e: Event, key: string)
    requires ValidStreams(m)
    ensures Lookup(Step(m, e), key)
            == if EventFor(e, key) == [] then Lookup(m, key)
               else DequeAdd.Step(Lookup(m, key), EventFor(e, key)[0], CAPACITY)
    ensures key in Step(m, e) <==> key in m || (e.Offer? && Accepted(e.p) && KeyOf(e.p) == key)
  {
  }

  lemma EventsForExtends(before: seq<Event>, e: Event, key: string)
    ensures var all := EventsFor(before + [e], key);
            all == EventsFor(before, key) + EventFor(e, key)
    ensures |EventFor(e, key)| <= 1
    ensures DequeAdd.Run(EventsFor(before + [e], key), CAPACITY)
            == if EventFor(e, key) == [] then DequeAdd.Run(EventsFor(before, key), CAPACITY)
               else DequeAdd.Step(DequeAdd.Run(EventsFor(before, key), CAPACITY), EventFor(e, key)[0], CAPACITY)
  {
    assert (before + [e])[..|before|] == before;
    if EventFor(e, key) != [] {
      assert EventFor(e, key) == [EventFor(e, key)[0]];
      RunOfAppended(EventsFor(before, key), EventFor(e, key)[0], CAPACITY);
    } else {
      assert EventsFor(before + [e], key) == EventsFor(before, key);
    }
  }

  /** Each deque of the collection is a stand-alone deque fed the accepted packets of its key and the
      expiries, and a key is there exactly when an accepted packet had it. */
  lemma {:induction false} RunDecomposes(events: seq<Event>, key: string)
    ensures Lookup(Run(events), key) == DequeAdd.Run(EventsFor(events, key), CAPACITY)
    ensures key in Run(events) <==> Arrived(events, key)
  {
    if events != [] {
      var before, e := events[..|events| - 1], events[|events| - 1];
      assert events == before + [e];
      RunDecomposes(before, key);
      ArrivedExtends(before, e, key);
      EventsForExtends(before, e, key);
      StepForKey(Run(before), e, key);
    }
  }

  /** The accepted packets of one key as they are stored, in the order of arrival. */
  function PacketsFor(events: seq<Event>, key: string): (ps: seq<PacketTime>)
    ensures DequeAdd.TimedPackets(ps)
  {
    if events == [] then []
    else
      var e := events[|events| - 1];
      PacketsFor(events[..|events| - 1], key)
      + (if e.Offer? && Accepted(e.p) && KeyOf(e.p) == key then [StreamDeques.StoredForm(e.p)] else [])
  }

  lemma AddsExtend(ps: seq<PacketTime>, x: PacketTime)
    ensures DequeAdd.Adds(ps + [x]) == DequeAdd.Adds(ps) + [DequeAdd.Add(x)]
  {
  }

  lemma {:induction false} EventsAreAdds(events: seq<Event>, key: string)
    requires forall e <- events :: e.Offer?
    ensures EventsFor(events, key) == DequeAdd.Adds(PacketsFor(events, key))
  {
    if events != [] {
      var before, e := events[..|events| - 1], events[|events| - 1];
      EventsAreAdds(before, key);
      assert e in events;
      if Accepted(e.p) && KeyOf(e.p) == key {
        AddsExtend(PacketsFor(before, key), StreamDeques.StoredForm(e.p));
      } else {
        assert PacketsFor(before, key) + [] == PacketsFor(before, key);
        assert EventsFor(before, key) + [] == EventsFor(before, key);
      }
    }
  }

  /** As long as nothing expires, each stream holds the newest 2147483647 of what its packets would leave in
      a deque without a bound, whatever else is offered. */
  lemma StreamsHoldTheirNewest(events: seq<Event>, key: string)
    requires forall e <- events :: e.Offer?
    ensures Lookup(Run(events), key) == Newest(DequeAdd.Kept(PacketsFor(events, key)), 2147483647)
  {
    RunDecomposes(events, key);
    EventsAreAdds(events, key);
    DequeAdd.RunIsNewestOfKept(PacketsFor(events, key), CAPACITY);
  }

  /** Streams do not interfere: runs that agree on the packets of one key and on the expiries answer
      every query for that key alike, whatever else they were offered. */
  lemma StreamsDoNotInterfere(events: seq<Event>, others: seq<Event>, key: string, s: int, e: int)
    requires EventsFor(events, key) == EventsFor(others, key)
    ensures Answer(Lookup(Run(events), key), s, e) == Answer(Lookup(Run(others), key), s, e)
  {
    RunDecomposes(events, key);
    RunDecomposes(others, key);
  }

  /** Every stream whose packets come from a disjoint family answers exactly, whatever happens to the others. */
  lemma EveryStreamAnswersExactly(events: seq<Event>, key: string, family: iset<PacketTime>, s: int, e: int)
    requires DisjointFamily(family) && DrawnFrom(EventsFor(events, key), family) && s <= e
    ensures AnswersExactly(Lookup(Run(events), key), s, e)
  {
    RunDecomposes(events, key);
    EveryRunAnswersExactly(EventsFor(events, key), CAPACITY, family, s, e);
  }

  // ---------------------------------------------------------------- available streams

  /** Listing the streams succeeds exactly when no accepted packet had a dot in a field of its identifier. */
  lemma ListingSucceedsIff(events: seq<Event>)
    ensures (forall k <- Run(events).Keys :: Parsed(k).Ok?)
            <==> forall e <- events :: e.Offer? && Accepted(e.p) ==> NoDots(e.p.Identifier())
  {
    forall e | e in events && e.Offer? && Accepted(e.p)
      ensures KeyOf(e.p) in Run(events)
      ensures Parsed(KeyOf(e.p)).Ok? <==> NoDots(e.p.Identifier())
    {
      RunDecomposes(events, KeyOf(e.p));
      PrintedKeyParses(e.p.Identifier());
    }
    forall k | k in Run(events) ensures Arrived(events, k) {
      RunDecomposes(events, k);
    }
  }

  predicate CleanOffers(events: seq<Event>) {
    forall e <- events :: e.Offer? && Accepted(e.p) ==> Clean(e.p.Identifier())
  }

  /** With clean identifiers every key lists as an identifier that prints back to it and is the converted
      form of the identifier of every packet stored under it; different keys list differently. */
  lemma ListedStreamsAreTheStreams(events: seq<Event>)
    requires CleanOffers(events)
    ensures forall k <- Run(events).Keys :: Parsed(k).Ok? && Printed(Parsed(k).value) == Ok(k)
    ensures forall j, k :: j in Run(events) && k in Run(events) && Parsed(j) == Parsed(k) ==> j == k
    ensures forall e <- events :: e.Offer? && Accepted(e.p) ==>
              KeyOf(e.p) in Run(events) && Parsed(KeyOf(e.p)) == Converted(e.p.Identifier())
  {
    forall k | k in Run(events)
      ensures Parsed(k).Ok? && Printed(Parsed(k).value) == Ok(k)
    {
      RunDecomposes(events, k);
      var e :| e in events && e.Offer? && Accepted(e.p) && KeyOf(e.p) == k;
      ParsedPrintsBackIffClean(e.p.Identifier());
    }
    forall e | e in events && e.Offer? && Accepted(e.p)
      ensures KeyOf(e.p) in Run(events) && Parsed(KeyOf(e.p)) == Converted(e.p.Identifier())
    {
      RunDecomposes(events, KeyOf(e.p));
      RoundTripIffClean(e.p.Identifier());
    }
  }

  /** A packet that passes the import check is taken exactly when it has a start time and a type the
      cache can hold. */
  lemma UsablePacketsAreAccepted(p: ImportPacket)
    requires PacketConversion.Usable(p)
    ensures Accepted(p) <==> p.startTime.Some? && PacketConversion.CacheTypeOf(p.Type()).Some?
  {
  }
}
