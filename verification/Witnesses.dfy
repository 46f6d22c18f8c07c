/**
 Concrete packets for what the conditions of the other modules leave open: deques that additions reach
 and on which a promise or an exact answer fails.
 */
module Witnesses {
  import opened Messages
  import opened Deque
  import opened DequeAdd
  import opened DequeQuery
  import opened StreamDeques
  import opened Wrappers
  import DequeExpiry
  import Identifiers
  import Text
  import PacketTimes

  /** n samples from a time on, one a nanosecond. */
  function Sampled(start: Nanos, n: uint32, data: Bytes): CachePacket {
    CachePacket(Timestamp(0, start), 1_000_000_000.0, Integer32, n, data)
  }

  /** The packet with its times. */
  function At(start: Nanos, n: uint32, data: Bytes): PacketTime {
    PacketTime(Sampled(start, n, data), start, start + n - 1)
  }

  /** It is what the deque stores of the packet. */
  lemma AtIsStamped(start: Nanos, n: uint32, data: Bytes)
    requires n >= 1
    ensures Timable(Sampled(start, n, data)) && Stamped(Sampled(start, n, data)) == At(start, n, data)
  {
    assert PacketTimes.ExactSpan(n, 1_000_000_000.0) == (n - 1) as real;
  }

  predicate Storable(p: PacketTime) {
    Timable(p.packet) && p == Stamped(p.packet)
  }

  /** The additions of these packets, from an empty deque, leave a valid deque with these contents. */
  predicate Leaves(ps: seq<PacketTime>, capacity: nat, q: seq<PacketTime>) {
    && TimedEvents(Adds(ps))
    && Run(Adds(ps), capacity) == q
    && ValidContents(q, capacity)
  }

  lemma NoPackets(capacity: nat)
    ensures Leaves([], capacity, [])
  {
  }

  lemma OneMore(ps: seq<PacketTime>, capacity: nat, q: seq<PacketTime>, x: PacketTime)
    requires Leaves(ps, capacity, q) && Storable(x)
    ensures Leaves(ps + [x], capacity, Added(q, x, capacity))
  {
    RunOfOneMore(ps, x, capacity);
    AddedIsValid(q, x.packet, capacity);
  }

  /** A packet newer than all is appended. */
  lemma OneNewer(ps: seq<PacketTime>, capacity: nat, q: seq<PacketTime>, x: PacketTime)
    requires Leaves(ps, capacity, q) && Storable(x) && |q| < capacity
    requires forall i :: 0 <= i < |q| ==> q[i].startTime < x.startTime
    ensures Leaves(ps + [x], capacity, q + [x])
  {
    OneMore(ps, capacity, q, x);
    assert InsertedAt(q, x, |q|) == q + [x];
  }

  lemma OneAlone(x: PacketTime, capacity: nat)
    requires Storable(x) && capacity >= 1
    ensures Leaves([x], capacity, [x])
  {
    NoPackets(capacity);
    OneNewer([], capacity, [], x);
    assert [] + [x] == [x];
  }

  lemma TwoInOrder(x: PacketTime, y: PacketTime, capacity: nat)
    requires Storable(x) && Storable(y) && x.startTime < y.startTime && capacity >= 2
    ensures Leaves([x, y], capacity, [x, y])
  {
    OneAlone(x, capacity);
    OneNewer([x], capacity, [x], y);
    assert [x] + [y] == [x, y];
  }

  // ---------------------------------------------------------------- queries

  /** An answer of one packet. */
  lemma AnswerIsOne(q: seq<PacketTime>, s: int, e: int, first: nat, lo: nat)
    requires Sorted(q) && Answers(q, s) && first < |q|
    requires forall i :: 0 <= i < first ==> q[i].startTime < s
    requires forall i :: first <= i < |q| ==> s <= q[i].startTime
    requires lo == if first > 0 && s < q[first].startTime && s <= q[first - 1].endTime then first - 1 else first
    requires Closes(q, e, lo + 1)
    ensures Answer(q, s, e) == [q[lo]]
  {
    LowIs(q, s, first, lo);
  }

  lemma OverlappingOfOne(p: PacketTime, s: int, e: int)
    ensures Overlapping([p], s, e) == if Overlaps(p, s, e) then [p] else []
  {
    assert [p][..0] == [];
  }

  lemma OverlappingOfTwo(p: PacketTime, r: PacketTime, s: int, e: int)
    ensures Overlapping([p, r], s, e) == Overlapping([p], s, e) + Overlapping([r], s, e)
  {
    assert [p, r] == [p] + [r];
    OverlappingAppends([p], [r], s, e);
  }

  lemma SecondIsLost(a: PacketTime, b: PacketTime, s: int, e: int)
    requires s <= a.startTime < b.startTime <= b.endTime <= e <= a.endTime
    ensures Answer([a, b], s, e) == [a] && Overlapping([a, b], s, e) == [a, b]
  {
    AnswerIsOne([a, b], s, e, 0, 0);
    OverlappingOfOne(a, s, e);
    OverlappingOfOne(b, s, e);
    OverlappingOfTwo(a, b, s, e);
    assert [a] + [b] == [a, b];
  }

  /** The first packet reaches the end of the range, so the second one, which lies inside it, is lost. */
  lemma EarlyExitLosesAPacket()
    ensures var a, b := At(0, 11, []), At(5, 2, []);
            && Leaves([a, b], 2, [a, b])
            && Answer([a, b], 0, 7) == [a] && Overlapping([a, b], 0, 7) == [a, b]
  {
    var a, b := At(0, 11, []), At(5, 2, []);
    AtIsStamped(0, 11, []);
    AtIsStamped(5, 2, []);
    TwoInOrder(a, b, 2);
    SecondIsLost(a, b, 0, 7);
  }

  lemma FirstTwoAnswer(a: PacketTime, b: PacketTime, c: PacketTime, s: int, e: int)
    requires s <= a.startTime <= a.endTime < e && a.startTime <= b.startTime <= e <= b.endTime
    requires b.startTime <= c.startTime <= c.endTime
    ensures Answer([a, b, c], s, e) == [a, b]
  {
    var q := [a, b, c];
    assert q[0] == a && q[1] == b && q[2] == c;
    assert AnswersFromTo(q, s, e, 0, 2);
    AnswerIsFromTo(q, s, e);
    assert q[0..2] == [a, b];
  }

  /** The copy ends with the first packet that reaches the end of the range, here the second; the one before
      it is returned too. */
  lemma BailsAtTheSecond()
    ensures var a, b, c := At(0, 4, []), At(2, 99, []), At(10, 11, []);
            && Leaves([a, b, c], 3, [a, b, c])
            && Answer([a, b, c], 0, 50) == [a, b]
  {
    var a, b, c := At(0, 4, []), At(2, 99, []), At(10, 11, []);
    AtIsStamped(0, 4, []);
    AtIsStamped(2, 99, []);
    AtIsStamped(10, 11, []);
    TwoInOrder(a, b, 3);
    OneNewer([a, b], 3, [a, b], c);
    assert [a, b] + [c] == [a, b, c];
    FirstTwoAnswer(a, b, c, 0, 50);
  }

  /** Ten samples a hundredth of a second apart, as they are stored: they last 90 milliseconds. */
  lemma AtHundredHertz(start: Nanos)
    ensures var c := CachePacket(Timestamp(0, start), 100.0, Integer32, 10, []);
            Timable(c) && Stamped(c) == PacketTime(c, start, start + 90_000_000)
  {
    StampedTimes(CachePacket(Timestamp(0, start), 100.0, Integer32, 10, []));
  }

  /** Two such packets, the second due when the first is over: a query from the middle of the first into the
      second finds both. */
  lemma BothAtHundredHertz()
    ensures var c := CachePacket(Timestamp(0, 0), 100.0, Integer32, 10, []);
            var d := CachePacket(Timestamp(0, 100_000_000), 100.0, Integer32, 10, []);
            && Timable(c) && Timable(d)
            && Leaves([Stamped(c), Stamped(d)], 2, [Stamped(c), Stamped(d)])
            && Answer([Stamped(c), Stamped(d)], 50_000_000, 120_000_000) == [Stamped(c), Stamped(d)]
  {
    AtHundredHertz(0);
    AtHundredHertz(100_000_000);
    var a := Stamped(CachePacket(Timestamp(0, 0), 100.0, Integer32, 10, []));
    var b := Stamped(CachePacket(Timestamp(0, 100_000_000), 100.0, Integer32, 10, []));
    TwoInOrder(a, b, 2);
    BothAnswer(a, b, 50_000_000, 120_000_000);
  }

  lemma BothAnswer(a: PacketTime, b: PacketTime, s: int, e: int)
    requires a.startTime < s <= a.endTime < b.startTime <= e < b.endTime
    ensures Answer([a, b], s, e) == [a, b]
  {
    var q := [a, b];
    assert q[0] == a && q[1] == b;
    assert AnswersFromTo(q, s, e, 0, 2);
    AnswerIsFromTo(q, s, e);
    assert q[0..2] == q;
  }

  /** A query inside the newest packet finds nothing. */
  lemma InsideTheNewestPacket()
    ensures var a := At(0, 11, []);
            Leaves([a], 1, [a]) && Answer([a], 5, 7) == [] && Overlapping([a], 5, 7) == [a]
  {
    var a := At(0, 11, []);
    AtIsStamped(0, 11, []);
    OneAlone(a, 1);
    OverlappingOfOne(a, 5, 7);
  }

  lemma SecondIsNext(a: PacketTime, b: PacketTime, s: int, e: int)
    requires a.startTime <= a.endTime < s <= e < b.startTime
    ensures Answer([a, b], s, e) == [b] && Overlapping([a, b], s, e) == []
  {
    AnswerIsOne([a, b], s, e, 1, 1);
    OverlappingOfOne(a, s, e);
    OverlappingOfOne(b, s, e);
    OverlappingOfTwo(a, b, s, e);
  }

  /** A query inside a gap finds the packet after it. */
  lemma InsideAGap()
    ensures var a, b := At(0, 11, []), At(20, 11, []);
            && Leaves([a, b], 2, [a, b])
            && Answer([a, b], 13, 15) == [b] && Overlapping([a, b], 13, 15) == []
  {
    var a, b := At(0, 11, []), At(20, 11, []);
    AtIsStamped(0, 11, []);
    AtIsStamped(20, 11, []);
    TwoInOrder(a, b, 2);
    SecondIsNext(a, b, 13, 15);
  }

  // ---------------------------------------------------------------- expiry

  lemma SecondExpires(a: PacketTime, b: PacketTime, c: PacketTime, oldest: int)
    requires oldest <= a.endTime && b.endTime < oldest <= c.endTime
    ensures Expired([a, b, c], oldest) == [a, c]
  {
    assert [a, b] == [a] + [b] && [a, b, c] == [a, b] + [c];
    DequeExpiry.ExpiredAppends([a], [b], oldest);
    DequeExpiry.ExpiredAppends([a, b], [c], oldest);
    DequeExpiry.NothingExpires([a], oldest);
    DequeExpiry.EverythingExpires([b], oldest);
    DequeExpiry.NothingExpires([c], oldest);
  }

  lemma FirstIsHidden(a: PacketTime, b: PacketTime, c: PacketTime, s: int, e: int)
    requires a.startTime < b.startTime < s < c.startTime <= e <= a.endTime
    requires b.endTime < s && e <= c.endTime
    ensures Answer([a, b, c], s, e) == [c]
    ensures Answer([a, c], s, e) == [a]
  {
    AnswerIsOne([a, b, c], s, e, 2, 2);
    AnswerIsOne([a, c], s, e, 1, 0);
  }

  lemma HidesAsDefined(a: PacketTime, b: PacketTime, c: PacketTime, oldest: int)
    requires b.endTime < oldest < c.startTime && oldest <= a.endTime
    ensures DequeExpiry.Hides([a, b, c], oldest, 2)
  {
    assert [a, b, c][0] == a;
  }

  /** A packet that still runs is hidden behind a later one that is over: the query misses it.  Once the
      later one has expired the same query finds it. */
  lemma ExpiryShowsAHiddenPacket()
    ensures var a, b, c := At(0, 101, []), At(5, 2, []), At(30, 11, []);
            && Leaves([a, b, c], 3, [a, b, c])
            && DequeExpiry.Hides([a, b, c], 8, 2)
            && Answer([a, b, c], 9, 35) == [c]
            && Answer(Expired([a, b, c], 8), 9, 35) == [a]
  {
    var a, b, c := At(0, 101, []), At(5, 2, []), At(30, 11, []);
    AtIsStamped(0, 101, []);
    AtIsStamped(5, 2, []);
    AtIsStamped(30, 11, []);
    TwoInOrder(a, b, 3);
    OneNewer([a, b], 3, [a, b], c);
    assert [a, b] + [c] == [a, b, c];
    SecondExpires(a, b, c, 8);
    FirstIsHidden(a, b, c, 9, 35);
    HidesAsDefined(a, b, c, 8);
  }

  // ---------------------------------------------------------------- additions

  lemma PointAgain(x: PacketTime, y: PacketTime)
    requires x.startTime == x.endTime == y.startTime
    ensures Added([x], y, 2) == [x, y] && Added([x], y, 1) == [y]
    ensures KeepNewest([x], y, 2) == KeepNewest([x], y, 1) == [x]
  {
    PositionIs([x], y.startTime, 1);
    assert InsertedAt([x], y, 1) == [x, y];
    assert [x][0] == x;
  }

  lemma PointTwice(x: PacketTime, y: PacketTime)
    requires Storable(x) && Storable(y) && x.startTime == x.endTime == y.startTime
    ensures Leaves([x, y], 2, [x, y]) && Leaves([x, y], 1, [y])
  {
    PointAgain(x, y);
    OneAlone(x, 1);
    OneAlone(x, 2);
    OneMore([x], 1, [x], y);
    OneMore([x], 2, [x], y);
    assert [x] + [y] == [x, y];
  }

  /** A packet of one sample is sent again with another payload: both are stored, and a deque with room
      for one packet loses the first payload.  The promise is to keep the first one alone. */
  lemma APointIsStoredTwice()
    ensures var x, y := At(0, 1, []), At(0, 1, [1]);
            && Leaves([x, y], 2, [x, y]) && KeepNewest([x], y, 2) == [x]
            && Leaves([x, y], 1, [y]) && KeepNewest([x], y, 1) == [x]
  {
    var x, y := At(0, 1, []), At(0, 1, [1]);
    AtIsStamped(0, 1, []);
    AtIsStamped(0, 1, [1]);
    PointAgain(x, y);
    PointTwice(x, y);
  }
  // ---------------------------------------------------------------- keys

  lemma EditedTo(field: string, tidy: string)
    requires Text.Alike(field, tidy) && Text.Tidy(tidy) && tidy != ""
    ensures Text.Canon(field) == tidy && !Text.Blank(field) && field != ""
  {
    Text.CanonIsTheTidyForm(field, tidy);
    Text.CanonFacts(field);
  }

  lemma KeyOfEdited(network: string, station: string, channel: string, n: string, s: string, c: string)
    requires Text.Alike(network, n) && Text.Tidy(n) && n != ""
    requires Text.Alike(station, s) && Text.Tidy(s) && s != ""
    requires Text.Alike(channel, c) && Text.Tidy(c) && c != ""
    ensures Identifiers.Printed(Identifiers.Filled(network, station, channel, ""))
            == Ok(n + "." + s + "." + c + ".--")
    ensures Identifiers.Converted(Identifiers.Filled(network, station, channel, ""))
            == Ok(Identifiers.Filled(n, s, c, "--"))
  {
    EditedTo(network, n);
    EditedTo(station, s);
    EditedTo(channel, c);
    assert n + "." + s + "." + c + "." + "--" == n + "." + s + "." + c + ".--";
  }

  lemma FieldsAreAlike()
    ensures Text.Alike("Uu", "UU") && Text.Alike("hVU", "HVU") && Text.Alike("H hZ", "HHZ")
  {
  }

  /** Mixed case, a blank inside a field and an empty location. */
  lemma KeyOfMixedCase(network: string, station: string, channel: string)
    requires network == "Uu" && station == "hVU" && channel == "H hZ"
    ensures Identifiers.Printed(Identifiers.Filled(network, station, channel, ""))
            == Ok("UU" + "." + "HVU" + "." + "HHZ" + ".--")
    ensures Identifiers.Converted(Identifiers.Filled(network, station, channel, ""))
            == Ok(Identifiers.Filled("UU", "HVU", "HHZ", "--"))
  {
    FieldsAreAlike();
    KeyOfEdited(network, station, channel, "UU", "HVU", "HHZ");
  }
}
