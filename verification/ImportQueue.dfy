/**
 The bounded import queue between the subscriber's thread, which adds packets and drops the oldest
 when the queue is full, and the thread that processes them.  Every access to the queue is atomic, and
 the other thread may act between any two of them.
 */
module ImportQueue {

  datatype Taker = Producer | Consumer

  /** The packets taken out so far, one after the other. */
  datatype History<T> = Nothing | Took(before: History<T>, packet: T, taker: Taker)

  /** Where the producer stands in its call: before the first size check, before a size check of the
      loop, before taking a packet out, before putting its own in. */
  datatype Place<T> = Idle | FirstCheck(packet: T) | LoopCheck(packet: T) | Take(packet: T) | Put(packet: T)

  /** The queue, oldest first, with the history: packets of all calls so far, packets put in, packets
      taken out, the packets taken out and the count reported by the running call. */
  datatype State<T> = State(
    queue: seq<T>,
    place: Place<T>,
    offered: seq<T>,
    put: seq<T>,
    removed: History<T>,
    takenInCall: nat,
    nPopped: nat)

  datatype Action<T> = Call(packet: T) | ProducerStep | ConsumerStep

  function Initial<T>(): State<T> {
    State([], Idle, [], [], Nothing, 0, 0)
  }

  function Pop<T>(s: State<T>, taker: Taker): State<T>
    requires s.queue != []
  {
    s.(queue := s.queue[1..], removed := Took(s.removed, s.queue[0], taker))
  }

  /** One atomic access of the producer.  A put that finds the queue full is lost. */
  function Produce<T>(s: State<T>, capacity: nat): State<T> {
    match s.place
    case Idle => s
    case FirstCheck(p) =>
      if |s.queue| >= capacity then s.(place := LoopCheck(p), nPopped := s.nPopped + 1) else s.(place := Put(p))
    case LoopCheck(p) =>
      if |s.queue| >= capacity then s.(place := Take(p)) else s.(place := Put(p))
    case Take(p) =>
      if s.queue == [] then s.(place := Put(p))
      else Pop(s, Producer).(place := LoopCheck(p), takenInCall := s.takenInCall + 1)
    case Put(p) =>
      if |s.queue| < capacity then s.(place := Idle, queue := s.queue + [p], put := s.put + [p])
      else s.(place := Idle)
  }

  /** A call begins only when the one producer is idle. */
  function Next<T>(s: State<T>, a: Action<T>, capacity: nat): State<T> {
    match a
    case Call(p) =>
      if s.place.Idle? then s.(place := FirstCheck(p), offered := s.offered + [p], takenInCall := 0, nPopped := 0)
      else s
    case ProducerStep => Produce(s, capacity)
    case ConsumerStep => if s.queue == [] then s else Pop(s, Consumer)
  }

  /** One interleaving of the two threads. */
  datatype Schedule<T> = Start | Then(before: Schedule<T>, action: Action<T>)

  function RunFrom<T>(s: State<T>, schedule: Schedule<T>, capacity: nat): State<T> {
    match schedule
    case Start => s
    case Then(before, action) => Next(RunFrom(s, before, capacity), action, capacity)
  }

  // ---------------------------------------------------------------- what every interleaving keeps

  function Removals<T>(removed: History<T>): seq<T> {
    match removed
    case Nothing => []
    case Took(before, packet, _) => Removals(before) + [packet]
  }

  function Pending<T>(place: Place<T>): seq<T> {
    if place.Idle? then [] else [place.packet]
  }

  predicate Invariant<T(==)>(s: State<T>, capacity: nat) {
    && |s.queue| <= capacity
    && s.put == Removals(s.removed) + s.queue
    && s.offered == s.put + Pending(s.place)
    && s.takenInCall <= s.nPopped <= 1
    && (s.place.FirstCheck? ==> s.nPopped == 0)
    && (s.place.Take? ==> s.takenInCall == 0)
    && (s.place.LoopCheck? && s.takenInCall == 1 ==> |s.queue| < capacity)
    && ((s.place.LoopCheck? || s.place.Take?) ==> s.nPopped == 1)
    && (s.place.Put? ==> |s.queue| < capacity)
  }

  lemma PopKeepsOrder<T>(s: State<T>, taker: Taker)
    requires s.queue != [] && s.put == Removals(s.removed) + s.queue
    ensures s.put == Removals(Pop(s, taker).removed) + Pop(s, taker).queue
  {
  }

  lemma NextKeepsInvariant<T>(s: State<T>, a: Action<T>, capacity: nat)
    requires Invariant(s, capacity) && capacity >= 1
    ensures Invariant(Next(s, a, capacity), capacity)
  {
    if s.queue != [] {
      PopKeepsOrder(s, Producer);
      PopKeepsOrder(s, Consumer);
    }
  }

  lemma {:induction false} RunKeepsInvariant<T>(s: State<T>, schedule: Schedule<T>, capacity: nat)
    requires Invariant(s, capacity) && capacity >= 1
    ensures Invariant(RunFrom(s, schedule, capacity), capacity)
  {
    if schedule.Then? {
      RunKeepsInvariant(s, schedule.before, capacity);
      NextKeepsInvariant(RunFrom(s, schedule.before, capacity), schedule.action, capacity);
    }
  }

  /** What one side took out, in the order it did. */
  function TakenBy<T>(removed: History<T>, taker: Taker): seq<T> {
    match removed
    case Nothing => []
    case Took(before, packet, t) => TakenBy(before, taker) + (if t == taker then [packet] else [])
  }

  lemma {:induction false} TakenAddsUp<T>(removed: History<T>)
    ensures multiset(TakenBy(removed, Consumer)) + multiset(TakenBy(removed, Producer))
            == multiset(Removals(removed))
    ensures |TakenBy(removed, Consumer)| + |TakenBy(removed, Producer)| == |Removals(removed)|
  {
    if removed.Took? {
      TakenAddsUp(removed.before);
    }
  }

  /** Places in b of the members of a, in order. */
  ghost predicate EmbedsAt<T(!new)>(a: seq<T>, b: seq<T>, at: seq<nat>) {
    && |at| == |a|
    && (forall i :: 0 <= i < |at| ==> at[i] < |b| && b[at[i]] == a[i])
    && (forall i, j :: 0 <= i < j < |at| ==> at[i] < at[j])
  }

  ghost predicate Subsequence<T(!new)>(a: seq<T>, b: seq<T>) {
    exists at: seq<nat> :: EmbedsAt(a, b, at)
  }

  lemma {:induction false} TakenInOrder<T(!new)>(removed: History<T>, taker: Taker) returns (at: seq<nat>)
    ensures EmbedsAt(TakenBy(removed, taker), Removals(removed), at)
  {
    at := [];
    if removed.Took? {
      at := TakenInOrder(removed.before, taker);
      if removed.taker == taker {
        at := at + [|Removals(removed.before)|];
      }
    }
  }

  /** The packets the producer has dropped so far, in order. */
  function Dropped<T>(s: State<T>): seq<T> {
    TakenBy(s.removed, Producer)
  }

  function FrontOf<T>(q: seq<T>): seq<T> {
    if q == [] then [] else [q[0]]
  }

  /** Which accesses take a packet out: each takes the oldest one alone. */
  lemma NextTakes<T>(s: State<T>, a: Action<T>, capacity: nat)
    ensures var t := Next(s, a, capacity);
            && Dropped(t) == Dropped(s) + (if a.ProducerStep? && s.place.Take? then FrontOf(s.queue) else [])
            && TakenBy(t.removed, Consumer)
               == TakenBy(s.removed, Consumer) + (if a.ConsumerStep? then FrontOf(s.queue) else [])
  {
  }

  /** At most one packet is dropped for every packet offered, the running call included. */
  predicate DropsAreCounted<T>(s: State<T>) {
    if s.offered == [] then Dropped(s) == [] && s.takenInCall == 0
    else |Dropped(s)| < |s.offered| + s.takenInCall
  }

  lemma NextCountsDrops<T>(s: State<T>, a: Action<T>, capacity: nat)
    requires Invariant(s, capacity) && DropsAreCounted(s)
    ensures DropsAreCounted(Next(s, a, capacity))
  {
    NextTakes(s, a, capacity);
  }

  lemma {:induction false} RunCountsDrops<T>(schedule: Schedule<T>, capacity: nat)
    requires capacity >= 1
    ensures DropsAreCounted(RunFrom(Initial<T>(), schedule, capacity))
  {
    if schedule.Then? {
      RunCountsDrops(schedule.before, capacity);
      RunKeepsInvariant(Initial<T>(), schedule.before, capacity);
      NextCountsDrops(RunFrom(Initial<T>(), schedule.before, capacity), schedule.action, capacity);
    }
  }

  lemma NextDropsOnce<T>(s: State<T>, a: Action<T>, capacity: nat)
    requires Invariant(s, capacity) && !a.Call?
    ensures var t := Next(s, a, capacity);
            Dropped(s) <= Dropped(t) && |Dropped(t)| == |Dropped(s)| + t.takenInCall - s.takenInCall
  {
    NextTakes(s, a, capacity);
  }

  /** Between two calls the producer drops as many packets as it counts, which is at most one. */
  lemma {:induction false} CallDropsAtMostOne<T>(s: State<T>, schedule: Schedule<T>, capacity: nat)
    requires Invariant(s, capacity) && capacity >= 1 && NoCalls(schedule)
    ensures var t := RunFrom(s, schedule, capacity);
            && Dropped(s) <= Dropped(t) && |Dropped(t)| == |Dropped(s)| + t.takenInCall - s.takenInCall
            && |Dropped(t)| <= |Dropped(s)| + 1
  {
    RunKeepsInvariant(s, schedule, capacity);
    if schedule.Then? {
      CallDropsAtMostOne(s, schedule.before, capacity);
      RunKeepsInvariant(s, schedule.before, capacity);
      NextDropsOnce(RunFrom(s, schedule.before, capacity), schedule.action, capacity);
    }
  }

  /** Under every interleaving of one producer and one consumer: no packet offered in a finished call
      is lost on the way in, so a put never fails; the queue is what is left of the packets put in
      after the oldest were taken out, one by one; at most one packet is dropped for each offered; and what
      was put in is what the consumer took, what was dropped and what is queued. */
  lemma EveryInterleaving<T(!new)>(schedule: Schedule<T>, capacity: nat)
    requires capacity >= 1
    ensures var s := RunFrom(Initial<T>(), schedule, capacity);
            && |s.queue| <= capacity
            && (s.place.Idle? ==> s.put == s.offered)
            && (s.place.Put? ==> |s.queue| < capacity)
            && s.put == Removals(s.removed) + s.queue
            && s.takenInCall <= s.nPopped <= 1
            && |Dropped(s)| <= |s.offered|
            && Subsequence(TakenBy(s.removed, Consumer), s.put)
            && |s.put| == |TakenBy(s.removed, Consumer)| + |TakenBy(s.removed, Producer)| + |s.queue|
            && multiset(s.put) == multiset(TakenBy(s.removed, Consumer))
                                  + multiset(TakenBy(s.removed, Producer)) + multiset(s.queue)
  {
    RunKeepsInvariant(Initial<T>(), schedule, capacity);
    var s := RunFrom(Initial<T>(), schedule, capacity);
    RunCountsDrops(schedule, capacity);
    TakenAddsUp(s.removed);
    var at := TakenInOrder(s.removed, Consumer);
    assert EmbedsAt(TakenBy(s.removed, Consumer), s.put, at);
    assert multiset(s.put) == multiset(Removals(s.removed)) + multiset(s.queue);
  }

  // ---------------------------------------------------------------- a call always ends

  /** Accesses a call can still make. */
  function Left<T>(s: State<T>): nat {
    match s.place
    case Idle => 0
    case Put(_) => 1
    case Take(_) => 3
    case LoopCheck(_) => if s.takenInCall == 0 then 4 else 2
    case FirstCheck(_) => 5
  }

  /** The accesses of the producer in a schedule. */
  function ProducerSteps<T>(schedule: Schedule<T>): nat {
    match schedule
    case Start => 0
    case Then(before, action) => ProducerSteps(before) + (if action.ProducerStep? then 1 else 0)
  }

  predicate NoCalls<T>(schedule: Schedule<T>) {
    schedule.Then? ==> NoCalls(schedule.before) && !schedule.action.Call?
  }

  lemma StepComesCloser<T>(s: State<T>, a: Action<T>, capacity: nat)
    requires Invariant(s, capacity) && !a.Call?
    ensures Left(Next(s, a, capacity))
            <= if a.ProducerStep? && Left(s) > 0 then Left(s) - 1 else Left(s)
  {
  }

  lemma {:induction false} RunComesCloser<T>(s: State<T>, schedule: Schedule<T>, capacity: nat)
    requires Invariant(s, capacity) && capacity >= 1 && NoCalls(schedule)
    ensures var left := Left(RunFrom(s, schedule, capacity));
            left == 0 || left + ProducerSteps(schedule) <= Left(s)
  {
    if schedule.Then? {
      RunComesCloser(s, schedule.before, capacity);
      RunKeepsInvariant(s, schedule.before, capacity);
      StepComesCloser(RunFrom(s, schedule.before, capacity), schedule.action, capacity);
    }
  }

  /** A call is over after at most five accesses to the queue, whatever the consumer does meanwhile. */
  lemma CallEndsWithinFiveAccesses<T>(s: State<T>, schedule: Schedule<T>, capacity: nat)
    requires Invariant(s, capacity) && capacity >= 1 && NoCalls(schedule)
    requires ProducerSteps(schedule) >= 5
    ensures RunFrom(s, schedule, capacity).place.Idle?
  {
    RunComesCloser(s, schedule, capacity);
  }

  // ---------------------------------------------------------------- the code of the producer

  /** While nothing is put in, the queue becomes a suffix of itself. */
  lemma QueueIsSuffix<T>(s: State<T>, t: State<T>, capacity: nat)
    requires Invariant(s, capacity) && Invariant(t, capacity)
    requires s.put == t.put && |t.queue| <= |s.queue|
    ensures t.queue == s.queue[|s.queue| - |t.queue|..]
  {
    assert s.queue == s.put[|s.put| - |s.queue|..];
    assert t.queue == t.put[|t.put| - |t.queue|..];
  }

  /** The consumer does nothing. */
  ghost predicate Quiet(takes: nat -> nat) {
    forall j :: takes(j) == 0
  }

  /** The queue as the producer's code sees it.  Before each access the consumer takes as many packets
      as an input says, as far as there are any. */
  class Importer<T(0,==)> {
    var mImportQueue: seq<T>
    const mMaximumImportQueueSize: nat
    ghost var state: State<T>
    ghost var trace: Schedule<T>

    /** The queue is that of the state machine, in a state reached by the actions so far. */
    ghost predicate Valid()
      reads this
    {
      && Traced()
      && state.queue == mImportQueue
    }

    ghost predicate Traced()
      reads this
    {
      && mMaximumImportQueueSize >= 1
      && Invariant(state, mMaximumImportQueueSize)
      && state == RunFrom(Initial<T>(), trace, mMaximumImportQueueSize)
    }

    constructor (maximumImportQueueSize: nat)
      requires maximumImportQueueSize >= 1
      ensures Valid() && state == Initial<T>() && mMaximumImportQueueSize == maximumImportQueueSize
    {
      mImportQueue := [];
      mMaximumImportQueueSize := maximumImportQueueSize;
      state := Initial<T>();
      trace := Start;
    }

    ghost method Act(a: Action<T>)
      requires Traced()
      modifies this`state, this`trace
      ensures Traced() && trace == Then(old(trace), a)
      ensures state == Next(old(state), a, mMaximumImportQueueSize)
      ensures Dropped(state) == Dropped(old(state))
                + (if a.ProducerStep? && old(state).place.Take? then FrontOf(old(state).queue) else [])
    {
      NextTakes(state, a, mMaximumImportQueueSize);
      NextKeepsInvariant(state, a, mMaximumImportQueueSize);
      state := Next(state, a, mMaximumImportQueueSize);
      trace := Then(trace, a);
    }

    /** The consumer acts between two accesses of the producer. */
    method Meanwhile(n: nat)
      requires Valid()
      modifies this`mImportQueue, this`state, this`trace
      ensures Valid() && state.place == old(state.place) && state.offered == old(state.offered)
      ensures state.takenInCall == old(state.takenInCall) && state.nPopped == old(state.nPopped)
      ensures Dropped(state) == Dropped(old(state))
      ensures state.put == old(state.put)
      ensures mImportQueue == old(mImportQueue)[if n < |old(mImportQueue)| then n else |old(mImportQueue)|..]
    {
      for i := 0 to n
        invariant Valid() && state.place == old(state.place) && state.offered == old(state.offered)
        invariant state.takenInCall == old(state.takenInCall) && state.nPopped == old(state.nPopped)
        invariant Dropped(state) == Dropped(old(state))
        invariant state.put == old(state.put)
        invariant mImportQueue == old(mImportQueue)[if i < |old(mImportQueue)| then i else |old(mImportQueue)|..]
      {
        Act(ConsumerStep);
        if mImportQueue != [] {
          mImportQueue := mImportQueue[1..];
        }
      }
    }

    /** What a call keeps until it puts its packet in. */
    twostate predicate SameCall()
      reads this
    {
      && state.offered == old(state.offered) && state.put == old(state.put)
      && state.nPopped == old(state.nPopped)
    }

    /** A size check of the loop, after the consumer took some packets. */
    method CheckSize(ghost packet: T, n: nat) returns (full: bool)
      requires Valid() && state.place == LoopCheck(packet)
      modifies this`mImportQueue, this`state, this`trace
      ensures Valid() && SameCall() && state.place == if full then Take(packet) else Put(packet)
      ensures state.takenInCall == old(state).takenInCall && Dropped(state) == Dropped(old(state))
      ensures full <==> |mImportQueue| >= mMaximumImportQueueSize
      ensures |mImportQueue| <= |old(mImportQueue)|
      ensures n == 0 ==> mImportQueue == old(mImportQueue)
      ensures n > 0 && old(mImportQueue) != [] ==> |mImportQueue| < |old(mImportQueue)|
    {
      Meanwhile(n);
      Act(ProducerStep);
      full := |mImportQueue| >= mMaximumImportQueueSize;
    }

    /** An attempt to take the oldest packet out, after the consumer took some packets. */
    method TakeOut(ghost packet: T, n: nat) returns (taken: bool)
      requires Valid() && state.place == Take(packet)
      modifies this`mImportQueue, this`state, this`trace
      ensures Valid() && SameCall() && state.place == if taken then LoopCheck(packet) else Put(packet)
      ensures taken <==> n < |old(mImportQueue)|
      ensures |mImportQueue| == if taken then |old(mImportQueue)| - n - 1 else 0
      ensures state.takenInCall == if taken then 1 else 0
      ensures Dropped(state) == Dropped(old(state)) + if taken then [old(mImportQueue)[n]] else []
    {
      Meanwhile(n);
      Act(ProducerStep);
      taken := mImportQueue != [];
      if taken {
        mImportQueue := mImportQueue[1..];
      }
    }

    /** One round of the loop: the size check and, if the queue is full, the attempt to take a packet out. */
    method DropOne(ghost packet: T, takes: nat -> nat, i: nat) returns (done: bool)
      requires Valid() && state.place == LoopCheck(packet)
      modifies this`mImportQueue, this`state, this`trace
      ensures Valid() && SameCall() && state.place == if done then Put(packet) else LoopCheck(packet)
      ensures done <==>
                || |old(mImportQueue)| < mMaximumImportQueueSize
                || takes(i) >= 1 || takes(i + 1) >= mMaximumImportQueueSize
      ensures state.takenInCall == old(state).takenInCall + if done then 0 else 1
      ensures |mImportQueue| + (if done then 0 else 1) <= |old(mImportQueue)|
      ensures takes(i) == takes(i + 1) == 0 ==> |mImportQueue| + (if done then 0 else 1) == |old(mImportQueue)|
      ensures Dropped(state) == Dropped(old(state)) + if done then [] else [old(mImportQueue)[takes(i + 1)]]
      ensures !done ==> Left(state) < Left(old(state))
    {
      var full := CheckSize(packet, takes(i));
      if !full { return true; }
      var taken := TakeOut(packet, takes(i + 1));
      return !taken;
    }

    /** The consumer forestalls the producer: it acts between the two size checks, or empties the queue
        between the second one and the taking out. */
    predicate Forestalled(takes: nat -> nat) {
      takes(1) >= 1 || takes(2) >= mMaximumImportQueueSize
    }

    /** Drops from the front while the queue is full. */
    method MakeRoom(ghost packet: T, takes: nat -> nat) returns (i: nat)
      requires Valid() && state.place == LoopCheck(packet)
      requires state.takenInCall == 0 && |mImportQueue| == mMaximumImportQueueSize
      modifies this`mImportQueue, this`state, this`trace
      ensures Valid() && SameCall() && state.place == Put(packet)
      ensures state.takenInCall == if Forestalled(takes) then 0 else 1
      ensures Dropped(state) == Dropped(old(state)) + if Forestalled(takes) then [] else [old(mImportQueue)[takes(2)]]
      ensures |mImportQueue| + state.takenInCall <= |old(mImportQueue)|
      ensures Quiet(takes) ==> |mImportQueue| + state.takenInCall == |old(mImportQueue)|
    {
      i := 1;
      var done := false;
      while !done
        invariant Valid() && SameCall() && state.place == if done then Put(packet) else LoopCheck(packet)
        invariant i == 1 ==> !done && mImportQueue == old(mImportQueue)
        invariant state.takenInCall == if i == 1 || Forestalled(takes) then 0 else 1
        invariant i > 1 && !done ==> state.takenInCall == 1
        invariant Dropped(state) == Dropped(old(state))
                    + if state.takenInCall == 0 then [] else [old(mImportQueue)[takes(2)]]
        invariant |mImportQueue| + state.takenInCall <= |old(mImportQueue)|
        invariant Quiet(takes) ==> |mImportQueue| + state.takenInCall == |old(mImportQueue)|
        decreases !done, Left(state)
      {
        done := DropOne(packet, takes, i);
        i := i + 2;
      }
    }

    /** Makes sure there is space: the size check before the loop, and the loop if it is needed. */
    method EnsureSpace(packet: T, takes: nat -> nat) returns (nPopped: nat, i: nat)
      requires Valid() && state.place.Idle?
      modifies this`mImportQueue, this`state, this`trace
      ensures Valid() && state.place == Put(packet)
      ensures state.offered == old(state.offered) + [packet] && state.put == old(state.put)
      ensures nPopped == state.nPopped
      ensures nPopped == 1 <==> |old(mImportQueue)| == mMaximumImportQueueSize && takes(0) == 0
      ensures state.takenInCall == if nPopped == 1 && !Forestalled(takes) then 1 else 0
      ensures Dropped(state) == Dropped(old(state))
                + if state.takenInCall == 1 then [old(mImportQueue)[takes(2)]] else []
      ensures |mImportQueue| + state.takenInCall <= |old(mImportQueue)|
      ensures Quiet(takes) ==> |mImportQueue| + state.takenInCall == |old(mImportQueue)|
    {
      nPopped, i := 0, 1;
      Act(Call(packet));
      Meanwhile(takes(0));
      Act(ProducerStep);
      if |mImportQueue| >= mMaximumImportQueueSize {
        nPopped := nPopped + 1;
        i := MakeRoom(packet, takes);
      }
    }

    /** Puts the packet in; with the space ensured this does not fail. */
    method Enqueue(packet: T) returns (failed: bool)
      requires Valid() && state.place == Put(packet)
      modifies this`mImportQueue, this`state, this`trace
      ensures Valid() && state.place.Idle? && !failed
      ensures trace == Then(old(trace), ProducerStep)
      ensures mImportQueue == old(mImportQueue) + [packet]
      ensures state == old(state).(
                place := Idle, queue := old(state).queue + [packet], put := old(state).put + [packet])
    {
      failed := false;
      Act(ProducerStep);
      if |mImportQueue| < mMaximumImportQueueSize {
        mImportQueue := mImportQueue + [packet];
      } else {
        failed := true;
      }
    }

    lemma AllPut()
      requires Valid() && state.place.Idle?
      ensures state.put == state.offered && state.takenInCall <= state.nPopped <= 1
    {
    }

    /** Adds a packet, making room by dropping from the front.  Each access to the queue is the step of
        the producer that the state machine prescribes.  The packet is always put in, behind what is left of
        the queue: all of it but the packets the consumer took (none when it does nothing) and the dropped
        one.  One is reported exactly when the queue is found full at first.  The oldest packet is dropped
        then, unless the consumer forestalls the producer; exactly in that case the report is wrong. */
    method AddPacket(packet: T, takes: nat -> nat) returns (nPopped: nat, failed: bool)
      requires Valid() && state.place.Idle?
      modifies this`mImportQueue, this`state, this`trace
      ensures Valid() && state.place.Idle?
      ensures state.offered == state.put == old(state.put) + [packet]
      ensures !failed && state.takenInCall <= nPopped <= 1 && nPopped == state.nPopped
      ensures nPopped == 1 <==> |old(mImportQueue)| == mMaximumImportQueueSize && takes(0) == 0
      ensures state.takenInCall == nPopped <==> nPopped == 0 || !Forestalled(takes)
      ensures Dropped(state) == Dropped(old(state))
                + if state.takenInCall == 1 then [old(mImportQueue)[takes(2)]] else []
      ensures var gone := |old(mImportQueue)| + 1 - |mImportQueue|;
              && state.takenInCall <= gone <= |old(mImportQueue)|
              && mImportQueue == old(mImportQueue)[gone..] + [packet]
              && (Quiet(takes) ==> gone == state.takenInCall)
    {
      AllPut();
      var i;
      nPopped, i := EnsureSpace(packet, takes);
      Meanwhile(takes(i));
      QueueIsSuffix(old(state), state, mMaximumImportQueueSize);
      failed := Enqueue(packet);
      AllPut();
    }
  }
}
