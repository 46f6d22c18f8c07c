/**
 The reconnect loop of the subscriber.  One attempt, from creating the channel to the end of the
 call, is an input: how the call ended and whether it delivered a packet.  The flag that stop()
 clears is an input too, as the sequence of values the loop reads.
 */
module Subscriber {

  datatype Status = StatusOk | Unavailable | Cancelled | OtherError(code: int)

  datatype Attempt = Attempt(status: Status, hadSuccessfulRead: bool)

  /** The outcome of every attempt, should it be made. */
  type Attempts = nat -> Attempt

  /** The value of the flag at every read. */
  type Flag = nat -> bool

  /** Once cleared the flag stays cleared. */
  ghost predicate StaysCleared(running: Flag) {
    forall i, j :: i <= j && running(j) ==> running(i)
  }

  /** The last attempt up to i that delivered a packet, or the very first attempt. */
  function Base(attempts: Attempts, i: nat): (b: nat)
    ensures b <= i
  {
    if i == 0 || attempts(i).hadSuccessfulRead then i else Base(attempts, i - 1)
  }

  lemma {:induction false} BaseIsLast(attempts: Attempts, i: nat)
    ensures Base(attempts, i) == 0 || attempts(Base(attempts, i)).hadSuccessfulRead
    ensures forall j :: Base(attempts, i) < j <= i ==> !attempts(j).hadSuccessfulRead
  {
    if i > 0 {
      BaseIsLast(attempts, i - 1);
    }
  }

  /** The wait before attempt i + 1 is the one due after the base of attempt i. */
  predicate Due(schedule: seq<nat>, attempts: Attempts, wait: nat, i: nat) {
    var k := i - Base(attempts, i);
    k < |schedule| && wait == schedule[k]
  }

  /** Attempt i used up a schedule of n waits: it is the n-th after its base. */
  predicate UsedUp(attempts: Attempts, n: nat, i: nat) {
    i - Base(attempts, i) >= n
  }

  /** The loop is left at the latest with attempt or read number bound: that attempt uses up the schedule or
      ends with any other error, or the flag is cleared by then. */
  predicate EndsBy(schedule: seq<nat>, attempts: Attempts, running: Flag, bound: nat) {
    UsedUp(attempts, |schedule|, bound) || attempts(bound).status.OtherError? || !running(bound)
  }

  /** The loop's counter before attempt i, as the loop steps it: up by one after every attempt, from minus
      one after an attempt that delivered a packet. */
  function Counter(attempts: Attempts, i: nat): int {
    if i == 0 then -1
    else (if attempts(i - 1).hadSuccessfulRead then -1 else Counter(attempts, i - 1)) + 1
  }

  /** How many of the first i attempts ended well or were cancelled; after each of them the flag is read. */
  function Judged(attempts: Attempts, i: nat): (n: nat)
    ensures n <= i
  {
    if i == 0 then 0
    else Judged(attempts, i - 1)
         + (if attempts(i - 1).status.StatusOk? || attempts(i - 1).status.Cancelled? then 1 else 0)
  }

  /** The number of the read of the flag right before attempt i.  Attempt 0 has one read before it, every
      later one two, with the wait between them. */
  function ReadBefore(attempts: Attempts, i: nat): nat {
    2 * i + Judged(attempts, i)
  }

  /** Every attempt was made with the flag just read as set, and every wait was begun so. */
  predicate Permitted(attempts: Attempts, running: Flag, nAttempts: nat, nWaits: nat) {
    && (forall i {:trigger ReadBefore(attempts, i)} :: 0 <= i < nAttempts ==> running(ReadBefore(attempts, i)))
    && (forall i {:trigger ReadBefore(attempts, i)} :: 0 < i <= nWaits ==> running(ReadBefore(attempts, i) - 1))
  }

  /** Attempt i neither ends the loop nor finds the flag cleared. */
  predicate GoesOnAfter(schedule: seq<nat>, attempts: Attempts, running: Flag, i: nat) {
    && !attempts(i).status.OtherError? && !UsedUp(attempts, |schedule|, i)
    && (Judged(attempts, i + 1) > Judged(attempts, i) ==> running(ReadBefore(attempts, i) + 1))
  }

  /** How many reads of the flag the loop makes.  When no attempt follows the last wait (or none was made),
      the read after it is the last; else it is the one that judges the last attempt, if that needs one, or
      the one that begins the next round. */
  function Reads(schedule: seq<nat>, attempts: Attempts, running: Flag, nAttempts: nat, nWaits: nat): nat {
    if nWaits == nAttempts then ReadBefore(attempts, nAttempts) + 1
    else if nAttempts == 0 then 0
    else if GoesOnAfter(schedule, attempts, running, nAttempts - 1) then ReadBefore(attempts, nAttempts)
    else ReadBefore(attempts, nAttempts) - 1
  }

  /** Every wait is the one due after its base, so the schedule starts over with each delivered packet. */
  predicate FollowsSchedule(schedule: seq<nat>, attempts: Attempts, waits: seq<nat>) {
    forall i :: 0 <= i < |waits| ==> Due(schedule, attempts, waits[i], i)
  }

  /** No attempt before the last one ended with any other error or used up the schedule. */
  predicate GoesOn(schedule: seq<nat>, attempts: Attempts, nAttempts: nat) {
    && (forall i :: 0 <= i < nAttempts - 1 ==> !attempts(i).status.OtherError?)
    && (forall i {:trigger UsedUp(attempts, |schedule|, i)} :: 0 <= i < nAttempts - 1 ==>
          !UsedUp(attempts, |schedule|, i))
  }

  /** The run ends with the whole schedule: after the last attempt that delivered a packet, or the
      first attempt, there are as many further attempts as the schedule has waits, none of them delivers
      a packet, and the waits before them are the schedule in order. */
  predicate WholeSchedule(schedule: seq<nat>, attempts: Attempts, nAttempts: nat, waits: seq<nat>) {
    var last := nAttempts - 1 - |schedule|;
    && 0 <= last && nAttempts == |waits| + 1
    && (last == 0 || attempts(last).hadSuccessfulRead)
    && (forall i :: last < i < nAttempts ==> !attempts(i).hadSuccessfulRead)
    && waits[last..] == schedule
  }

  /** Why the loop is left. */
  datatype Reason = ScheduleUsedUp | Stopped | Failed

  /** What the end of a call means: go on towards the end of the schedule, or leave the loop.  The flag
      is read again for a call that ended well or was cancelled. */
  method Judge(status: Status, running: Flag, nRead: nat) returns (reason: Reason, nReadAfter: nat)
    ensures reason.Failed? <==> status.OtherError?
    ensures reason.Stopped? <==> (status.StatusOk? || status.Cancelled?) && !running(nRead)
    ensures nReadAfter == nRead + (if status.StatusOk? || status.Cancelled? then 1 else 0)
  {
    nReadAfter := nRead;
    if status.StatusOk? {
      nReadAfter := nRead + 1;
      return if !running(nRead) then Stopped else ScheduleUsedUp, nReadAfter;
    } else if status.Unavailable? {
      return ScheduleUsedUp, nReadAfter;
    } else if status.Cancelled? {
      nReadAfter := nRead + 1;
      return if !running(nRead) then Stopped else ScheduleUsedUp, nReadAfter;
    } else {
      return Failed, nReadAfter;
    }
  }

  /** What holds throughout: every wait is due, nothing ended the loop so far, and the flag was set before
      every attempt and every wait. */
  predicate InOrder(schedule: seq<nat>, attempts: Attempts, running: Flag, nAttempts: nat, waits: seq<nat>) {
    && |waits| <= nAttempts <= |waits| + 1
    && FollowsSchedule(schedule, attempts, waits)
    && GoesOn(schedule, attempts, nAttempts)
    && Permitted(attempts, running, nAttempts, |waits|)
  }

  /** At the head of the loop. */
  predicate AtHead(schedule: seq<nat>, attempts: Attempts, running: Flag,
                   kReconnect: int, nAttempts: nat, waits: seq<nat>, nRead: nat) {
    && InOrder(schedule, attempts, running, nAttempts, waits)
    && kReconnect == Counter(attempts, nAttempts) <= |schedule|
    && (if nAttempts == 0 then nRead == 0
        else
          && nAttempts == |waits| + 1
          && !attempts(nAttempts - 1).status.OtherError?
          && nRead == ReadBefore(attempts, nAttempts) - 1
          && running(nRead - 1))
  }

  /** Right before an attempt, the wait over and the flag read. */
  predicate AtAttempt(schedule: seq<nat>, attempts: Attempts, running: Flag,
                      nAttempts: nat, waits: seq<nat>, nRead: nat) {
    && InOrder(schedule, attempts, running, nAttempts, waits)
    && nAttempts == |waits|
    && (nAttempts > 0 ==>
          !attempts(nAttempts - 1).status.OtherError? && !UsedUp(attempts, |schedule|, nAttempts - 1))
    && nRead == ReadBefore(attempts, nAttempts) + 1
    && running(nRead - 1)
  }

  /** After the loop: which reads of the flag were made, and what they say about how it was left. */
  predicate HasEnded(schedule: seq<nat>, attempts: Attempts, running: Flag,
                     nAttempts: nat, waits: seq<nat>, nRead: nat, reason: Reason) {
    && InOrder(schedule, attempts, running, nAttempts, waits)
    && nRead == Reads(schedule, attempts, running, nAttempts, |waits|) > 0
    && (reason.Stopped? <==> !running(nRead - 1))
    && (reason.Failed? <==> nAttempts == |waits| + 1 && attempts(nAttempts - 1).status.OtherError?)
    && (reason.ScheduleUsedUp? ==> WholeSchedule(schedule, attempts, nAttempts, waits))
  }

  lemma WaitAppended(schedule: seq<nat>, attempts: Attempts, waits: seq<nat>, k: nat)
    requires FollowsSchedule(schedule, attempts, waits)
    requires k == |waits| - Base(attempts, |waits|) < |schedule|
    ensures FollowsSchedule(schedule, attempts, waits + [schedule[k]])
  {
  }

  lemma ClearedBeforeRound(schedule: seq<nat>, attempts: Attempts, running: Flag,
                           k: int, n: nat, waits: seq<nat>, nRead: nat)
    requires AtHead(schedule, attempts, running, k, n, waits, nRead)
    requires k < |schedule| && !running(nRead)
    ensures HasEnded(schedule, attempts, running, n, waits, nRead + 1, Stopped)
  {
    CounterByBase(attempts, n);
  }

  /** The wait of a round, which begins with the flag set. */
  lemma WaitMade(schedule: seq<nat>, attempts: Attempts, running: Flag, k: nat, n: nat, waits: seq<nat>, nRead: nat)
    requires AtHead(schedule, attempts, running, k, n, waits, nRead)
    requires k < |schedule| && running(nRead)
    ensures var after := waits + [schedule[k]];
            if running(nRead + 1) then AtAttempt(schedule, attempts, running, n, after, nRead + 2)
            else HasEnded(schedule, attempts, running, n, after, nRead + 2, Stopped)
  {
    CounterByBase(attempts, n);
    WaitAppended(schedule, attempts, waits, k);
    var after := waits + [schedule[k]];
    forall i {:trigger ReadBefore(attempts, i)} | 0 < i <= |after| ensures running(ReadBefore(attempts, i) - 1) {
      assert i == |after| ==> ReadBefore(attempts, i) == nRead + 1;
    }
    assert Permitted(attempts, running, n, |after|);
  }

  /** The first attempt needs no wait. */
  lemma NoWaitMade(schedule: seq<nat>, attempts: Attempts, running: Flag, k: int, n: nat, waits: seq<nat>, nRead: nat)
    requires AtHead(schedule, attempts, running, k, n, waits, nRead) && k < 0 && running(nRead)
    ensures AtAttempt(schedule, attempts, running, n, waits, nRead + 1)
  {
    CounterByBase(attempts, n);
  }

  lemma AttemptMade(schedule: seq<nat>, attempts: Attempts, running: Flag, n: nat, waits: seq<nat>, nRead: nat)
    requires AtAttempt(schedule, attempts, running, n, waits, nRead)
    ensures InOrder(schedule, attempts, running, n + 1, waits)
  {
    forall i {:trigger ReadBefore(attempts, i)} | 0 <= i < n + 1 ensures running(ReadBefore(attempts, i)) {
    }
    forall i {:trigger UsedUp(attempts, |schedule|, i)} | 0 <= i < n ensures !UsedUp(attempts, |schedule|, i) {
    }
  }

  /** How the end of the call continues the loop or leaves it. */
  lemma AttemptJudged(schedule: seq<nat>, attempts: Attempts, running: Flag,
                      n: nat, waits: seq<nat>, nRead: nat, reason: Reason, after: nat)
    requires AtAttempt(schedule, attempts, running, n, waits, nRead)
    requires after == nRead + Judged(attempts, n + 1) - Judged(attempts, n)
    requires reason.Failed? <==> attempts(n).status.OtherError?
    requires reason.Stopped? <==> after > nRead && !running(nRead)
    ensures if reason.ScheduleUsedUp?
            then AtHead(schedule, attempts, running, Counter(attempts, n + 1), n + 1, waits, after)
            else HasEnded(schedule, attempts, running, n + 1, waits, after, reason)
  {
    AttemptMade(schedule, attempts, running, n, waits, nRead);
    CounterByBase(attempts, n + 1);
    CounterByBase(attempts, n);
  }

  lemma HeadUsedUp(schedule: seq<nat>, attempts: Attempts, running: Flag,
                   k: int, n: nat, waits: seq<nat>, nRead: nat)
    requires AtHead(schedule, attempts, running, k, n, waits, nRead) && k >= |schedule|
    ensures HasEnded(schedule, attempts, running, n, waits, nRead, ScheduleUsedUp)
  {
    CounterByBase(attempts, n);
    UsedUpMeansWholeSchedule(schedule, attempts, n, waits);
  }

  lemma HeadInBound(schedule: seq<nat>, attempts: Attempts, running: Flag,
                    k: int, n: nat, waits: seq<nat>, nRead: nat, bound: nat)
    requires AtHead(schedule, attempts, running, k, n, waits, nRead) && k < |schedule|
    requires StaysCleared(running) && EndsBy(schedule, attempts, running, bound) && n <= bound + 1
    ensures n <= bound
  {
    CounterByBase(attempts, n);
    assert n > 0 ==> running(nRead - 1) && nRead - 1 >= n - 1;
  }

  /** The beginning of a round: the flag is read, and read again after the wait if there is one. */
  method BeginRound(schedule: seq<nat>, ghost attempts: Attempts, running: Flag,
                    kReconnect: int, ghost nAttempts: nat, waitsBefore: seq<nat>, nReadBefore: nat)
    returns (stopped: bool, waits: seq<nat>, nRead: nat)
    requires AtHead(schedule, attempts, running, kReconnect, nAttempts, waitsBefore, nReadBefore)
    requires kReconnect < |schedule|
    ensures if stopped then HasEnded(schedule, attempts, running, nAttempts, waits, nRead, Stopped)
            else AtAttempt(schedule, attempts, running, nAttempts, waits, nRead)
  {
    waits, nRead := waitsBefore, nReadBefore + 1;
    if !running(nRead - 1) {
      ClearedBeforeRound(schedule, attempts, running, kReconnect, nAttempts, waits, nReadBefore);
      return true, waits, nRead;
    }
    if kReconnect >= 0 {
      WaitMade(schedule, attempts, running, kReconnect, nAttempts, waits, nReadBefore);
      waits := waits + [schedule[kReconnect]];
      nRead := nRead + 1;
      if !running(nRead - 1) { return true, waits, nRead; }
    } else {
      NoWaitMade(schedule, attempts, running, kReconnect, nAttempts, waits, nReadBefore);
    }
    return false, waits, nRead;
  }

  /** The attempt itself, and what its end means. */
  method MakeAttempt(ghost schedule: seq<nat>, attempts: Attempts, running: Flag,
                     kBefore: int, nBefore: nat, ghost waits: seq<nat>, nReadBefore: nat)
    returns (kReconnect: int, nAttempts: nat, nRead: nat, reason: Reason)
    requires AtAttempt(schedule, attempts, running, nBefore, waits, nReadBefore)
    requires kBefore == Counter(attempts, nBefore)
    ensures nAttempts == nBefore + 1
    ensures if reason.ScheduleUsedUp?
            then AtHead(schedule, attempts, running, kReconnect + 1, nAttempts, waits, nRead)
            else HasEnded(schedule, attempts, running, nAttempts, waits, nRead, reason)
  {
    var attempt := attempts(nBefore);
    nAttempts := nBefore + 1;
    kReconnect := if attempt.hadSuccessfulRead then -1 else kBefore;
    reason, nRead := Judge(attempt.status, running, nReadBefore);
    AttemptJudged(schedule, attempts, running, nBefore, waits, nReadBefore, reason, nRead);
  }

  /** The loop, for every run that ends; endless runs are below.  Waits are the requested ones; a shutdown
      can end one early.  The last result tells whether the premature end is reported as an exception. */
  method AcquirePackets(schedule: seq<nat>, attempts: Attempts, running: Flag, ghost bound: nat)
    returns (nAttempts: nat, waits: seq<nat>, reason: Reason, threw: bool)
    requires StaysCleared(running)
    requires EndsBy(schedule, attempts, running, bound)
    ensures nAttempts <= bound + 1
    ensures forall i {:trigger Judged(attempts, i)} :: 0 <= i < nAttempts ==> running(2 * i + Judged(attempts, i))
    ensures var nRead := Reads(schedule, attempts, running, nAttempts, |waits|);
            && HasEnded(schedule, attempts, running, nAttempts, waits, nRead, reason)
            && (threw <==> running(nRead))
    ensures reason.Stopped? ==> !threw
  {
    nAttempts, waits, reason := 0, [], ScheduleUsedUp;
    var nRead := 0;
    var nReconnect := |schedule|;
    var kReconnect := -1;
    while kReconnect < nReconnect
      invariant AtHead(schedule, attempts, running, kReconnect, nAttempts, waits, nRead)
      invariant reason.ScheduleUsedUp? && nAttempts <= bound + 1
      decreases bound + 1 - nAttempts
    {
      HeadInBound(schedule, attempts, running, kReconnect, nAttempts, waits, nRead, bound);
      var stopped;
      stopped, waits, nRead := BeginRound(schedule, attempts, running, kReconnect, nAttempts, waits, nRead);
      if stopped {
        reason := Stopped;
        break;
      }
      kReconnect, nAttempts, nRead, reason :=
        MakeAttempt(schedule, attempts, running, kReconnect, nAttempts, waits, nRead);
      if !reason.ScheduleUsedUp? { break; }
      kReconnect := kReconnect + 1;
    }
    if reason.ScheduleUsedUp? {
      HeadUsedUp(schedule, attempts, running, kReconnect, nAttempts, waits, nRead);
    }
    forall i {:trigger Judged(attempts, i)} | 0 <= i < nAttempts ensures running(2 * i + Judged(attempts, i)) {
      assert running(ReadBefore(attempts, i));
    }
    threw := running(nRead);
  }

  /** After an attempt from which the schedule counts, the waits are the schedule in order. */
  lemma WaitsAreSchedule(schedule: seq<nat>, attempts: Attempts, waits: seq<nat>, last: nat)
    requires FollowsSchedule(schedule, attempts, waits) && |waits| == last + |schedule|
    requires last == 0 || attempts(last).hadSuccessfulRead
    requires forall j :: last < j < |waits| ==> !attempts(j).hadSuccessfulRead
    ensures waits[last..] == schedule
  {
    forall k | 0 <= k < |schedule| ensures waits[last..][k] == schedule[k] {
      BaseStays(attempts, last, last + k);
      assert Due(schedule, attempts, waits[last + k], last + k);
    }
  }

  /** A run that used up its schedule went through all of it. */
  lemma UsedUpMeansWholeSchedule(schedule: seq<nat>, attempts: Attempts, nAttempts: nat, waits: seq<nat>)
    requires 0 < nAttempts == |waits| + 1
    requires FollowsSchedule(schedule, attempts, waits) && GoesOn(schedule, attempts, nAttempts)
    requires UsedUp(attempts, |schedule|, nAttempts - 1)
    ensures WholeSchedule(schedule, attempts, nAttempts, waits)
  {
    BaseIsLast(attempts, nAttempts - 1);
    NotUsedUpSooner(schedule, attempts, nAttempts);
    WaitsAreSchedule(schedule, attempts, waits, Base(attempts, nAttempts - 1));
  }

  /** The attempt that uses up the schedule is the first to do so. */
  lemma NotUsedUpSooner(schedule: seq<nat>, attempts: Attempts, nAttempts: nat)
    requires 0 < nAttempts && GoesOn(schedule, attempts, nAttempts)
    requires UsedUp(attempts, |schedule|, nAttempts - 1)
    ensures nAttempts == Base(attempts, nAttempts - 1) + 1 + |schedule|
  {
    var last := Base(attempts, nAttempts - 1);
    if last < nAttempts - 1 {
      BaseIsLast(attempts, nAttempts - 1);
      BaseStays(attempts, last, nAttempts - 2);
      assert !UsedUp(attempts, |schedule|, nAttempts - 2);
    }
  }

  lemma {:induction false} BaseStays(attempts: Attempts, b: nat, i: nat)
    requires b <= i && (b == 0 || attempts(b).hadSuccessfulRead)
    requires forall j :: b < j <= i ==> !attempts(j).hadSuccessfulRead
    ensures Base(attempts, i) == b
  {
    if b < i {
      BaseStays(attempts, b, i - 1);
    }
  }

  // ---------------------------------------------------------------- runs that end and runs that do not

  lemma CounterByBase(attempts: Attempts, i: nat)
    ensures Counter(attempts, i) == if i == 0 then -1 else i - 1 - Base(attempts, i - 1)
  {
    if i > 0 {
      CounterByBase(attempts, i - 1);
    }
  }

  /** In every run, ending or not, the index into the schedule is in range whenever the loop goes on. */
  lemma IndexStaysInRange(schedule: seq<nat>, attempts: Attempts, i: nat)
    requires i > 0 && GoesOn(schedule, attempts, i + 1)
    ensures 0 <= Counter(attempts, i) < |schedule|
  {
    CounterByBase(attempts, i);
    assert !UsedUp(attempts, |schedule|, i - 1);
  }

  /** The loop ends when finally no attempt delivers a packet. */
  lemma SilenceEndsTheLoop(schedule: seq<nat>, attempts: Attempts, running: Flag, from: nat)
    requires forall i :: i >= from ==> !attempts(i).hadSuccessfulRead
    ensures EndsBy(schedule, attempts, running, from + |schedule|)
  {
    BaseIsLast(attempts, from + |schedule|);
  }

  /** One of the n attempts up to i delivered a packet. */
  ghost predicate DeliversWithin(attempts: Attempts, n: nat, i: nat) {
    exists j: nat :: i - n < j <= i && attempts(j).hadSuccessfulRead
  }

  lemma NotUsedUpIff(attempts: Attempts, n: nat, i: nat)
    requires n > 0
    ensures !UsedUp(attempts, n, i) <==> (i < n || DeliversWithin(attempts, n, i))
  {
    BaseIsLast(attempts, i);
    var b := Base(attempts, i);
    if i >= n && !UsedUp(attempts, n, i) {
      assert attempts(b).hadSuccessfulRead;
    }
  }

  /** Nothing ever ends the loop exactly when the flag stays set, no attempt ends with any other error, the
      schedule is not empty and, from its length on, every so many consecutive attempts contain one that
      delivers. */
  lemma EndlessIff(schedule: seq<nat>, attempts: Attempts, running: Flag)
    ensures (forall i :: !EndsBy(schedule, attempts, running, i))
            <==> && schedule != []
                 && (forall i :: running(i) && !attempts(i).status.OtherError?)
                 && (forall i :: i >= |schedule| ==> DeliversWithin(attempts, |schedule|, i))
  {
    if schedule == [] {
      assert EndsBy(schedule, attempts, running, 0);
    } else {
      forall i: nat
        ensures EndsBy(schedule, attempts, running, i)
                <==> || !running(i) || attempts(i).status.OtherError?
                     || (i >= |schedule| && !DeliversWithin(attempts, |schedule|, i))
      {
        NotUsedUpIff(attempts, |schedule|, i);
      }
    }
  }
}
