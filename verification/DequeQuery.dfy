/**
 Range queries: the shape of every answer, when an answer is exactly the overlapping packets, and
 when the early exit of the copy loop makes a difference.
 */
module DequeQuery {
  import opened Deque
  import DequeAdd

  // ---------------------------------------------------------------- any deque

  /** What the answer holds on any sorted deque.  Before it: only packets that start before the range.
      After its first packet: only packets that start in the range.  A packet that starts in the range
      and is left out lies after a returned packet that already reaches the end of the range. */
  lemma AnswerOnSortedDeque(q: seq<PacketTime>, s: int, e: int)
    requires Sorted(q) && WellTimed(q) && s <= e && Answers(q, s)
    ensures forall i :: 0 <= i < Low(q, s) ==> q[i].startTime < s
    ensures forall i :: Low(q, s) < i < High(q, s, e) ==> s <= q[i].startTime <= e
    ensures forall i :: Low(q, s) <= i < High(q, s, e) - 1 ==> q[i].endTime < e
    ensures forall i :: High(q, s, e) <= i < |q| && q[i].startTime <= e ==> e <= q[High(q, s, e) - 1].endTime
    ensures forall i :: Low(q, s) <= i < High(q, s, e) ==> s <= q[i].endTime
    ensures Low(q, s) < High(q, s, e) <= |q| && Answer(q, s, e) == q[Low(q, s)..High(q, s, e)]
  {
    var lo, hi := Low(q, s), High(q, s, e);
    forall i | 0 <= i < lo ensures q[i].startTime < s {
      assert !Anchor(q, s, i);
    }
    forall i | lo < i < hi
      ensures s <= q[i].startTime <= e
    {
      assert !Closes(q, e, i);
      assert q[lo + 1].startTime <= q[i].startTime;
      assert q[lo].startTime <= q[lo + 1].startTime;
    }
    forall i | lo <= i < hi - 1 ensures q[i].endTime < e {
      assert !Closes(q, e, i + 1);
    }
    assert Closes(q, e, hi);
    forall i | hi <= i < |q| && q[i].startTime <= e
      ensures e <= q[hi - 1].endTime
    {
      assert q[hi].startTime <= q[i].startTime;
    }
  }

  /** The packets from lo up to hi answer a query.  They begin with the first packet that starts at or after
      the query, or with the one before it if that one still runs and the query falls between their starts.
      The others start in the range.  They end with the first that reaches the end of the range, or before
      the first that starts after the range, or with the newest packet. */
  predicate AnswersFromTo(q: seq<PacketTime>, s: int, e: int, lo: nat, hi: nat) {
    && lo < hi <= |q|
    && (forall i :: 0 <= i < lo ==> q[i].startTime < s)
    && s <= q[lo].endTime
    && (q[lo].startTime < s ==> lo + 1 < |q| && s < q[lo + 1].startTime)
    && (lo > 0 && s < q[lo].startTime ==> q[lo - 1].endTime < s)
    && (forall i :: lo < i < hi ==> s <= q[i].startTime <= e)
    && (forall i :: lo <= i < hi - 1 ==> q[i].endTime < e)
    && (hi < |q| ==> e < q[hi].startTime || e <= q[hi - 1].endTime)
  }

  /** There is an answer, if the query starts no later than the newest packet; and it is no other than this. */
  lemma AnswerIsFromTo(q: seq<PacketTime>, s: int, e: int)
    requires Sorted(q) && WellTimed(q) && s <= e
    ensures Answer(q, s, e) == [] <==> q == [] || q[|q| - 1].startTime < s
    ensures Answer(q, s, e) != [] ==>
              exists lo: nat, hi: nat :: AnswersFromTo(q, s, e, lo, hi) && Answer(q, s, e) == q[lo..hi]
    ensures forall lo: nat, hi: nat :: AnswersFromTo(q, s, e, lo, hi) ==> Answer(q, s, e) == q[lo..hi]
  {
    if Answers(q, s) {
      AnswerOnSortedDeque(q, s, e);
      var lo, hi := Low(q, s), High(q, s, e);
      assert Anchor(q, s, lo) && Closes(q, e, hi) && (lo > 0 ==> !Anchor(q, s, lo - 1));
      assert AnswersFromTo(q, s, e, lo, hi);
    }
    forall lo: nat, hi: nat | AnswersFromTo(q, s, e, lo, hi) ensures Answer(q, s, e) == q[lo..hi] {
      OnlyOneAnswer(q, s, e, lo, hi);
    }
  }

  lemma OnlyOneAnswer(q: seq<PacketTime>, s: int, e: int, lo: nat, hi: nat)
    requires Sorted(q) && WellTimed(q) && s <= e && AnswersFromTo(q, s, e, lo, hi)
    ensures Answer(q, s, e) == q[lo..hi]
  {
    assert Answers(q, s);
    LowIs(q, s, if q[lo].startTime < s then lo + 1 else lo, lo);
    HighIs(q, s, e, hi);
  }

  lemma HighIs(q: seq<PacketTime>, s: int, e: int, hi: nat)
    requires Answers(q, s) && Low(q, s) < hi <= |q| && Closes(q, e, hi)
    requires forall i :: Low(q, s) < i < hi ==> q[i].startTime <= e
    requires forall i :: Low(q, s) <= i < hi - 1 ==> q[i].endTime < e
    ensures High(q, s, e) == hi
  {
    forall i | Low(q, s) < i < hi ensures !Closes(q, e, i) {
    }
  }

  /** A packet that starts in the range and is not returned lies behind a returned one that reaches the end. */
  lemma LeftOutOnlyBehindTheEnd(q: seq<PacketTime>, s: int, e: int, i: nat)
    requires Sorted(q) && WellTimed(q) && s <= e && i < |q| && s <= q[i].startTime <= e
    ensures q[i] in Answer(q, s, e)
            || exists k :: 0 <= k < i && q[k] in Answer(q, s, e) && e <= q[k].endTime
  {
    AnswerOnSortedDeque(q, s, e);
    var lo, hi := Low(q, s), High(q, s, e);
    if lo <= i < hi {
      assert q[lo..hi][i - lo] == q[i];
    } else {
      assert q[lo..hi][hi - 1 - lo] == q[hi - 1];
      assert hi <= i;
    }
  }

  /** The two bounds of the copy: the second is never before the first, and they meet exactly when
      no packet starts early enough to be in the range. */
  lemma BoundsAreOrdered(q: seq<PacketTime>, s: int, e: int)
    requires Sorted(q) && s <= e && Answers(q, s)
    ensures Low(q, s) <= Position(q, e)
    ensures Low(q, s) == Position(q, e) <==> e < q[Low(q, s)].startTime
  {
    var lo := Low(q, s);
    forall i | 0 <= i < lo ensures q[i].startTime < s {
      assert !Anchor(q, s, i);
    }
    var bound := Position(q, e);
    assert bound < |q| ==> e < q[bound].startTime;
  }

  /** The copy planned between the two bounds is not cut short exactly when no packet before the last
      of it reaches the end of the range. */
  predicate CopyIsWhole(q: seq<PacketTime>, s: int, e: int)
    requires Sorted(q) && Answers(q, s)
  {
    forall i :: Low(q, s) <= i < Position(q, e) - 1 ==> q[i].endTime < e
  }

  lemma EarlyExitIff(q: seq<PacketTime>, s: int, e: int)
    requires Sorted(q) && s <= e && Answers(q, s)
    requires Low(q, s) < Position(q, e)
    ensures |Answer(q, s, e)| == Position(q, e) - Low(q, s) <==> CopyIsWhole(q, s, e)
    ensures |Answer(q, s, e)| <= Position(q, e) - Low(q, s)
  {
    var lo, hi, bound := Low(q, s), High(q, s, e), Position(q, e);
    assert Closes(q, e, bound);
    assert hi <= bound;
    if hi < bound {
      assert Closes(q, e, hi);
      assert e <= q[hi - 1].endTime;
    } else {
      forall i | lo <= i < bound - 1 ensures q[i].endTime < e {
        assert !Closes(q, e, i + 1);
      }
    }
  }

  // ---------------------------------------------------------------- gapped deques

  /** Every packet ends before the next one starts. */
  predicate Gapped(q: seq<PacketTime>) {
    && WellTimed(q)
    && forall i, j :: 0 <= i < j < |q| ==> q[i].endTime < q[j].startTime
  }

  lemma GappedIsSorted(q: seq<PacketTime>)
    requires Gapped(q)
    ensures Sorted(q)
  {
  }

  /** On a gapped deque the loop never exits early, so what was planned is what is returned. */
  lemma NoEarlyExitWhenGapped(q: seq<PacketTime>, s: int, e: int)
    requires Gapped(q) && s <= e && Answers(q, s)
    ensures Sorted(q) && CopyIsWhole(q, s, e)
  {
    GappedIsSorted(q);
    forall i | Low(q, s) <= i < Position(q, e) - 1 ensures q[i].endTime < e {
      assert q[i].endTime < q[i + 1].startTime <= e;
    }
  }

  /** Overlapping packets that stand next to each other are a slice. */
  lemma {:induction false} OverlappingIsSlice(q: seq<PacketTime>, s: int, e: int, lo: nat, hi: nat)
    requires lo <= hi <= |q|
    requires forall i :: 0 <= i < |q| ==> (Overlaps(q[i], s, e) <==> lo <= i < hi)
    ensures Overlapping(q, s, e) == q[lo..hi]
  {
    if q != [] {
      var front := q[..|q| - 1];
      if hi == |q| && lo < hi {
        OverlappingIsSlice(front, s, e, lo, hi - 1);
        assert q[lo..hi] == front[lo..hi - 1] + [q[|q| - 1]];
      } else {
        var hi' := if hi == |q| then hi - 1 else hi;
        var lo' := if lo == |q| then lo - 1 else lo;
        assert !Overlaps(q[|q| - 1], s, e);
        OverlappingIsSlice(front, s, e, lo', hi');
        assert q[lo..hi] == front[lo'..hi'];
      }
    }
  }

  lemma NothingOverlapsBefore(q: seq<PacketTime>, s: int, i: nat)
    requires Gapped(q) && Sorted(q) && Answers(q, s) && i < Low(q, s)
    ensures q[i].endTime < s
  {
    assert !Anchor(q, s, i);
    assert q[i].endTime < q[i + 1].startTime;
    assert q[i].startTime < s && q[i + 1].startTime <= q[Low(q, s)].startTime;
    if i + 1 < Low(q, s) {
      assert !Anchor(q, s, i + 1);
    }
  }

  lemma NothingOverlapsAfter(q: seq<PacketTime>, s: int, e: int, i: nat)
    requires Gapped(q) && Sorted(q) && Answers(q, s) && High(q, s, e) <= i < |q|
    ensures e < q[i].startTime
  {
  }

  lemma NextPacketStandsAlone(q: seq<PacketTime>, s: int, e: int)
    requires Sorted(q) && Answers(q, s) && e < q[Low(q, s)].startTime
    ensures High(q, s, e) == Low(q, s) + 1
  {
  }

  /** Which packets of a gapped deque an answer holds. */
  lemma AnswerOnGappedDeque(q: seq<PacketTime>, s: int, e: int)
    requires Gapped(q) && Sorted(q) && s <= e && Answers(q, s)
    ensures forall i :: 0 <= i < |q| ==>
              (Overlaps(q[i], s, e) <==> Low(q, s) <= i < High(q, s, e) && q[Low(q, s)].startTime <= e)
  {
    var lo, hi := Low(q, s), High(q, s, e);
    AnswerOnSortedDeque(q, s, e);
    forall i | 0 <= i < |q|
      ensures Overlaps(q[i], s, e) <==> lo <= i < hi && q[lo].startTime <= e
    {
      if i < lo {
        NothingOverlapsBefore(q, s, i);
      } else if i < hi {
        assert lo < i ==> q[lo].startTime <= q[i].startTime;
      } else {
        NothingOverlapsAfter(q, s, e, i);
      }
    }
  }

  /** The one packet returned when nothing overlaps: the first to start after the range. */
  predicate IsNext(q: seq<PacketTime>, s: int, e: int, p: PacketTime) {
    exists k :: 0 <= k < |q| && q[k] == p && e < p.startTime && forall i :: 0 <= i < k ==> q[i].endTime < s
  }

  /** The answer is exact: for a query that starts no later than the newest packet, the overlapping
      packets in order, or the single next packet when none overlaps; for a later one, nothing. */
  predicate AnswersExactly(q: seq<PacketTime>, s: int, e: int) {
    var r := Answer(q, s, e);
    if !Answers(q, s) then r == []
    else if Overlapping(q, s, e) == [] then |r| == 1 && IsNext(q, s, e, r[0])
    else r == Overlapping(q, s, e)
  }

  /** On a gapped deque every answer is exact. */
  lemma AnswerIsExact(q: seq<PacketTime>, s: int, e: int)
    requires Gapped(q) && s <= e && Answers(q, s)
    ensures AnswersExactly(q, s, e)
  {
    GappedIsSorted(q);
    var lo, hi := Low(q, s), High(q, s, e);
    AnswerOnGappedDeque(q, s, e);
    if q[lo].startTime <= e {
      OverlappingIsSlice(q, s, e, lo, hi);
    } else {
      OverlappingIsSlice(q, s, e, 0, 0);
      NextPacketStandsAlone(q, s, e);
      forall i | 0 <= i < lo ensures q[i].endTime < s {
        NothingOverlapsBefore(q, s, i);
      }
      assert q[lo] == Answer(q, s, e)[0];
    }
  }

  lemma OverlappingMembers(q: seq<PacketTime>, s: int, e: int)
    ensures Overlapping(q, s, e) == [] <==> forall i :: 0 <= i < |q| ==> !Overlaps(q[i], s, e)
  {
  }

  /** When a query on a gapped deque is answered by exactly the overlapping packets: the deque is
      empty, or the query starts no later than the newest packet and something overlaps it, or it
      starts after all stored data.  The failures are a query starting inside the newest packet, which
      returns nothing, and one that falls into a gap, which returns the next packet. */
  lemma ExactIffWhenGapped(q: seq<PacketTime>, s: int, e: int)
    requires Gapped(q) && s <= e
    ensures Answer(q, s, e) == Overlapping(q, s, e)
            <==> || q == []
                 || (s <= q[|q| - 1].startTime && exists i :: 0 <= i < |q| && Overlaps(q[i], s, e))
                 || q[|q| - 1].endTime < s
  {
    OverlappingMembers(q, s, e);
    if Answers(q, s) {
      AnswerIsExact(q, s, e);
    } else if q != [] {
      var last := q[|q| - 1];
      if last.endTime < s {
        forall i | 0 <= i < |q| ensures !Overlaps(q[i], s, e) {
          assert i < |q| - 1 ==> q[i].endTime < last.startTime;
        }
      } else {
        assert Overlaps(last, s, e);
      }
    }
  }

  // ---------------------------------------------------------------- exactness on any deque

  /** How many packets start before a time; times are whole nanoseconds. */
  function Before(q: seq<PacketTime>, t: int): nat {
    Position(q, t - 1)
  }

  /** Where the answer begins, by a first packet that starts at or after the query. */
  lemma LowIs(q: seq<PacketTime>, s: int, first: nat, lo: nat)
    requires Sorted(q) && Answers(q, s) && first < |q|
    requires forall i :: 0 <= i < first ==> q[i].startTime < s
    requires forall i :: first <= i < |q| ==> s <= q[i].startTime
    requires lo == if first > 0 && s < q[first].startTime && s <= q[first - 1].endTime then first - 1 else first
    ensures Low(q, s) == lo
  {
    assert Anchor(q, s, lo);
    forall i | 0 <= i < lo ensures !Anchor(q, s, i) {
    }
  }

  lemma {:induction false} OverlappingAppends(a: seq<PacketTime>, b: seq<PacketTime>, s: int, e: int)
    ensures Overlapping(a + b, s, e) == Overlapping(a, s, e) + Overlapping(b, s, e)
  {
    if b == [] {
      assert a + b == a;
    } else {
      assert (a + b)[..|a + b| - 1] == a + b[..|b| - 1];
      OverlappingAppends(a, b[..|b| - 1], s, e);
    }
  }

  lemma {:induction false} OverlappingOnly(q: seq<PacketTime>, s: int, e: int)
    ensures forall p <- Overlapping(q, s, e) :: Overlaps(p, s, e)
  {
    if q != [] {
      OverlappingOnly(q[..|q| - 1], s, e);
    }
  }

  lemma OverlappingAround(q: seq<PacketTime>, s: int, e: int, lo: nat, hi: nat)
    requires lo <= hi <= |q|
    requires forall i :: lo <= i < hi ==> Overlaps(q[i], s, e)
    ensures Overlapping(q, s, e) == Overlapping(q[..lo], s, e) + q[lo..hi] + Overlapping(q[hi..], s, e)
  {
    var a, b, c := q[..lo], q[lo..hi], q[hi..];
    assert q == a + b + c;
    OverlappingAppends(a + b, c, s, e);
    OverlappingAppends(a, b, s, e);
    assert b[0..|b|] == b;
    OverlappingIsSlice(b, s, e, 0, |b|);
  }

  lemma MiddleAlone(a: seq<PacketTime>, b: seq<PacketTime>, c: seq<PacketTime>)
    ensures b == a + b + c <==> a == [] && c == []
  {
    assert |a + b + c| == |a| + |b| + |c|;
  }

  /** A slice of overlapping packets is all of them exactly when none overlaps before or after it. */
  lemma SliceIsOverlappingIff(q: seq<PacketTime>, s: int, e: int, lo: nat, hi: nat)
    requires lo <= hi <= |q|
    requires forall i :: lo <= i < hi ==> Overlaps(q[i], s, e)
    ensures q[lo..hi] == Overlapping(q, s, e)
            <==> (forall i :: 0 <= i < lo ==> !Overlaps(q[i], s, e))
                 && (forall i :: hi <= i < |q| ==> !Overlaps(q[i], s, e))
  {
    OverlappingAround(q, s, e, lo, hi);
    MiddleAlone(Overlapping(q[..lo], s, e), q[lo..hi], Overlapping(q[hi..], s, e));
    NoneOverlaps(q, s, e, 0, lo);
    NoneOverlaps(q, s, e, hi, |q|);
    assert q[0..lo] == q[..lo] && q[hi..|q|] == q[hi..];
  }

  lemma NoneOverlaps(q: seq<PacketTime>, s: int, e: int, lo: nat, hi: nat)
    requires lo <= hi <= |q|
    ensures Overlapping(q[lo..hi], s, e) == [] <==> forall i :: lo <= i < hi ==> !Overlaps(q[i], s, e)
  {
    OverlappingMembers(q[lo..hi], s, e);
    forall i | lo <= i < hi ensures q[i] == q[lo..hi][i - lo] {
    }
  }

  /** An answer is exactly the overlapping packets when its first packet starts in time, no packet before
      it still runs, and no packet after it starts in the range. */
  lemma ExactByBounds(q: seq<PacketTime>, s: int, e: int)
    requires Sorted(q) && WellTimed(q) && s <= e && Answers(q, s)
    ensures Answer(q, s, e) == Overlapping(q, s, e)
            <==> && q[Low(q, s)].startTime <= e
                 && (forall i :: 0 <= i < Low(q, s) ==> q[i].endTime < s)
                 && (forall i :: High(q, s, e) <= i < |q| ==> e < q[i].startTime)
  {
    var lo, hi := Low(q, s), High(q, s, e);
    if q[lo].startTime <= e {
      AnswerOverlaps(q, s, e);
      SliceIsOverlappingIff(q, s, e, lo, hi);
      OnlyStartsDecideAfter(q, s, e);
    } else {
      NextPacketDoesNotOverlap(q, s, e);
    }
  }

  lemma AnswerOverlaps(q: seq<PacketTime>, s: int, e: int)
    requires Sorted(q) && WellTimed(q) && s <= e && Answers(q, s) && q[Low(q, s)].startTime <= e
    ensures forall i :: Low(q, s) <= i < High(q, s, e) ==> Overlaps(q[i], s, e)
  {
    AnswerOnSortedDeque(q, s, e);
  }

  lemma NextPacketDoesNotOverlap(q: seq<PacketTime>, s: int, e: int)
    requires Answers(q, s) && e < q[Low(q, s)].startTime
    ensures Answer(q, s, e) != Overlapping(q, s, e)
  {
    OverlappingOnly(q, s, e);
    var p := q[Low(q, s)];
    assert !Overlaps(p, s, e);
    assert p !in Overlapping(q, s, e);
    assert p == Answer(q, s, e)[0];
  }

  /** Before the answer packets overlap when they still run, after it when they start in time. */
  lemma OnlyStartsDecideAfter(q: seq<PacketTime>, s: int, e: int)
    requires Sorted(q) && WellTimed(q) && s <= e && Answers(q, s)
    ensures forall i :: 0 <= i < Low(q, s) ==> (Overlaps(q[i], s, e) <==> s <= q[i].endTime)
    ensures forall i :: High(q, s, e) <= i < |q| ==> (Overlaps(q[i], s, e) <==> q[i].startTime <= e)
  {
    AnswerOnSortedDeque(q, s, e);
    var lo, hi := Low(q, s), High(q, s, e);
    forall i | hi <= i < |q| ensures s <= q[i].endTime {
      assert q[lo].startTime <= q[i].startTime && q[lo + 1].startTime <= q[i].startTime;
      assert Anchor(q, s, lo);
    }
  }

  /** When an answer is exact, in terms of the first packet f that starts at or after the query, if there
      is one: that packet starts in the range or the one before it still runs; of the packets before f
      only the last may still run, and not even that one when f starts at the very instant of the query;
      and of the packets that start by the end of the range only the last may reach that end. */
  predicate ExactlyAnswerable(q: seq<PacketTime>, s: int, e: int) {
    var f := Before(q, s);
    if f == |q| then forall i :: 0 <= i < |q| ==> q[i].endTime < s
    else
      && (q[f].startTime <= e || (f > 0 && s <= q[f - 1].endTime))
      && (forall i :: 0 <= i < f - 1 ==> q[i].endTime < s)
      && (f > 0 && q[f].startTime == s ==> q[f - 1].endTime < s)
      && (forall i :: 0 <= i < Position(q, e) - 1 ==> q[i].endTime < e)
  }

  /** The exact condition for the answer to be the overlapping packets, on any sorted deque. */
  lemma ExactIff(q: seq<PacketTime>, s: int, e: int)
    requires Sorted(q) && WellTimed(q) && s <= e
    ensures Answer(q, s, e) == Overlapping(q, s, e) <==> ExactlyAnswerable(q, s, e)
  {
    if Before(q, s) < |q| {
      assert q[Before(q, s)].startTime <= q[|q| - 1].startTime;
      ExactByBounds(q, s, e);
      ConditionsByFirstStart(q, s, e);
    } else {
      OverlappingMembers(q, s, e);
    }
  }

  lemma ConditionsByFirstStart(q: seq<PacketTime>, s: int, e: int)
    requires Sorted(q) && WellTimed(q) && s <= e && Answers(q, s) && Before(q, s) < |q|
    ensures ExactlyAnswerable(q, s, e)
            <==> && q[Low(q, s)].startTime <= e
                 && (forall i :: 0 <= i < Low(q, s) ==> q[i].endTime < s)
                 && (forall i :: High(q, s, e) <= i < |q| ==> e < q[i].startTime)
  {
    var f := Before(q, s);
    var lo := if f > 0 && s < q[f].startTime && s <= q[f - 1].endTime then f - 1 else f;
    LowIs(q, s, f, lo);
    if q[lo].startTime <= e && forall i :: 0 <= i < lo ==> q[i].endTime < s {
      LastConditions(q, s, e, f, lo);
    }
  }

  lemma LastConditions(q: seq<PacketTime>, s: int, e: int, f: nat, lo: nat)
    requires Sorted(q) && WellTimed(q) && s <= e && Answers(q, s) && f == Before(q, s) < |q|
    requires lo == if f > 0 && s < q[f].startTime && s <= q[f - 1].endTime then f - 1 else f
    requires lo == Low(q, s) && q[lo].startTime <= e
    requires forall i :: 0 <= i < lo ==> q[i].endTime < s
    ensures (forall i :: High(q, s, e) <= i < |q| ==> e < q[i].startTime)
            <==> (forall i :: 0 <= i < Position(q, e) - 1 ==> q[i].endTime < e)
  {
    BoundsAreOrdered(q, s, e);
    EarlyExitIff(q, s, e);
    var hi, bound := High(q, s, e), Position(q, e);
    assert hi < bound ==> q[hi].startTime <= e;
    assert CopyIsWhole(q, s, e) <==> hi == bound;
  }

  // ---------------------------------------------------------------- whole runs

  predicate SameInterval(p: PacketTime, r: PacketTime) {
    p.startTime == r.startTime && p.endTime == r.endTime
  }

  /** Packets of positive length on pairwise disjoint intervals.  An interval may be sent again with
      another payload. */
  ghost predicate DisjointFamily(family: iset<PacketTime>) {
    && (forall p :: p in family ==> p.startTime < p.endTime)
    && (forall p, r :: p in family && r in family ==>
          SameInterval(p, r) || p.endTime < r.startTime || r.endTime < p.startTime)
  }

  ghost predicate DrawnFrom(events: seq<DequeAdd.Event>, family: iset<PacketTime>) {
    forall e <- events :: e.Add? ==> e.x in family
  }

  ghost predicate Within(q: seq<PacketTime>, family: iset<PacketTime>) {
    forall p <- q :: p in family
  }

  /** Whatever was retained of a disjoint family is gapped. */
  lemma RetainedIsGapped(q: seq<PacketTime>, capacity: nat, family: iset<PacketTime>)
    requires Consistent(q, capacity) && Within(q, family) && DisjointFamily(family)
    ensures Gapped(q)
  {
  }

  lemma AddedStaysWithin(q: seq<PacketTime>, x: PacketTime, capacity: nat, family: iset<PacketTime>)
    requires Sorted(q) && Within(q, family) && x in family
    ensures Within(Added(q, x, capacity), family)
  {
  }

  lemma {:induction false} RunStaysWithin(events: seq<DequeAdd.Event>, capacity: nat, family: iset<PacketTime>)
    requires DrawnFrom(events, family) && DequeAdd.TimedEvents(events)
    ensures Within(DequeAdd.Run(events, capacity), family)
  {
    if events != [] {
      var front, last := events[..|events| - 1], events[|events| - 1];
      RunStaysWithin(front, capacity, family);
      var q := DequeAdd.Run(front, capacity);
      match last {
        case Add(x) => AddedStaysWithin(q, x, capacity, family);
        case Expire(t) => DequeAdd.ExpiredMembers(q, t);
      }
    }
  }

  lemma DrawnEventsAreTimed(events: seq<DequeAdd.Event>, family: iset<PacketTime>)
    requires DrawnFrom(events, family) && DisjointFamily(family)
    ensures DequeAdd.TimedEvents(events)
  {
  }

  /** After any run of additions (in any order, with repeats of an interval under the same or another
      payload) and expiries over a disjoint family, every query that starts no later than the newest
      retained packet returns exactly the retained packets that overlap it, in order, or the single next
      packet when none does; and the debug assertion on the copied length holds. */
  lemma EveryRunAnswersExactly(events: seq<DequeAdd.Event>, capacity: nat, family: iset<PacketTime>, s: int, e: int)
    requires DisjointFamily(family) && DrawnFrom(events, family) && s <= e
    ensures DequeAdd.TimedEvents(events)
    ensures var q := DequeAdd.Run(events, capacity);
            && Gapped(q) && AnswersExactly(q, s, e)
            && (Answers(q, s) ==> CopyIsWhole(q, s, e))
  {
    DrawnEventsAreTimed(events, family);
    RunStaysWithin(events, capacity, family);
    var q := DequeAdd.Run(events, capacity);
    RetainedIsGapped(q, capacity, family);
    if Answers(q, s) {
      AnswerIsExact(q, s, e);
      NoEarlyExitWhenGapped(q, s, e);
    }
  }
}
