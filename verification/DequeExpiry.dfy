/** Expiry: its algebra, and why it cannot be seen by later queries. */
module DequeExpiry {
  import opened Deque
  import opened DequeQuery
  import DequeAdd

  /** How many packets an expiry removes. */
  function Removed(q: seq<PacketTime>, oldest: int): nat {
    |q| - |Expired(q, oldest)|
  }

  lemma {:induction false} ExpiredAppends(a: seq<PacketTime>, b: seq<PacketTime>, oldest: int)
    ensures Expired(a + b, oldest) == Expired(a, oldest) + Expired(b, oldest)
  {
    if b == [] {
      assert a + b == a;
    } else {
      assert (a + b)[..|a + b| - 1] == a + b[..|b| - 1];
      ExpiredAppends(a, b[..|b| - 1], oldest);
    }
  }

  /** Exactly the packets that end before the given time go, however often they are stored. */
  lemma {:induction false} ExpiryRemovesExactly(q: seq<PacketTime>, oldest: int)
    ensures forall p :: multiset(Expired(q, oldest))[p] == if p.endTime < oldest then 0 else multiset(q)[p]
  {
    if q != [] {
      var front, last := q[..|q| - 1], q[|q| - 1];
      ExpiryRemovesExactly(front, oldest);
      assert q == front + [last];
    }
  }

  function Max(a: int, b: int): int { if a < b then b else a }

  /** Expiring twice is expiring once at the later time, and the counts add up. */
  lemma {:induction false} ExpiryComposes(q: seq<PacketTime>, a: int, b: int)
    ensures Expired(Expired(q, a), b) == Expired(q, Max(a, b))
    ensures Removed(q, a) + Removed(Expired(q, a), b) == Removed(q, Max(a, b))
  {
    if q != [] {
      var front, last := q[..|q| - 1], q[|q| - 1];
      ExpiryComposes(front, a, b);
      ExpiredAppends(Expired(front, a), if last.endTime < a then [] else [last], b);
      assert last.endTime >= a ==> Expired([last], b) == if last.endTime < b then [] else [last];
      assert last.endTime < a ==> Expired(front, a) + [] == Expired(front, a);
    }
  }

  /** End times in order; weaker than gapped. */
  predicate EndsSorted(q: seq<PacketTime>) {
    forall i, j :: 0 <= i < j < |q| ==> q[i].endTime <= q[j].endTime
  }

  lemma GappedEndsAreSorted(q: seq<PacketTime>)
    requires Gapped(q)
    ensures EndsSorted(q)
  {
  }

  lemma {:induction false} NothingExpires(q: seq<PacketTime>, oldest: int)
    requires forall i :: 0 <= i < |q| ==> q[i].endTime >= oldest
    ensures Expired(q, oldest) == q
  {
    if q != [] {
      NothingExpires(q[..|q| - 1], oldest);
    }
  }

  lemma {:induction false} EverythingExpires(q: seq<PacketTime>, oldest: int)
    requires forall i :: 0 <= i < |q| ==> q[i].endTime < oldest
    ensures Expired(q, oldest) == []
  {
    if q != [] {
      EverythingExpires(q[..|q| - 1], oldest);
    }
  }

  /** How many of the first k packets end before a time, when those come first. */
  function Prefix(q: seq<PacketTime>, oldest: int, k: nat): (r: nat)
    requires EndsSorted(q) && k <= |q|
    ensures r <= k
    ensures forall i :: 0 <= i < r ==> q[i].endTime < oldest
    ensures forall i :: r <= i < k ==> q[i].endTime >= oldest
  {
    if k == 0 || q[k - 1].endTime < oldest then k else Prefix(q, oldest, k - 1)
  }

  lemma ExpiredAt(q: seq<PacketTime>, oldest: int, k: nat)
    requires k <= |q|
    requires forall i :: 0 <= i < k ==> q[i].endTime < oldest
    requires forall i :: k <= i < |q| ==> q[i].endTime >= oldest
    ensures Expired(q, oldest) == q[k..] && Removed(q, oldest) == k
  {
    assert q == q[..k] + q[k..];
    ExpiredAppends(q[..k], q[k..], oldest);
    EverythingExpires(q[..k], oldest);
    NothingExpires(q[k..], oldest);
  }

  /** With end times in order an expiry removes a prefix. */
  lemma ExpiredIsSuffix(q: seq<PacketTime>, oldest: int)
    requires EndsSorted(q)
    ensures Expired(q, oldest) == q[Removed(q, oldest)..]
    ensures forall i :: 0 <= i < |q| ==> (q[i].endTime < oldest <==> i < Removed(q, oldest))
  {
    ExpiredAt(q, oldest, Prefix(q, oldest, |q|));
  }

  // ---------------------------------------------------------------- expiry and queries

  lemma AnchorShifts(q: seq<PacketTime>, s: int, k: nat, i: nat)
    requires k <= i < |q|
    ensures Anchor(q[k..], s, i - k) <==> Anchor(q, s, i)
  {
  }

  lemma FirstAnchorShifts(q: seq<PacketTime>, s: int, k: nat, i: nat)
    requires Answers(q, s) && k <= i < |q|
    ensures Answers(q[k..], s)
    ensures FirstAnchor(q, s, i) == FirstAnchor(q[k..], s, i - k) + k
    decreases |q| - i
  {
    AnchorShifts(q, s, k, i);
    if !Anchor(q, s, i) {
      FirstAnchorShifts(q, s, k, i + 1);
    }
  }

  predicate NoAnchorBefore(q: seq<PacketTime>, s: int, k: nat)
    requires k <= |q|
  {
    forall i :: 0 <= i < k ==> !Anchor(q, s, i)
  }

  lemma AnchorsSkip(q: seq<PacketTime>, s: int, k: nat, i: nat)
    requires Answers(q, s) && i <= k < |q| && NoAnchorBefore(q, s, k)
    ensures FirstAnchor(q, s, i) == FirstAnchor(q, s, k)
    decreases k - i
  {
    if i < k {
      AnchorsSkip(q, s, k, i + 1);
    }
  }

  lemma LowShifts(q: seq<PacketTime>, s: int, k: nat)
    requires Answers(q, s) && k < |q| && NoAnchorBefore(q, s, k)
    ensures Answers(q[k..], s) && Low(q, s) == Low(q[k..], s) + k
  {
    AnchorsSkip(q, s, k, 0);
    FirstAnchorShifts(q, s, k, k);
  }

  lemma CloseShifts(q: seq<PacketTime>, e: int, k: nat, j: nat)
    requires k < j <= |q|
    ensures Closes(q[k..], e, j - k) <==> Closes(q, e, j)
  {
  }

  lemma FirstCloseShifts(q: seq<PacketTime>, e: int, k: nat, j: nat)
    requires k < j <= |q|
    ensures FirstClose(q, e, j) == FirstClose(q[k..], e, j - k) + k
    decreases |q| - j
  {
    CloseShifts(q, e, k, j);
    if !Closes(q, e, j) {
      FirstCloseShifts(q, e, k, j + 1);
    }
  }

  lemma HighShifts(q: seq<PacketTime>, s: int, e: int, k: nat)
    requires Answers(q, s) && k < |q| && NoAnchorBefore(q, s, k)
    ensures Answers(q[k..], s)
    ensures Low(q, s) == Low(q[k..], s) + k && High(q, s, e) == High(q[k..], s, e) + k
  {
    LowShifts(q, s, k);
    FirstCloseShifts(q, e, k, Low(q, s) + 1);
  }

  lemma SliceShifts(q: seq<PacketTime>, k: nat, lo: nat, hi: nat)
    requires k + lo <= k + hi <= |q|
    ensures q[k..][lo..hi] == q[k + lo..k + hi]
  {
  }

  /** Packets before the first anchor do not matter. */
  lemma AnswerShifts(q: seq<PacketTime>, s: int, e: int, k: nat)
    requires Answers(q, s) && k < |q| && NoAnchorBefore(q, s, k)
    ensures Answer(q[k..], s, e) == Answer(q, s, e)
  {
    HighShifts(q, s, e, k);
    SliceShifts(q, k, Low(q[k..], s), High(q[k..], s, e));
  }

  /** A deque cut at the first packet that starts at or after the query. */
  predicate CutAt(early: seq<PacketTime>, late: seq<PacketTime>, s: int) {
    && late != []
    && (forall i :: 0 <= i < |early| ==> early[i].startTime < s)
    && (forall i :: 0 <= i < |late| ==> s <= late[i].startTime)
  }

  /** The packet before the cut is in the answer. */
  predicate StepsBack(early: seq<PacketTime>, late: seq<PacketTime>, s: int)
    requires late != []
  {
    early != [] && s <= early[|early| - 1].endTime && s < late[0].startTime
  }

  /** Of the packets before the cut at most the last matters. */
  lemma AnswerByCut(early: seq<PacketTime>, late: seq<PacketTime>, s: int, e: int)
    requires CutAt(early, late, s)
    ensures Answer(early + late, s, e)
            == if StepsBack(early, late, s) then Answer([early[|early| - 1]] + late, s, e) else Answer(late, s, e)
  {
    var q := early + late;
    if StepsBack(early, late, s) {
      assert q[|early| - 1..] == [early[|early| - 1]] + late;
      AnswerShifts(q, s, e, |early| - 1);
    } else {
      assert q[|early|..] == late;
      AnswerShifts(q, s, e, |early|);
    }
  }

  /** The first packet of the answer. */
  lemma AnswerStarts(early: seq<PacketTime>, late: seq<PacketTime>, s: int, e: int)
    requires CutAt(early, late, s)
    ensures Answer(early + late, s, e) != []
    ensures Answer(early + late, s, e)[0]
            == if StepsBack(early, late, s) then early[|early| - 1] else late[0]
  {
    AnswerByCut(early, late, s, e);
    if StepsBack(early, late, s) {
      var r := [early[|early| - 1]] + late;
      assert Anchor(r, s, 0);
    } else {
      assert Anchor(late, s, 0);
    }
  }

  /** An expiry at time oldest leaves a deque that can be cut alike, with the same packets after the cut. */
  lemma ExpiredCut(early: seq<PacketTime>, late: seq<PacketTime>, oldest: int, s: int)
    requires CutAt(early, late, s) && WellTimed(late) && oldest <= s
    ensures Expired(early + late, oldest) == Expired(early, oldest) + late
    ensures CutAt(Expired(early, oldest), late, s)
  {
    ExpiredAppends(early, late, oldest);
    NothingExpires(late, oldest);
    DequeAdd.ExpiredMembers(early, oldest);
    forall i | 0 <= i < |Expired(early, oldest)| ensures Expired(early, oldest)[i].startTime < s {
      assert Expired(early, oldest)[i] in early;
    }
  }

  /** Packet f hides an earlier packet from queries at the expiry time: the packet right before f is over,
      while one further back still runs, and f starts later. */
  predicate Hides(q: seq<PacketTime>, oldest: int, f: nat) {
    && 2 <= f < |q|
    && q[f - 1].endTime < oldest < q[f].startTime
    && exists j :: 0 <= j < f - 1 && oldest <= q[j].endTime
  }

  /** A packet before the cut survives although the last one does not: it was hidden. */
  lemma SurvivorWasHidden(early: seq<PacketTime>, late: seq<PacketTime>, oldest: int)
    requires late != [] && early != [] && early[|early| - 1].endTime < oldest < late[0].startTime
    requires Expired(early, oldest) != []
    ensures Hides(early + late, oldest, |early|)
  {
    var q := early + late;
    DequeAdd.ExpiredMembers(early, oldest);
    assert Expired(early, oldest)[0] in early;
    var j :| 0 <= j < |early| && early[j] == Expired(early, oldest)[0];
    assert q[|early| - 1] == early[|early| - 1] && q[|early|] == late[0] && q[j] == early[j];
  }

  /** Without hiding the step back finds the same packet before and after an expiry, or none. */
  lemma SameStepBack(early: seq<PacketTime>, late: seq<PacketTime>, oldest: int, s: int)
    requires CutAt(early, late, s) && oldest <= s && !Hides(early + late, oldest, |early|)
    ensures var left := Expired(early, oldest);
            && (StepsBack(left, late, s) <==> StepsBack(early, late, s))
            && (StepsBack(early, late, s) ==> left[|left| - 1] == early[|early| - 1])
  {
    if early != [] && early[|early| - 1].endTime < oldest && Expired(early, oldest) != [] && s < late[0].startTime {
      SurvivorWasHidden(early, late, oldest);
    }
  }

  lemma InvisibleAtCut(early: seq<PacketTime>, late: seq<PacketTime>, oldest: int, s: int, e: int)
    requires CutAt(early, late, s) && WellTimed(late) && oldest <= s && !Hides(early + late, oldest, |early|)
    ensures Answer(Expired(early + late, oldest), s, e) == Answer(early + late, s, e)
  {
    ExpiredCut(early, late, oldest, s);
    SameStepBack(early, late, oldest, s);
    AnswerByCut(early, late, s, e);
    AnswerByCut(Expired(early, oldest), late, s, e);
  }

  lemma InvisibleWithoutHiding(q: seq<PacketTime>, oldest: int, s: int, e: int)
    requires Sorted(q) && WellTimed(q) && oldest <= s
    requires forall f :: !Hides(q, oldest, f)
    ensures Answer(Expired(q, oldest), s, e) == Answer(q, s, e)
  {
    var f := Before(q, s);
    if f == |q| {
      LateQueriesStayUnanswered(q, oldest, s);
    } else {
      assert q == q[..f] + q[f..];
      InvisibleAtCut(q[..f], q[f..], oldest, s, e);
    }
  }

  lemma LateQueriesStayUnanswered(q: seq<PacketTime>, oldest: int, s: int)
    requires forall i :: 0 <= i < |q| ==> q[i].startTime < s
    ensures !Answers(q, s) && !Answers(Expired(q, oldest), s)
  {
    var r := Expired(q, oldest);
    DequeAdd.ExpiredMembers(q, oldest);
    assert r != [] ==> r[|r| - 1] in q;
  }

  lemma LastSurvivor(early: seq<PacketTime>, oldest: int, j: nat)
    requires j < |early| && oldest <= early[j].endTime
    ensures var left := Expired(early, oldest);
            left != [] && left[|left| - 1] in early && oldest <= left[|left| - 1].endTime
  {
    var left := Expired(early, oldest);
    DequeAdd.ExpiredMembers(early, oldest);
    assert early[j] in left;
    assert left[|left| - 1] in left;
  }

  lemma HiddenAtCut(early: seq<PacketTime>, late: seq<PacketTime>, oldest: int, j: nat)
    requires CutAt(early, late, oldest) && WellTimed(late) && oldest < late[0].startTime
    requires j < |early| && oldest <= early[j].endTime && early[|early| - 1].endTime < oldest
    ensures Answer(Expired(early + late, oldest), oldest, oldest) != Answer(early + late, oldest, oldest)
  {
    ExpiredCut(early, late, oldest, oldest);
    LastSurvivor(early, oldest, j);
    AnswerStarts(early, late, oldest, oldest);
    AnswerStarts(Expired(early, oldest), late, oldest, oldest);
  }

  /** A hidden packet appears in the answer to the query at the instant of the expiry. */
  lemma HiddenPacketAppears(q: seq<PacketTime>, oldest: int, f: nat)
    requires Sorted(q) && WellTimed(q) && Hides(q, oldest, f)
    ensures Answer(Expired(q, oldest), oldest, oldest) != Answer(q, oldest, oldest)
  {
    var j :| 0 <= j < f - 1 && oldest <= q[j].endTime;
    forall i | 0 <= i < f ensures q[i].startTime < oldest {
      assert q[i].startTime <= q[f - 1].startTime;
    }
    assert q == q[..f] + q[f..];
    HiddenAtCut(q[..f], q[f..], oldest, j);
  }

  /** The exact condition for later queries not to see an expiry: every query that starts no earlier than
      the expiry time gets the same answer, empty and single-packet answers included, if and only if no
      packet hides an earlier one at that time. */
  lemma ExpiryIsInvisibleIff(q: seq<PacketTime>, oldest: int)
    requires Sorted(q) && WellTimed(q)
    ensures (forall s, e :: oldest <= s <= e ==> Answer(Expired(q, oldest), s, e) == Answer(q, s, e))
            <==> forall f :: !Hides(q, oldest, f)
  {
    if f :| Hides(q, oldest, f) {
      HiddenPacketAppears(q, oldest, f);
    } else {
      forall s, e | oldest <= s <= e ensures Answer(Expired(q, oldest), s, e) == Answer(q, s, e) {
        InvisibleWithoutHiding(q, oldest, s, e);
      }
    }
  }

  /** Nothing is hidden when end times are in order. */
  lemma ExpiryIsInvisible(q: seq<PacketTime>, oldest: int, s: int, e: int)
    requires Sorted(q) && WellTimed(q) && EndsSorted(q) && oldest <= s
    ensures Answer(Expired(q, oldest), s, e) == Answer(q, s, e)
  {
    InvisibleWithoutHiding(q, oldest, s, e);
  }

  /** The same for gapped deques, which is what the cache holds of continuous data; and what is left is gapped. */
  lemma ExpiryIsInvisibleWhenGapped(q: seq<PacketTime>, oldest: int, s: int, e: int)
    requires Gapped(q) && oldest <= s
    ensures Gapped(Expired(q, oldest))
    ensures Answer(Expired(q, oldest), s, e) == Answer(q, s, e)
  {
    GappedIsSorted(q);
    GappedEndsAreSorted(q);
    ExpiredIsSuffix(q, oldest);
    ExpiryIsInvisible(q, oldest, s, e);
  }
}
