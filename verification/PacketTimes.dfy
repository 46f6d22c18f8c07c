/**
 Start and end times of packets.  A double is an exact real here, so rounding is the rounding of
 std::round alone, and times are unbounded integers.
 */
module PacketTimes {
  import opened Wrappers
  import opened Messages

  const SECONDS_TO_NANOSECONDS: real := 1_000_000_000.0

  /** std::round: to the nearest integer, halves away from zero. */
  function Round(x: real): int {
    if x >= 0.0 then (x + 0.5).Floor else -((0.5 - x).Floor)
  }

  /** Integer division of C++: towards zero. */
  function TruncatedDivision(a: int, b: int): int
    requires b > 0
  {
    if a >= 0 then a / b else -(-a / b)
  }

  function StartNanoseconds(t: Timestamp): int {
    t.seconds * NANOS_PER_SECOND + t.nanos
  }

  function StartMicroseconds(t: Timestamp): int {
    t.seconds * 1_000_000 + TruncatedDivision(t.nanos, 1000)
  }

  /** Length of n samples at a sampling rate, first to last sample, in exact nanoseconds. */
  function ExactSpan(n: int, rate: real): real
    requires rate > 0.0
  {
    (n - 1) as real * (SECONDS_TO_NANOSECONDS / rate)
  }

  function SampleFault(n: uint32, rate: real): Option<string> {
    if n < 1 then Some("No samples")
    else if rate <= 0.0 then Some("Sampling rate not positive")
    else None
  }

  function EndNanoseconds(t: Timestamp, n: uint32, rate: real): (r: Result<int>)
  {
    var fault := SampleFault(n, rate);
    if fault.Some? then Err(fault.value) else Ok(StartNanoseconds(t) + Round(ExactSpan(n, rate)))
  }

  function EndMicroseconds(t: Timestamp, n: uint32, rate: real): (r: Result<int>) {
    var fault := SampleFault(n, rate);
    if fault.Some? then Err(fault.value)
    else Ok(StartMicroseconds(t) + TruncatedDivision(Round(ExactSpan(n, rate)), 1000))
  }

  // ---------------------------------------------------------------- arithmetic

  lemma RoundIsNearest(x: real)
    ensures x - 0.5 <= Round(x) as real <= x + 0.5
    ensures x >= 0.0 ==> Round(x) >= 0 && (x - 0.5 < Round(x) as real)
  {
  }

  lemma RoundIsMonotone(x: real, y: real)
    requires 0.0 <= x <= y
    ensures Round(x) <= Round(y)
    ensures x + 1.0 <= y ==> Round(x) + 1 <= Round(y)
  {
  }

  lemma PeriodIsAntitone(r: real, s: real)
    requires 0.0 < r <= s
    ensures 0.0 < SECONDS_TO_NANOSECONDS / s <= SECONDS_TO_NANOSECONDS / r
  {
  }

  lemma SpanIsMonotone(m: int, n: int, r: real, s: real)
    requires 1 <= m <= n && 0.0 < s <= r
    ensures 0.0 <= ExactSpan(m, r) <= ExactSpan(n, s)
  {
  }

  // ---------------------------------------------------------------- end times

  /** The end time is the start plus the exact span, to the nearest nanosecond, never before the start. */
  lemma EndIsWithinHalfANanosecond(t: Timestamp, n: uint32, rate: real)
    requires n >= 1 && rate > 0.0
    ensures EndNanoseconds(t, n, rate).Ok?
    ensures var d := (EndNanoseconds(t, n, rate).value - StartNanoseconds(t)) as real - ExactSpan(n, rate);
            -0.5 < d <= 0.5
    ensures StartNanoseconds(t) <= EndNanoseconds(t, n, rate).value
  {
    SpanIsMonotone(1, n, rate, rate);
    RoundIsNearest(ExactSpan(n, rate));
  }

  /** The times of a packet, from what the packet says.  The start is its whole seconds and nanoseconds.
      The end exists exactly with a sample and a positive rate; in units of one over the rate it is as many
      sampling periods after the start as there are further samples, to within half a nanosecond, halves up. */
  lemma EndBySamplesAndRate(t: Timestamp, n: uint32, rate: real)
    ensures StartNanoseconds(t) / 1_000_000_000 == t.seconds && StartNanoseconds(t) % 1_000_000_000 == t.nanos
    ensures EndNanoseconds(t, n, rate).Ok? <==> n >= 1 && rate > 0.0
    ensures EndNanoseconds(t, n, rate).Ok? ==>
              var length := EndNanoseconds(t, n, rate).value - StartNanoseconds(t);
              -rate < 2.0 * (length as real * rate - (n - 1) as real * 1_000_000_000.0) <= rate
  {
    if n >= 1 && rate > 0.0 {
      EndIsWithinHalfANanosecond(t, n, rate);
      var length := EndNanoseconds(t, n, rate).value - StartNanoseconds(t);
      SpanTimesRate(n, rate);
      Scaled(length as real - ExactSpan(n, rate), rate);
      assert (length as real - ExactSpan(n, rate)) * rate == length as real * rate - ExactSpan(n, rate) * rate;
    }
  }

  lemma SpanTimesRate(n: int, rate: real)
    requires rate > 0.0
    ensures ExactSpan(n, rate) * rate == (n - 1) as real * 1_000_000_000.0
  {
    var period := SECONDS_TO_NANOSECONDS / rate;
    assert period * rate == 1_000_000_000.0;
    assert (n - 1) as real * period * rate == (n - 1) as real * (period * rate);
  }

  lemma Scaled(d: real, rate: real)
    requires -0.5 < d <= 0.5 && rate > 0.0
    ensures -rate < 2.0 * (d * rate) <= rate
  {
  }

  /** More samples or a lower rate never make a packet end earlier. */
  lemma EndIsMonotone(t: Timestamp, m: uint32, n: uint32, r: real, s: real)
    requires 1 <= m <= n && 0.0 < s <= r
    ensures EndNanoseconds(t, m, r).Ok? && EndNanoseconds(t, n, s).Ok?
    ensures EndNanoseconds(t, m, r).value <= EndNanoseconds(t, n, s).value
  {
    SpanIsMonotone(m, n, r, s);
    RoundIsMonotone(ExactSpan(m, r), ExactSpan(n, s));
  }

  lemma QuotientOfSum(a: int, b: int)
    ensures (a + b) / 1000 == a / 1000 + b / 1000 + (if a % 1000 + b % 1000 < 1000 then 0 else 1)
  {
  }

  /** The microsecond end is the whole microseconds of the nanosecond end, or one less; it is one less
      exactly when the parts below a microsecond of start and span add up to one. */
  lemma MicrosecondEndLosesAtMostOne(t: Timestamp, n: uint32, rate: real)
    requires n >= 1 && rate > 0.0
    ensures EndNanoseconds(t, n, rate).Ok? && EndMicroseconds(t, n, rate).Ok?
    ensures var whole := EndNanoseconds(t, n, rate).value / 1000;
            var carried := StartNanoseconds(t) % 1000 + Round(ExactSpan(n, rate)) % 1000 >= 1000;
            EndMicroseconds(t, n, rate).value == if carried then whole - 1 else whole
    ensures StartMicroseconds(t) == StartNanoseconds(t) / 1000
  {
    SpanIsMonotone(1, n, rate, rate);
    RoundIsNearest(ExactSpan(n, rate));
    QuotientOfSum(StartNanoseconds(t), Round(ExactSpan(n, rate)));
    assert StartNanoseconds(t) / 1000 == StartMicroseconds(t);
  }

  lemma SpanReachesHalf(n: int, rate: real)
    requires rate > 0.0
    ensures ExactSpan(n, rate) >= 0.5 <==> 2.0 * ((n - 1) as real * 1_000_000_000.0) >= rate
  {
    SpanTimesRate(n, rate);
    var span := ExactSpan(n, rate);
    if span >= 0.5 {
      assert (span - 0.5) * rate >= 0.0;
    } else {
      assert (0.5 - span) * rate > 0.0;
    }
  }

  /** A packet of two or more samples has positive length exactly when the exact span reaches half a
      nanosecond; a rate of at most two samples a nanosecond is enough. */
  lemma PositiveLength(t: Timestamp, n: uint32, rate: real)
    requires n >= 1 && rate > 0.0
    ensures EndNanoseconds(t, n, rate).Ok?
    ensures StartNanoseconds(t) < EndNanoseconds(t, n, rate).value
            <==> 2.0 * ((n - 1) as real * 1_000_000_000.0) >= rate
    ensures n >= 2 && rate <= 2.0 * SECONDS_TO_NANOSECONDS
            ==> StartNanoseconds(t) < EndNanoseconds(t, n, rate).value
  {
    SpanIsMonotone(1, n, rate, rate);
    RoundIsNearest(ExactSpan(n, rate));
    SpanReachesHalf(n, rate);
    if n >= 2 && rate <= 2.0 * SECONDS_TO_NANOSECONDS {
      SpanIsMonotone(2, n, 2.0 * SECONDS_TO_NANOSECONDS, rate);
      assert ExactSpan(2, 2.0 * SECONDS_TO_NANOSECONDS) == 0.5;
    }
  }

  /** At no more than one sample a nanosecond a packet ends before the time its next sample is due. */
  lemma NextPacketStartsLater(t: Timestamp, n: uint32, rate: real)
    requires n >= 1 && 0.0 < rate <= SECONDS_TO_NANOSECONDS
    ensures EndNanoseconds(t, n, rate).Ok?
    ensures EndNanoseconds(t, n, rate).value < StartNanoseconds(t) + Round(ExactSpan(n + 1, rate))
  {
    SpanIsMonotone(1, n, rate, rate);
    PeriodIsAntitone(rate, SECONDS_TO_NANOSECONDS);
    var period := SECONDS_TO_NANOSECONDS / rate;
    assert period >= 1.0;
    assert ExactSpan(n + 1, rate) == ExactSpan(n, rate) + period by {
      assert n as real * period == (n - 1) as real * period + period;
    }
    RoundIsMonotone(ExactSpan(n, rate), ExactSpan(n + 1, rate));
  }
}
