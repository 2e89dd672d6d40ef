/**
 * The clock-skew rule of options.go (getTimeDifference): the time elapsed
 * since the request's timestamp, rounded to whole seconds with halves
 * rounded away from zero, made non-negative, and accepted when it is
 * strictly less than five minutes. Durations are integers of nanoseconds;
 * the clock reading `now` (nanoseconds since the Unix epoch) is a parameter.
 */
module Clock {
  import opened Decimal

  const Second: int := 1_000_000_000
  const Minute: int := 60 * Second
  const Tolerance: int := 5 * Minute

  function Abs(x: int): nat {
    if x < 0 then -x else x
  }

  /** Go's `d % time.Second`: truncated toward zero, so it has the dividend's sign. */
  function RemSecond(d: int): (r: int)
    ensures d >= 0 ==> 0 <= r < Second
    ensures d < 0 ==> -Second < r <= 0
    ensures (d - r) % Second == 0
  {
    if d >= 0 then d % Second else -((-d) % Second)
  }

  /**
   * time.Duration.Round(time.Second) on unbounded integers: the nearest
   * multiple of a second, a tie going away from zero.
   */
  function RoundToSecond(d: int): (r: int)
    ensures r % Second == 0
    ensures Abs(r - d) <= Second / 2
    ensures Abs(r - d) == Second / 2 ==> Abs(r) > Abs(d)
    ensures (d < 0 ==> r <= 0) && (d >= 0 ==> r >= 0)
  {
    var rem := RemSecond(d);
    if d < 0 then
      var back := -rem;
      if back + back < Second then d + back else d - Second + back
    else
      if rem + rem < Second then d - rem else d + Second - rem
  }

  /** getTimeDifference: the rounded, non-negative skew and whether it is tolerated. */
  function TimeDifference(now: int, timestamp: int): (r: (int, bool))
    ensures r.0 == RoundToSecond(Abs(now - timestamp * Second))
    ensures r.0 >= 0 && r.0 % Second == 0
    ensures r.1 <==> r.0 < Tolerance
  {
    RoundSymmetric(now - timestamp * Second);
    var difference := RoundToSecond(now - timestamp * Second);
    var difference := if difference < 0 then -difference else difference;
    (difference, difference < Tolerance)
  }

  lemma RoundSymmetric(d: int)
    ensures RoundToSecond(-d) == -RoundToSecond(d)
  {
    if d > 0 {
      assert RemSecond(-d) == -RemSecond(d);
    } else if d < 0 {
      assert RemSecond(d) == -RemSecond(-d);
    }
  }

  /**
   * The verdict depends on the skew's magnitude only: a timestamp a given
   * time in the past and one the same time in the future are treated alike.
   */
  lemma SkewSymmetric(now: int, timestamp: int, now': int, timestamp': int)
    requires Abs(now - timestamp * Second) == Abs(now' - timestamp' * Second)
    ensures TimeDifference(now, timestamp) == TimeDifference(now', timestamp')
  {
    var d, d' := now - timestamp * Second, now' - timestamp' * Second;
    if d != d' {
      assert d' == -d;
      RoundSymmetric(d);
    }
  }

  /**
   * A timestamp is tolerated exactly when the true skew is below
   * 4 minutes 59.5 seconds: rounding lifts a skew of 4m59.5s to 5m00s.
   */
  lemma WithinTolerance(now: int, timestamp: int)
    ensures TimeDifference(now, timestamp).1 <==> Abs(now - timestamp * Second) < Tolerance - Second / 2
  {
    var d := now - timestamp * Second;
    var a := Abs(d);
    if d < 0 {
      RoundSymmetric(d);
    }
    assert Abs(RoundToSecond(d)) == RoundToSecond(a);
    var q, rem := a / Second, a % Second;
    assert a == q * Second + rem;
    if rem + rem < Second {
      assert RoundToSecond(a) == q * Second;
    } else {
      assert RoundToSecond(a) == (q + 1) * Second;
    }
  }

  /** A skew of exactly five minutes, either way, is rejected. */
  lemma FiveMinutesRejected(timestamp: int)
    ensures !TimeDifference(timestamp * Second + Tolerance, timestamp).1
    ensures !TimeDifference(timestamp * Second - Tolerance, timestamp).1
  {
    WithinTolerance(timestamp * Second + Tolerance, timestamp);
    WithinTolerance(timestamp * Second - Tolerance, timestamp);
  }

  /** 4m59.5s rounds up to five minutes and is rejected; one nanosecond less is accepted. */
  lemma HalfSecondBoundary(timestamp: int)
    ensures !TimeDifference(timestamp * Second + Tolerance - Second / 2, timestamp).1
    ensures TimeDifference(timestamp * Second + Tolerance - Second / 2 - 1, timestamp).1
  {
    WithinTolerance(timestamp * Second + Tolerance - Second / 2, timestamp);
    WithinTolerance(timestamp * Second + Tolerance - Second / 2 - 1, timestamp);
  }

  // ---------------------------------------------------------------------
  // getTimeDifference as written, on Go's 64-bit Duration.

  /** Seconds from January 1 of year 1 to the Unix epoch, Go's internal time origin. */
  const UnixToInternal: int := 62_135_596_800

  /** Two's-complement wrap-around of a 64-bit signed integer. */
  function Wrap(x: int): (r: int)
    ensures IsInt64(r)
    ensures IsInt64(x) ==> r == x
  {
    (x - MinInt64) % 0x1_0000_0000_0000_0000 + MinInt64
  }

  /**
   * time.Since(time.Unix(timestamp, 0)): time.Time.Sub returns the exact
   * difference when it fits in a Duration and saturates otherwise.
   */
  function SinceSaturated(now: int, timestamp: int): (d: int)
    ensures IsInt64(d)
    ensures IsInt64(now - timestamp * Second) ==> d == now - timestamp * Second
    ensures now - timestamp * Second < MinInt64 ==> d == MinInt64
    ensures now - timestamp * Second > MaxInt64 ==> d == MaxInt64
  {
    var exact := now - timestamp * Second;
    if exact < MinInt64 then MinInt64 else if exact > MaxInt64 then MaxInt64 else exact
  }

  /** Duration.Round(Second) with its overflow fallbacks to the extreme Durations. */
  function RoundDuration(d: int): (r: int)
    requires IsInt64(d)
    ensures IsInt64(r)
    ensures IsInt64(RoundToSecond(d)) ==> r == RoundToSecond(d)
    ensures !IsInt64(RoundToSecond(d)) ==> r == if d < 0 then MinInt64 else MaxInt64
  {
    var rem := RemSecond(d);
    if d < 0 then
      var back := -rem;
      if back + back < Second then d + back
      else
        var d1 := Wrap(d - Second + back);
        if d1 < d then d1 else MinInt64
    else
      if rem + rem < Second then d - rem
      else
        var d1 := Wrap(d + Second - rem);
        if d1 > d then d1 else MaxInt64
  }

  /**
   * getTimeDifference as options.go writes it: `difference *= -1` wraps
   * when the difference is the most negative Duration.
   */
  function TimeDifferenceAsWritten(now: int, timestamp: int): (r: (int, bool))
    requires IsInt64(now) && IsInt64(timestamp) && timestamp <= MaxInt64 - UnixToInternal
    ensures r.1 <==> r.0 < Tolerance
  {
    var difference := RoundDuration(SinceSaturated(now, timestamp));
    var difference := if difference < 0 then Wrap(-difference) else difference;
    (difference, difference < Tolerance)
  }

  /**
   * A timestamp about 30,000 years ahead of a 2023 clock: time.Since
   * saturates at the most negative Duration, rounding keeps it there,
   * negation wraps back to it, and the negative "difference" passes the
   * five-minute test.
   */
  lemma FarFutureTimestampAccepted()
    ensures TimeDifferenceAsWritten(1_700_000_000 * Second, 1_000_000_000_000) == (MinInt64, true)
    ensures !TimeDifference(1_700_000_000 * Second, 1_000_000_000_000).1
  {
    var now, timestamp := 1_700_000_000 * Second, 1_000_000_000_000;
    assert SinceSaturated(now, timestamp) == MinInt64;
    assert RemSecond(MinInt64) == -854_775_808;
    assert Wrap(MinInt64 - Second + 854_775_808) > MinInt64;
    assert RoundDuration(MinInt64) == MinInt64;
    assert Wrap(-MinInt64) == MinInt64;
    WithinTolerance(now, timestamp);
  }

  /** Away from the Duration limits the code as written agrees with the unbounded rule. */
  lemma AsWrittenAgreesInRange(now: int, timestamp: int)
    requires IsInt64(now) && IsInt64(timestamp) && timestamp <= MaxInt64 - UnixToInternal
    requires MinInt64 + Second <= now - timestamp * Second <= MaxInt64 - Second
    ensures TimeDifferenceAsWritten(now, timestamp) == TimeDifference(now, timestamp)
  {
    var d := now - timestamp * Second;
    assert SinceSaturated(now, timestamp) == d;
    assert RoundDuration(d) == RoundToSecond(d);
  }
}
