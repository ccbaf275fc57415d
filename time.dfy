/**
  Duration validation and the calendar-free split of a second count into
  days, hours, minutes and seconds.
 */
module Time {
  import opened JsNumber

  const MAX_DAYS := 99
  const MIN_SECONDS := 1
  const SECONDS_IN_A_MINUTE := 60
  const SECONDS_IN_AN_HOUR := 60 * SECONDS_IN_A_MINUTE
  const SECONDS_IN_A_DAY := 24 * SECONDS_IN_AN_HOUR
  const MAX_SECONDS := MAX_DAYS * SECONDS_IN_A_DAY

  /** Whole days in `totalSeconds`. */
  function GetDays(totalSeconds: nat): (days: nat)
    ensures days * SECONDS_IN_A_DAY <= totalSeconds < (days + 1) * SECONDS_IN_A_DAY
  {
    totalSeconds / SECONDS_IN_A_DAY
  }

  /** Whole hours left over after the whole days. */
  function GetHours(totalSeconds: nat): (hours: nat)
    ensures hours < 24
    ensures hours * SECONDS_IN_AN_HOUR <= totalSeconds % SECONDS_IN_A_DAY < (hours + 1) * SECONDS_IN_AN_HOUR
  {
    (totalSeconds % SECONDS_IN_A_DAY) / SECONDS_IN_AN_HOUR
  }

  /** Whole minutes left over after the whole hours. */
  function GetMinutes(totalSeconds: nat): (minutes: nat)
    ensures minutes < 60
    ensures minutes * SECONDS_IN_A_MINUTE <= totalSeconds % SECONDS_IN_AN_HOUR < (minutes + 1) * SECONDS_IN_A_MINUTE
  {
    (totalSeconds % SECONDS_IN_AN_HOUR) / SECONDS_IN_A_MINUTE
  }

  /** Seconds left over after the whole minutes. */
  function GetSeconds(totalSeconds: nat): (seconds: nat)
    ensures seconds < 60
    ensures (totalSeconds - seconds) % SECONDS_IN_A_MINUTE == 0
  {
    totalSeconds % SECONDS_IN_A_MINUTE
  }

  /**
    Normalises a requested duration to whole seconds in
    [MIN_SECONDS, MAX_SECONDS]; no input is rejected.
   */
  function ValidateInitialSeconds(seconds: Number): (r: int)
    ensures MIN_SECONDS <= r <= MAX_SECONDS
  {
    if seconds.NaN? || LessThan(seconds, MIN_SECONDS) then MIN_SECONDS
    else if GreaterThan(seconds, MAX_SECONDS) then MAX_SECONDS
    else Trunc(seconds.value)
  }

  /** NaN, negative infinity and every value below 1 (0 and -10 included) become 1. */
  lemma ValidateBelowMinimum(seconds: Number)
    requires seconds.NaN? || seconds.NegativeInfinity? || (seconds.Finite? && seconds.value < 1.0)
    ensures ValidateInitialSeconds(seconds) == MIN_SECONDS
  {
  }

  /** Positive infinity and every value above 99 days become exactly 99 days. */
  lemma ValidateAboveMaximum(seconds: Number)
    requires seconds.PositiveInfinity? || (seconds.Finite? && seconds.value > MAX_SECONDS as real)
    ensures ValidateInitialSeconds(seconds) == MAX_SECONDS
  {
  }

  /**
    In range, the fractional part is dropped: the result is the largest
    integer not above the input, so the bounds map to themselves.
   */
  lemma ValidateTruncatesInRange(seconds: Number)
    requires seconds.Finite? && MIN_SECONDS as real <= seconds.value <= MAX_SECONDS as real
    ensures ValidateInitialSeconds(seconds) as real <= seconds.value < ValidateInitialSeconds(seconds) as real + 1.0
    ensures seconds.value == seconds.value.Floor as real ==> ValidateInitialSeconds(seconds) as real == seconds.value
  {
  }

  /** Validating an already validated duration changes nothing. */
  lemma ValidateIdempotent(seconds: Number)
    ensures ValidateInitialSeconds(Finite(ValidateInitialSeconds(seconds) as real)) == ValidateInitialSeconds(seconds)
  {
  }

  /** A fractional request loses its fraction: 60.15 seconds become 60. */
  lemma ValidateDropsFraction()
    ensures ValidateInitialSeconds(Finite(60.15)) == 60
    ensures GetMinutes(ValidateInitialSeconds(Finite(60.15))) == 1
    ensures GetSeconds(ValidateInitialSeconds(Finite(60.15))) == 0
  {
  }

  /** The validator on the values its tests use. */
  lemma ValidateExamples()
    ensures ValidateInitialSeconds(Finite(30.0)) == 30
    ensures ValidateInitialSeconds(Finite(0.0)) == 1
    ensures ValidateInitialSeconds(NaN) == 1
    ensures ValidateInitialSeconds(Finite(-10.0)) == 1
    ensures ValidateInitialSeconds(Finite(8640000.0)) == 8553600
    ensures ValidateInitialSeconds(Finite(8553601.0)) == 8553600
  {
  }

  /** A positive multiple of `b` is at least `b`. */
  lemma MultipleAtLeast(k: int, b: int)
    requires k >= 1 && b > 0
    ensures k * b >= b
  {
  }

  /** Division by a positive number has exactly one quotient and remainder. */
  lemma DivModUnique(a: int, b: int, q: int, r: int)
    requires b > 0 && 0 <= r < b && a == q * b + r
    ensures a / b == q && a % b == r
  {
    var q0, r0 := a / b, a % b;
    assert (q - q0) * b == r0 - r;
    if q > q0 {
      MultipleAtLeast(q - q0, b);
    } else if q < q0 {
      MultipleAtLeast(q0 - q, b);
    }
  }

  /** The four components put back together give the total. */
  lemma DecomposeRoundTrip(totalSeconds: nat)
    ensures GetDays(totalSeconds) * SECONDS_IN_A_DAY + GetHours(totalSeconds) * SECONDS_IN_AN_HOUR
          + GetMinutes(totalSeconds) * SECONDS_IN_A_MINUTE + GetSeconds(totalSeconds) == totalSeconds
  {
    var t := totalSeconds;
    var inDay := t % SECONDS_IN_A_DAY;
    var inHour := t % SECONDS_IN_AN_HOUR;
    assert t == GetDays(t) * SECONDS_IN_A_DAY + inDay;
    assert inDay == GetHours(t) * SECONDS_IN_AN_HOUR + inDay % SECONDS_IN_AN_HOUR;
    DivModUnique(t, SECONDS_IN_AN_HOUR, GetDays(t) * 24 + GetHours(t), inDay % SECONDS_IN_AN_HOUR);
    assert inHour == GetMinutes(t) * SECONDS_IN_A_MINUTE + inHour % SECONDS_IN_A_MINUTE;
    DivModUnique(t, SECONDS_IN_A_MINUTE, (GetDays(t) * 24 + GetHours(t)) * 60 + GetMinutes(t), inHour % SECONDS_IN_A_MINUTE);
  }

  /**
    The split is the only one with hours below 24, minutes and seconds below
    60: any such components that sum to the total are the ones computed.
   */
  lemma {:induction false} DecomposeUnique(totalSeconds: nat, days: nat, hours: nat, minutes: nat, seconds: nat)
    requires hours < 24 && minutes < 60 && seconds < 60
    requires days * SECONDS_IN_A_DAY + hours * SECONDS_IN_AN_HOUR + minutes * SECONDS_IN_A_MINUTE + seconds == totalSeconds
    ensures GetDays(totalSeconds) == days && GetHours(totalSeconds) == hours
    ensures GetMinutes(totalSeconds) == minutes && GetSeconds(totalSeconds) == seconds
  {
    var t := totalSeconds;
    var inDay := hours * SECONDS_IN_AN_HOUR + minutes * SECONDS_IN_A_MINUTE + seconds;
    var inHour := minutes * SECONDS_IN_A_MINUTE + seconds;
    DivModUnique(t, SECONDS_IN_A_DAY, days, inDay);
    DivModUnique(inDay, SECONDS_IN_AN_HOUR, hours, inHour);
    DivModUnique(t, SECONDS_IN_AN_HOUR, days * 24 + hours, inHour);
    DivModUnique(inHour, SECONDS_IN_A_MINUTE, minutes, seconds);
    DivModUnique(t, SECONDS_IN_A_MINUTE, (days * 24 + hours) * 60 + minutes, seconds);
  }

  /** The largest duration shows as 99 days and nothing else. */
  lemma MaximumDecomposes()
    ensures GetDays(MAX_SECONDS) == MAX_DAYS && GetHours(MAX_SECONDS) == 0
    ensures GetMinutes(MAX_SECONDS) == 0 && GetSeconds(MAX_SECONDS) == 0
  {
  }
}
