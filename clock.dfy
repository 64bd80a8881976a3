/** Wall-clock time in the one target time zone the bot runs in.

    An instant is a whole number of microseconds counted from midnight of
    day 0 in that zone, so the hour, the minute and the calendar date of an
    instant are obtained by division. Python's datetime keeps microseconds,
    and the guards of the panel engine compare instants at that precision. */
module Clock {

  type Instant = int
  type Day = int

  const SECOND: int := 1_000_000
  const MINUTE: int := 60 * SECOND
  const HOUR: int := 60 * MINUTE
  const DAY: int := 24 * HOUR

  /** The fixed hour at which the business day turns over. */
  const RESET_HOUR: int := 4

  /** `t.replace(minute=0, second=0, microsecond=0)`. */
  function HourFloor(t: Instant): (r: Instant)
    ensures r % HOUR == 0
    ensures r <= t < r + HOUR
  {
    t - t % HOUR
  }

  /** `t.minute`. */
  function MinuteOf(t: Instant): (m: int)
    ensures 0 <= m < 60
    ensures HourFloor(t) + m * MINUTE <= t < HourFloor(t) + (m + 1) * MINUTE
  {
    (t % HOUR) / MINUTE
  }

  /** `t.hour`. */
  function HourOf(t: Instant): (h: int)
    ensures 0 <= h < 24
    ensures CalendarDay(t) * DAY + h * HOUR <= t < CalendarDay(t) * DAY + (h + 1) * HOUR
  {
    (t % DAY) / HOUR
  }

  /** `t.date()`, as a day number. */
  function CalendarDay(t: Instant): (d: Day)
    ensures d * DAY <= t < d * DAY + DAY
  {
    t / DAY
  }

  /** The business date of `t` (src/cogs/knecht.py:460-463): the calendar date
      from 04:00 on, the previous date before 04:00. Business day `d` therefore
      runs from 04:00 of calendar day `d` to 04:00 of calendar day `d + 1`. */
  function BusinessDate(t: Instant): (d: Day)
    ensures d * DAY + RESET_HOUR * HOUR <= t < (d + 1) * DAY + RESET_HOUR * HOUR
  {
    if HourOf(t) >= RESET_HOUR then CalendarDay(t) else CalendarDay(t) - 1
  }

  /** Two instants have the same business date exactly when they fall in the
      same 24-hour span that starts at 04:00. */
  lemma BusinessDateIs(t: Instant, d: Day)
    requires d * DAY + RESET_HOUR * HOUR <= t < (d + 1) * DAY + RESET_HOUR * HOUR
    ensures BusinessDate(t) == d
  {
  }

  /** Python's `int(x / b)` on an exact quotient: division truncating toward
      zero. Dafny's `/` rounds toward negative infinity for a positive divisor,
      so a negative dividend is handled on its own. What the quotient means is
      stated by TruncDivBounds. */
  function TruncDiv(a: int, b: int): int
    requires b > 0
  {
    if a >= 0 then a / b else -((-a) / b)
  }

  /** The truncated quotient is the whole number of divisors that fit into
      the dividend, on the dividend's side of zero. */
  lemma TruncDivBounds(a: int, b: int)
    requires b > 0
    ensures a >= 0 ==> 0 <= TruncDiv(a, b) * b <= a < TruncDiv(a, b) * b + b
    ensures a < 0 ==> TruncDiv(a, b) * b - b < a <= TruncDiv(a, b) * b <= 0
  {
    if a >= 0 {
      DivBounds(a, b);
    } else {
      DivBounds(-a, b);
    }
  }

  lemma DivBounds(a: nat, b: int)
    requires b > 0
    ensures 0 <= (a / b) * b <= a < (a / b) * b + b
  {
    assert a == (a / b) * b + a % b;
  }

  /** A whole number of minutes, truncated toward zero, of a duration given in
      microseconds: `int(delta.total_seconds() / 60)`. It is at most 0 exactly
      when the duration is shorter than one minute. */
  function WholeMinutes(delta: int): (m: int)
    ensures delta >= 0 ==> 0 <= m * MINUTE <= delta < (m + 1) * MINUTE
    ensures delta < 0 ==> (m - 1) * MINUTE < delta <= m * MINUTE <= 0
    ensures m <= 0 <==> delta < MINUTE
  {
    TruncDivBounds(delta, MINUTE);
    TruncDiv(delta, MINUTE)
  }
}
