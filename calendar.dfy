/** The calendar arithmetic the decoder applies to a cell timestamp (microseconds since
    1970-01-01 00:00 UTC), written as floor arithmetic. */
module Calendar {

  const MICROS_PER_SECOND: nat := 1_000_000
  const SECONDS_PER_DAY: nat := 86_400
  const MICROS_PER_HOUR: nat := 3_600_000_000
  const MICROS_PER_DAY: nat := 86_400_000_000

  /** `Date::EpochToDate(ts / 1'000'000)`: days since the epoch. */
  function EpochDay(ts: int): int
  {
    (ts / MICROS_PER_SECOND) / SECONDS_PER_DAY
  }

  /** `Date::ExtractISODayOfTheWeek`: Monday is 1, Sunday is 7; day 0 was a Thursday. */
  function IsoDayOfWeek(day: int): (d: int)
    ensures 1 <= d <= 7
  {
    (day + 3) % 7 + 1
  }

  /** The product bucket: ISO weekday minus one. */
  function Weekday(ts: int): (w: nat)
    ensures w < 7
  {
    IsoDayOfWeek(EpochDay(ts)) - 1
  }

  /** `Timestamp::GetTime(ts).micros / 3'600'000'000`: the hour of the day. */
  function HourOfDay(ts: int): (h: nat)
    ensures h < 24
  {
    (ts % MICROS_PER_DAY) / MICROS_PER_HOUR
  }

  /** The search bucket: `weekday * 24 + hour`, an hour of the week. */
  function WeekHour(ts: int): (wh: nat)
    ensures wh < 7 * 24
  {
    Weekday(ts) * 24 + HourOfDay(ts)
  }

  /** The epoch itself is Thursday, bucket 3; buckets repeat every seven days. */
  lemma WeekdayOfEpoch()
    ensures Weekday(0) == 3
  {
  }

  lemma WeekdayPeriodic(ts: int)
    ensures Weekday(ts + 7 * MICROS_PER_DAY) == Weekday(ts)
    ensures WeekHour(ts + 7 * MICROS_PER_DAY) == WeekHour(ts)
  {
    assert (ts + 7 * MICROS_PER_DAY) / MICROS_PER_SECOND == ts / MICROS_PER_SECOND + 7 * SECONDS_PER_DAY;
    assert EpochDay(ts + 7 * MICROS_PER_DAY) == EpochDay(ts) + 7;
    assert (ts + 7 * MICROS_PER_DAY) % MICROS_PER_DAY == ts % MICROS_PER_DAY;
  }
}
