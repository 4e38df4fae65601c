/** The market-status part of `update_time_and_status` (main.py:115-120):
    the US market is reported "Open" on Monday to Friday between 09:30 and
    16:00 Eastern time, both ends included. The clock reading and the time
    zone conversion are inputs: a weekday (0 is Monday, as Python's
    `weekday()`) and the Eastern time of day in microseconds. */
module MarketHours {

  const MicrosPerSecond: int := 1_000_000
  const MicrosPerDay: int := 86_400 * MicrosPerSecond

  /** Microseconds since midnight of a wall-clock reading. */
  function TimeOfDay(hour: int, minute: int, second: int, micro: int): int
  {
    ((hour * 60 + minute) * 60 + second) * MicrosPerSecond + micro
  }

  predicate ValidClock(hour: int, minute: int, second: int, micro: int)
  {
    0 <= hour < 24 && 0 <= minute < 60 && 0 <= second < 60 && 0 <= micro < MicrosPerSecond
  }

  /** `current_time.replace(hour=9, minute=30, second=0, microsecond=0)` */
  const MarketOpen: int := TimeOfDay(9, 30, 0, 0)
  /** `current_time.replace(hour=16, minute=0, second=0, microsecond=0)` */
  const MarketClose: int := TimeOfDay(16, 0, 0, 0)

  function MarketStatus(weekday: int, time: int): (status: string)
    requires 0 <= weekday < 7 && 0 <= time < MicrosPerDay
    ensures status == "Open" || status == "Closed"
  {
    if weekday < 5 && MarketOpen <= time <= MarketClose then "Open" else "Closed"
  }

  /** The status in terms of the clock fields: open from 09:30:00.000000 on,
      and at 16 o'clock only at 16:00:00.000000 itself. */
  lemma MarketStatusByClock(weekday: int, hour: int, minute: int, second: int, micro: int)
    requires 0 <= weekday < 7 && ValidClock(hour, minute, second, micro)
    ensures 0 <= TimeOfDay(hour, minute, second, micro) < MicrosPerDay
    ensures MarketStatus(weekday, TimeOfDay(hour, minute, second, micro)) == "Open" <==>
      weekday <= 4 &&
      (hour > 9 || (hour == 9 && minute >= 30)) &&
      (hour < 16 || (hour == 16 && minute == 0 && second == 0 && micro == 0))
  {
  }

  /** Both ends are inclusive, and one microsecond outside either is closed;
      Saturday and Sunday are closed at any time. */
  lemma MarketBoundaries()
    ensures MarketStatus(0, TimeOfDay(9, 30, 0, 0)) == "Open"
    ensures MarketStatus(4, TimeOfDay(16, 0, 0, 0)) == "Open"
    ensures MarketStatus(0, TimeOfDay(9, 29, 59, 999_999)) == "Closed"
    ensures MarketStatus(4, TimeOfDay(16, 0, 0, 1)) == "Closed"
    ensures forall t :: 0 <= t < MicrosPerDay ==> MarketStatus(5, t) == "Closed" && MarketStatus(6, t) == "Closed"
  {
  }
}
