/**
 * The trading-session gate `is_within_schedule` of the alert engine.
 *
 * The clock, the time-zone conversion and the holiday calendars are inputs:
 * the caller supplies the local date-time in Tokyo and in New York and
 * whether each local date is a holiday of that market.
 */
module Schedule {

  /** A local `datetime`: `weekday()` (Monday 0 to Sunday 6) and its wall-clock time. */
  datatype LocalTime = LocalTime(weekday: int, hour: int, minute: int, second: int, micro: int) {
    predicate Valid() {
      && 0 <= weekday < 7
      && 0 <= hour < 24
      && 0 <= minute < 60
      && 0 <= second < 60
      && 0 <= micro < 1000000
    }

    function TimeOfDay(): Clock {
      Clock(hour, minute, second, micro)
    }
  }

  /** A `datetime.time` value. */
  datatype Clock = Clock(hour: int, minute: int, second: int, micro: int)

  /** `datetime.time` ordering: lexicographic on (hour, minute, second, microsecond). */
  predicate ClockLe(a: Clock, b: Clock) {
    || a.hour < b.hour
    || (a.hour == b.hour && a.minute < b.minute)
    || (a.hour == b.hour && a.minute == b.minute && a.second < b.second)
    || (a.hour == b.hour && a.minute == b.minute && a.second == b.second && a.micro <= b.micro)
  }

  /** The Tokyo session window, 08:30 to 15:00 inclusive. */
  const JpOpen := Clock(8, 30, 0, 0)
  const JpClose := Clock(15, 0, 0, 0)

  /** The New York session window, 09:00 to 15:30 inclusive, in New York time. */
  const UsOpen := Clock(9, 0, 0, 0)
  const UsClose := Clock(15, 30, 0, 0)

  /**
   * The gate: the run proceeds only on a Tokyo half-hour tick (minute 0 or 30)
   * while at least one of the two markets is in session on a non-holiday
   * weekday of its own calendar.
   */
  function IsWithinSchedule(jst: LocalTime, jpHoliday: bool, ny: LocalTime, usHoliday: bool): (r: bool)
    requires jst.Valid() && ny.Valid()
    ensures r ==> jst.minute == 0 || jst.minute == 30
    ensures r <==>
      && (jst.minute == 0 || jst.minute == 30)
      && (|| (jst.weekday <= 4 && !jpHoliday &&
               (|| (jst.hour == 8 && jst.minute >= 30)
                || 9 <= jst.hour <= 14
                || (jst.hour == 15 && jst.minute == 0 && jst.second == 0 && jst.micro == 0)))
          || (ny.weekday <= 4 && !usHoliday &&
               (|| 9 <= ny.hour <= 14
                || (ny.hour == 15 && ny.minute < 30)
                || (ny.hour == 15 && ny.minute == 30 && ny.second == 0 && ny.micro == 0))))
  {
    var isJpWeekday := jst.weekday < 5 && !jpHoliday;
    var isUsWeekday := ny.weekday < 5 && !usHoliday;
    var isJpTime := isJpWeekday && ClockLe(JpOpen, jst.TimeOfDay()) && ClockLe(jst.TimeOfDay(), JpClose);
    var isUsTime := isUsWeekday && ClockLe(UsOpen, ny.TimeOfDay()) && ClockLe(ny.TimeOfDay(), UsClose);
    var is30MinTiming := jst.minute in [0, 30];
    (isJpTime || isUsTime) && is30MinTiming
  }

  /** On a Tokyo trading day the 15:00:00 tick still runs, a microsecond later it does not. */
  lemma JpCloseInclusive(jst: LocalTime, ny: LocalTime)
    requires jst.Valid() && ny.Valid() && jst.weekday < 5
    requires jst.hour == 15 && jst.minute == 0 && jst.second == 0
    requires ny.weekday >= 5
    ensures IsWithinSchedule(jst, false, ny, false) <==> jst.micro == 0
  {
  }

  /** Weekends and holidays of both markets close the gate whatever the time. */
  lemma ClosedMarketsNeverRun(jst: LocalTime, jpHoliday: bool, ny: LocalTime, usHoliday: bool)
    requires jst.Valid() && ny.Valid()
    requires jst.weekday >= 5 || jpHoliday
    requires ny.weekday >= 5 || usHoliday
    ensures !IsWithinSchedule(jst, jpHoliday, ny, usHoliday)
  {
  }
}
