/**
 * A JavaScript `Date` as the application reads it: local calendar fields,
 * the milliseconds elapsed since local midnight, and the absolute timestamp
 * returned by `getTime()`. Calendar arithmetic and time zones are left to the
 * caller, which supplies already computed dates.
 */
module Dates {

  datatype Date = Date(year: int, month: int, day: int, msOfDay: int, timestamp: int)

  /**
   * `getDate()`, `getMonth()` and `getFullYear()` all agree: the time of day
   * and the timestamp play no part.
   */
  predicate SameCalendarDay(a: Date, b: Date) {
    a.day == b.day && a.month == b.month && a.year == b.year
  }

  /**
   * The three festival days: today, tomorrow and the day after, each at the
   * current time of day (`setDate(today.getDate() + day)` on a copy of now).
   */
  datatype FestivalDays = FestivalDays(first: Date, second: Date, third: Date) {
    /** Day 0, 1 or 2 of the festival. */
    function Day(day: nat): Date {
      if day == 0 then first else if day == 1 then second else third
    }
  }

  /** `setHours(0, 0, 0, 0)`: same calendar day, moved back to local midnight. */
  function AtMidnight(d: Date): (r: Date)
    ensures SameCalendarDay(r, d)
    ensures r.msOfDay == 0
    ensures r.timestamp == d.timestamp - d.msOfDay
  {
    Date(d.year, d.month, d.day, 0, d.timestamp - d.msOfDay)
  }
}
