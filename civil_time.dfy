/**
 * Local ("civil") date-times as the browser's `Date` exposes them through
 * getFullYear, getMonth, getDate and the time-of-day getters, the
 * constructor `new Date(year, monthIndex, day, h, m, s, ms)`, and the local
 * time zone that maps a civil date-time to the instant `getTime()` returns.
 */
module CivilTime {

  datatype DateTime = DateTime(year: int, month: int, day: int,
                               hour: int, minute: int, second: int, millisecond: int)

  predicate IsLeapYear(y: int) {
    y % 4 == 0 && (y % 100 != 0 || y % 400 == 0)
  }

  function DaysInMonth(y: int, m: int): int {
    if m == 2 then (if IsLeapYear(y) then 29 else 28)
    else if m == 4 || m == 6 || m == 9 || m == 11 then 30
    else 31
  }

  /** A date-time whose fields are in their calendar ranges (month 1..12, not 0-based). */
  predicate Valid(d: DateTime) {
    && 1 <= d.month <= 12
    && 1 <= d.day <= DaysInMonth(d.year, d.month)
    && 0 <= d.hour < 24
    && 0 <= d.minute < 60
    && 0 <= d.second < 60
    && 0 <= d.millisecond < 1000
  }

  /** Strict chronological order of civil date-times: lexicographic on the fields. */
  predicate Before(a: DateTime, b: DateTime) {
    if a.year != b.year then a.year < b.year
    else if a.month != b.month then a.month < b.month
    else if a.day != b.day then a.day < b.day
    else if a.hour != b.hour then a.hour < b.hour
    else if a.minute != b.minute then a.minute < b.minute
    else if a.second != b.second then a.second < b.second
    else a.millisecond < b.millisecond
  }

  /**
   * The `Date` constructor reads a year argument from 0 to 99 as 1900 + year;
   * every other year is taken as given.
   */
  function JsYear(y: int): (r: int)
    ensures 0 <= y <= 99 ==> r == 1900 + y
    ensures (y < 0 || y > 99) ==> r == y
  {
    if 0 <= y <= 99 then 1900 + y else y
  }

  /**
   * `new Date(year, monthIndex, day, hour, 0, 0, 0)` in local time, for the
   * in-range arguments this application passes (a month index is 0-based).
   */
  function NewDate(year: int, monthIndex: int, day: int, hour: int): (d: DateTime)
    ensures d.year == JsYear(year) && d.month == monthIndex + 1 && d.day == day && d.hour == hour
    ensures 0 <= monthIndex < 12 && 1 <= day <= 28 && 0 <= hour < 24 ==> Valid(d)
  {
    DateTime(JsYear(year), monthIndex + 1, day, hour, 0, 0, 0)
  }

  /**
   * A local time zone: the instant, in epoch milliseconds, of each civil
   * date-time.  The browser supplies it; this model takes it as a parameter.
   */
  type Zone = DateTime -> int

  /** Later civil date-times are later instants (a zone without daylight-saving overlaps). */
  ghost predicate Monotone(zone: Zone) {
    forall a, b :: Valid(a) && Valid(b) && Before(a, b) ==> zone(a) < zone(b)
  }

  /** Under a monotone zone, comparing instants is comparing civil date-times. */
  lemma InstantOrder(zone: Zone, a: DateTime, b: DateTime)
    requires Monotone(zone) && Valid(a) && Valid(b)
    ensures zone(a) < zone(b) <==> Before(a, b)
  {
    if !Before(a, b) && a != b {
      assert Before(b, a);
    }
  }
}
