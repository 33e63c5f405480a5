/**
 * The countdown on the invitation card: the instant it counts down to
 * (February 14 at 16:00, this year or next) and the split of the remaining
 * milliseconds into days, hours, minutes and seconds, each shown padded to
 * two digits.
 */
module Countdown {
  import opened TextFormat
  import opened CivilTime
  import InvitationCard

  datatype TimeLeft = TimeLeft(days: int, hours: int, minutes: int, seconds: int)

  const Zero := TimeLeft(0, 0, 0, 0)

  const MsPerSecond := 1000
  const MsPerMinute := 60 * MsPerSecond
  const MsPerHour := 60 * MsPerMinute
  const MsPerDay := 24 * MsPerHour

  /** The milliseconds a time-left value stands for. */
  function Total(t: TimeLeft): int {
    t.days * MsPerDay + t.hours * MsPerHour + t.minutes * MsPerMinute + t.seconds * MsPerSecond
  }

  predicate InRange(t: TimeLeft) {
    t.days >= 0 && 0 <= t.hours < 24 && 0 <= t.minutes < 60 && 0 <= t.seconds < 60
  }

  /**
   * February 14 at 16:00:00.000 of now's year, or of the next year once now
   * has reached it (`now >= valentinesDay` compares instants).
   */
  function Target(now: DateTime, zone: Zone): (d: DateTime)
    ensures d == NewDate(now.year, 1, 14, 16) || d == NewDate(now.year + 1, 1, 14, 16)
  {
    var year := now.year;
    var valentinesDay := NewDate(year, 1, 14, 16);
    if zone(now) >= zone(valentinesDay) then NewDate(year + 1, 1, 14, 16) else valentinesDay
  }

  /**
   * The split of `calculateTimeLeft`.  For a positive difference the fields
   * are in range and account for the difference up to the dropped
   * milliseconds; otherwise everything is zero.  Dafny's `/` and `%` agree
   * with the page's `Math.floor` of float division and remainder for
   * positive operands.
   */
  function Split(difference: int): (t: TimeLeft)
    ensures difference > 0 ==> InRange(t) && Total(t) <= difference < Total(t) + 1000
    ensures difference <= 0 ==> t == Zero
  {
    if difference > 0 then
      SplitDecomposes(difference);
      TimeLeft(
        days := difference / (1000 * 60 * 60 * 24),
        hours := (difference / (1000 * 60 * 60)) % 24,
        minutes := (difference / 1000 / 60) % 60,
        seconds := (difference / 1000) % 60)
    else Zero
  }

  /** Division by constants, step by step: milliseconds to seconds, minutes, hours and days. */
  lemma SplitDecomposes(difference: int)
    requires difference > 0
    ensures var days, hours := difference / 86400000, (difference / 3600000) % 24;
            var minutes, seconds := (difference / 1000 / 60) % 60, (difference / 1000) % 60;
            days * 86400000 + hours * 3600000 + minutes * 60000 + seconds * 1000 <= difference
            < days * 86400000 + hours * 3600000 + minutes * 60000 + seconds * 1000 + 1000
  {
    var s := difference / 1000;
    var m := s / 60;
    var h := m / 60;
    assert difference == 1000 * s + difference % 1000;
    assert s == 60 * m + s % 60;
    assert m == 60 * h + m % 60;
    assert h == 24 * (h / 24) + h % 24;
    assert difference / 3600000 == h;
    assert difference / 86400000 == h / 24;
  }

  /** The split is the only in-range decomposition of the difference's whole seconds. */
  lemma SplitUnique(difference: int, t: TimeLeft)
    requires difference > 0
    requires InRange(t) && Total(t) <= difference < Total(t) + 1000
    ensures t == Split(difference)
  {
    SameAccount(t, Split(difference), difference);
  }

  /** Two in-range values that account for the same milliseconds are equal. */
  lemma SameAccount(t: TimeLeft, u: TimeLeft, difference: int)
    requires InRange(t) && Total(t) <= difference < Total(t) + 1000
    requires InRange(u) && Total(u) <= difference < Total(u) + 1000
    ensures t == u
  {
    var st := t.days * 86400 + t.hours * 3600 + t.minutes * 60 + t.seconds;
    var su := u.days * 86400 + u.hours * 3600 + u.minutes * 60 + u.seconds;
    assert Total(t) == 1000 * st;
    assert Total(u) == 1000 * su;
    WholeSeconds(st, difference);
    WholeSeconds(su, difference);
    MixedRadixUnique(t.days, t.hours, t.minutes, t.seconds, u.days, u.hours, u.minutes, u.seconds);
  }

  /** The whole seconds in a span of milliseconds are determined by it. */
  lemma WholeSeconds(x: int, difference: int)
    requires 1000 * x <= difference < 1000 * x + 1000
    ensures x == difference / 1000
  {
    var q := difference / 1000;
    assert difference == 1000 * q + difference % 1000;
  }

  lemma MixedRadixUnique(d1: int, h1: int, m1: int, s1: int, d2: int, h2: int, m2: int, s2: int)
    requires 0 <= h1 < 24 && 0 <= m1 < 60 && 0 <= s1 < 60
    requires 0 <= h2 < 24 && 0 <= m2 < 60 && 0 <= s2 < 60
    requires d1 * 86400 + h1 * 3600 + m1 * 60 + s1 == d2 * 86400 + h2 * 3600 + m2 * 60 + s2
    ensures d1 == d2 && h1 == h2 && m1 == m2 && s1 == s2
  {
    var x1, x2 := (d1 * 24 + h1) * 60 + m1, (d2 * 24 + h2) * 60 + m2;
    assert x1 * 60 + s1 == x2 * 60 + s2;
    assert s1 == s2 && x1 == x2;
    var y1, y2 := d1 * 24 + h1, d2 * 24 + h2;
    assert y1 * 60 + m1 == y2 * 60 + m2;
    assert m1 == m2 && y1 == y2;
  }

  /** `calculateTimeLeft`: the split of the milliseconds from now to the target. */
  function CalculateTimeLeft(now: DateTime, zone: Zone): (t: TimeLeft)
    ensures InRange(t)
    ensures var difference := zone(Target(now, zone)) - zone(now);
            difference > 0 ==> Total(t) <= difference < Total(t) + 1000
  {
    var valentinesDay := Target(now, zone);
    var difference := zone(valentinesDay) - zone(now);
    Split(difference)
  }

  /**
   * Under a monotone zone the target is strictly after now, so the difference
   * is positive and the zero fallback is never taken: the time left is in
   * range and accounts for the remaining milliseconds up to the last second.
   * From year 100 on the target is in now's year exactly when now is before
   * that year's February 14 at 16:00.
   */
  lemma TargetIsAhead(now: DateTime, zone: Zone)
    requires Monotone(zone) && Valid(now)
    ensures var target := Target(now, zone);
            var difference := zone(target) - zone(now);
            && Valid(target) && Before(now, target)
            && difference > 0
            && InRange(CalculateTimeLeft(now, zone))
            && Total(CalculateTimeLeft(now, zone)) <= difference < Total(CalculateTimeLeft(now, zone)) + 1000
    ensures now.year >= 100 ==>
              (Target(now, zone).year == now.year <==> Before(now, DateTime(now.year, 2, 14, 16, 0, 0, 0)))
  {
    InstantOrder(zone, now, NewDate(now.year, 1, 14, 16));
    InstantOrder(zone, now, NewDate(now.year + 1, 1, 14, 16));
  }

  /**
   * `value.toString().padStart(2, '0')`: at least two characters; a
   * non-negative value shows as its digits, exactly two below 100, and reads
   * back as itself.
   */
  function Display(value: int): (r: string)
    ensures |r| >= 2
    ensures value >= 0 ==> AllDigits(r) && ValueOf(r) == value && (|r| == 2 <==> value < 100)
  {
    if value < 0 then Pad2(value)
    else Pad2Properties(value); Pad2(value)
  }

  /**
   * The four displayed values of a positive countdown: hours, minutes and
   * seconds exactly two digits, days at least two (more beyond 99 days),
   * and each reading back as its value.
   */
  lemma DisplayReadsBack(difference: int)
    requires difference > 0
    ensures var t := Split(difference);
            && |Display(t.hours)| == 2 && |Display(t.minutes)| == 2 && |Display(t.seconds)| == 2
            && |Display(t.days)| >= 2 && (|Display(t.days)| == 2 <==> t.days < 100)
            && AllDigits(Display(t.days)) && ValueOf(Display(t.days)) == t.days
            && AllDigits(Display(t.hours)) && ValueOf(Display(t.hours)) == t.hours
            && AllDigits(Display(t.minutes)) && ValueOf(Display(t.minutes)) == t.minutes
            && AllDigits(Display(t.seconds)) && ValueOf(Display(t.seconds)) == t.seconds
  {
  }

  /**
   * The card and the countdown switch years at different moments: the card
   * at February 14 00:00, the countdown at 16:00.  They name different years
   * exactly from the card's switch up to the countdown's, and then the card
   * is already on the next year.  From year 100 on that window is February 14
   * before 16:00.
   */
  lemma CardAndCountdownYears(now: DateTime, zone: Zone)
    requires Monotone(zone) && Valid(now)
    ensures var cardYear := InvitationCard.ValentinesDate(now, zone).year;
            var countdownYear := Target(now, zone).year;
            && (cardYear != countdownYear <==>
                  !Before(now, NewDate(now.year, 1, 14, 0)) && Before(now, NewDate(now.year, 1, 14, 16)))
            && (cardYear != countdownYear ==>
                  cardYear == JsYear(now.year + 1) && countdownYear == JsYear(now.year))
            && (now.year >= 100 ==>
                  (cardYear != countdownYear <==> now.month == 2 && now.day == 14 && now.hour < 16))
  {
    var c0, c16 := NewDate(now.year, 1, 14, 0), NewDate(now.year, 1, 14, 16);
    InstantOrder(zone, now, c0);
    InstantOrder(zone, now, c16);
    InstantOrder(zone, c0, c16);
  }
}
