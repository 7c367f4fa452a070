/** Calendar dates (the `date` column type) and timestamps (the `timestamp`
    column type, milliseconds since 1970-01-01T00:00:00Z). */
module Dates {

  type Timestamp = int

  const MsPerDay: int := 86_400_000

  datatype CalendarDate = CalendarDate(year: int, month: int, day: int)

  predicate IsLeapYear(y: int) {
    y % 4 == 0 && (y % 100 != 0 || y % 400 == 0)
  }

  function DaysInMonth(y: int, m: int): (n: int)
    requires 1 <= m <= 12
    ensures 28 <= n <= 31
    ensures m == 2 ==> (n == 29 <==> IsLeapYear(y))
  {
    if m == 2 then (if IsLeapYear(y) then 29 else 28)
    else if m == 4 || m == 6 || m == 9 || m == 11 then 30
    else 31
  }

  /** A date the `date` column accepts: a real day of the Gregorian calendar
      (the store has no year 0). */
  predicate IsRealDate(d: CalendarDate) {
    1 <= d.year && 1 <= d.month <= 12 && 1 <= d.day <= DaysInMonth(d.year, d.month)
  }

  /** A value of the `date` column. */
  type StoredDate = d: CalendarDate | IsRealDate(d) witness CalendarDate(1970, 1, 1)

  /** The calendar day after `d`. */
  function NextDay(d: CalendarDate): (r: CalendarDate)
    requires IsRealDate(d)
    ensures IsRealDate(r)
  {
    if d.day < DaysInMonth(d.year, d.month) then d.(day := d.day + 1)
    else if d.month < 12 then CalendarDate(d.year, d.month + 1, 1)
    else CalendarDate(d.year + 1, 1, 1)
  }

  /** Days from March 1 to the first of month `m` in a year counted from March,
      so that the leap day falls at the end of that year. */
  function DaysFromMarch(m: int): (n: int)
    requires 1 <= m <= 12
    ensures 0 <= n <= 337
  {
    if m == 3 then 0 else if m == 4 then 31 else if m == 5 then 61
    else if m == 6 then 92 else if m == 7 then 122 else if m == 8 then 153
    else if m == 9 then 184 else if m == 10 then 214 else if m == 11 then 245
    else if m == 12 then 275 else if m == 1 then 306 else 337
  }

  /** Days from the epoch's origin to March 1 of year `y + 1`, counting
      each year from March: the days of the years before it plus their leap
      days. */
  function YearStart(y: int): int {
    365 * y + y / 4 - y / 100 + y / 400
  }

  /** Days from 1970-01-01 to `d` in the proleptic Gregorian calendar. */
  function DaysFromCivil(d: CalendarDate): int
    requires 1 <= d.month <= 12
  {
    var y := if d.month <= 2 then d.year - 1 else d.year;
    YearStart(y) + DaysFromMarch(d.month) + d.day - 1 - 719468
  }

  /** What `new Date(plannedDate)` yields for a stored date: its midnight, UTC. */
  function StartOfDay(d: CalendarDate): (r: Timestamp)
    requires 1 <= d.month <= 12
    ensures r % MsPerDay == 0
  {
    DaysFromCivil(d) * MsPerDay
  }

  lemma EpochIsDayZero()
    ensures DaysFromCivil(CalendarDate(1970, 1, 1)) == 0
  {
  }

  /** Stepping a year count by one moves `y / 4` exactly when 4 divides `y`. */
  lemma DivStep4(y: int)
    ensures y / 4 - (y - 1) / 4 == if y % 4 == 0 then 1 else 0
  {
    var q, r := (y - 1) / 4, (y - 1) % 4;
    assert y - 1 == 4 * q + r && 0 <= r < 4;
    if r == 3 {
      assert y == 4 * (q + 1);
    } else {
      assert y == 4 * q + (r + 1);
    }
  }

  /** Likewise for 100. */
  lemma DivStep100(y: int)
    ensures y / 100 - (y - 1) / 100 == if y % 100 == 0 then 1 else 0
  {
    var q, r := (y - 1) / 100, (y - 1) % 100;
    assert y - 1 == 100 * q + r && 0 <= r < 100;
    if r == 99 {
      assert y == 100 * (q + 1);
    } else {
      assert y == 100 * q + (r + 1);
    }
  }

  /** Likewise for 400. */
  lemma DivStep400(y: int)
    ensures y / 400 - (y - 1) / 400 == if y % 400 == 0 then 1 else 0
  {
    var q, r := (y - 1) / 400, (y - 1) % 400;
    assert y - 1 == 400 * q + r && 0 <= r < 400;
    if r == 399 {
      assert y == 400 * (q + 1);
    } else {
      assert y == 400 * q + (r + 1);
    }
  }

  /** The year running from March of `y - 1` to February of `y` has 366 days
      exactly when `y` is a leap year. */
  lemma YearLength(y: int)
    ensures YearStart(y) - YearStart(y - 1) == if IsLeapYear(y) then 366 else 365
  {
    assert 365 * y - 365 * (y - 1) == 365;
    DivStep4(y);
    DivStep100(y);
    DivStep400(y);
    var a, b, c := y / 4 - (y - 1) / 4, y / 100 - (y - 1) / 100, y / 400 - (y - 1) / 400;
    assert YearStart(y) - YearStart(y - 1) == 365 + a - b + c;
    if y % 400 == 0 {
      assert y == 100 * (4 * (y / 400));
      assert y == 4 * (25 * (y / 100));
    } else if y % 100 == 0 {
      assert y == 4 * (25 * (y / 100));
    }
  }

  /** Consecutive calendar days are consecutive day numbers, so DaysFromCivil
      agrees with the calendar that NextDay and DaysInMonth describe. */
  lemma {:induction false} DaysFromCivilCountsDays(d: CalendarDate)
    requires IsRealDate(d)
    ensures DaysFromCivil(NextDay(d)) == DaysFromCivil(d) + 1
  {
    if d.day == DaysInMonth(d.year, d.month) && d.month == 2 {
      YearLength(d.year);
    }
  }

  /** Midnights of consecutive calendar days are one day of milliseconds apart. */
  lemma StartOfNextDay(d: CalendarDate)
    requires IsRealDate(d)
    ensures StartOfDay(NextDay(d)) == StartOfDay(d) + MsPerDay
  {
    DaysFromCivilCountsDays(d);
  }
}
