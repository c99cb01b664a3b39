/**
 * The calendar fields a JavaScript `Date` reports for an instant given in
 * milliseconds since 1970-01-01T00:00:00Z: `getFullYear()`, `getMonth()`
 * (0-based), `getDate()` and `getHours()`, in the proleptic Gregorian calendar.
 * These getters use the host's local time zone; the model takes it to be UTC.
 */
module Calendar {

  const MillisPerHour: int := 60 * 60 * 1000
  const MillisPerDay: int := 24 * MillisPerHour
  const EpochYear: int := 1970

  predicate IsLeapYear(y: int)
  {
    y % 4 == 0 && (y % 100 != 0 || y % 400 == 0)
  }

  function DaysInYear(y: int): int
  {
    if IsLeapYear(y) then 366 else 365
  }

  /** Days in year `y` before the first of month `m` (0-based; `m == 12` is the whole year). */
  function DaysBeforeMonth(y: int, m: int): (r: int)
    requires 0 <= m <= 12
    ensures m == 12 ==> r == DaysInYear(y)
  {
    [0, 31, 59, 90, 120, 151, 181, 212, 243, 273, 304, 334, 365][m]
      + (if m >= 2 && IsLeapYear(y) then 1 else 0)
  }

  function DaysInMonth(y: int, m: int): (r: int)
    requires 0 <= m < 12
    ensures 28 <= r <= 31
  {
    DaysBeforeMonth(y, m + 1) - DaysBeforeMonth(y, m)
  }

  /** Days from 1 January 1970 to 1 January of year `y` (negative before 1970). */
  function DaysBeforeYear(y: int): int
    decreases if y >= EpochYear then y - EpochYear else EpochYear - y
  {
    if y == EpochYear then 0
    else if y > EpochYear then DaysBeforeYear(y - 1) + DaysInYear(y - 1)
    else DaysBeforeYear(y + 1) - DaysInYear(y)
  }

  lemma DaysBeforeNextYear(y: int)
    ensures DaysBeforeYear(y + 1) == DaysBeforeYear(y) + DaysInYear(y)
  {
  }

  /**
   * The year holding day `days` counted from 1 January of `year`, walking one year
   * at a time, with the day's 0-based position in that year.
   */
  function YearOf(days: int, year: int): (r: (int, int))
    ensures 0 <= r.1 < DaysInYear(r.0)
    ensures DaysBeforeYear(r.0) + r.1 == DaysBeforeYear(year) + days
    decreases (if days < 0 then 1 else 0), (if days < 0 then -days else days)
  {
    if days < 0 then
      DaysBeforeNextYear(year - 1);
      YearOf(days + DaysInYear(year - 1), year - 1)
    else if days >= DaysInYear(year) then
      DaysBeforeNextYear(year);
      YearOf(days - DaysInYear(year), year + 1)
    else (year, days)
  }

  /** The month holding day `doy` of year `y`, with the 0-based day in that month. */
  function MonthOf(y: int, doy: int): (r: (int, int))
    requires 0 <= doy < DaysInYear(y)
    ensures 0 <= r.0 < 12 && 0 <= r.1 < DaysInMonth(y, r.0)
    ensures DaysBeforeMonth(y, r.0) + r.1 == doy
  {
    MonthFrom(y, doy, 0)
  }

  function MonthFrom(y: int, rest: int, m: int): (r: (int, int))
    requires 0 <= m < 12 && 0 <= rest && DaysBeforeMonth(y, m) + rest < DaysInYear(y)
    ensures m <= r.0 < 12 && 0 <= r.1 < DaysInMonth(y, r.0)
    ensures DaysBeforeMonth(y, r.0) + r.1 == DaysBeforeMonth(y, m) + rest
    decreases 12 - m
  {
    if rest < DaysInMonth(y, m) then (m, rest)
    else MonthFrom(y, rest - DaysInMonth(y, m), m + 1)
  }

  /** The four fields the backup search reads from a `Date`. */
  datatype Fields = Fields(year: int, month: int, date: int, hours: int)

  /** What `getFullYear`, `getMonth`, `getDate` and `getHours` report for instant `t` (UTC). */
  function FieldsOf(t: int): (f: Fields)
    ensures 0 <= f.month < 12
    ensures 1 <= f.date <= DaysInMonth(f.year, f.month)
    ensures 0 <= f.hours < 24
  {
    var yd := YearOf(t / MillisPerDay, EpochYear);
    var md := MonthOf(yd.0, yd.1);
    Fields(yd.0, md.0, md.1 + 1, (t % MillisPerDay) / MillisPerHour)
  }

  /** The instant at which the hour named by `f` begins. */
  function HourStart(f: Fields): int
    requires 0 <= f.month < 12
  {
    (DaysBeforeYear(f.year) + DaysBeforeMonth(f.year, f.month) + f.date - 1) * MillisPerDay
      + f.hours * MillisPerHour
  }

  /** The instant `n` hours before `t`: it falls `n` hours earlier. */
  function HoursBefore(t: int, n: int): (r: int)
    ensures r / MillisPerHour == t / MillisPerHour - n
  {
    assert t - n * MillisPerHour == (t / MillisPerHour - n) * MillisPerHour + t % MillisPerHour;
    t - n * MillisPerHour
  }

  lemma HourWithinDay(t: int)
    ensures (t / MillisPerDay) * MillisPerDay + ((t % MillisPerDay) / MillisPerHour) * MillisPerHour
            == (t / MillisPerHour) * MillisPerHour
  {
    var d, r := t / MillisPerDay, t % MillisPerDay;
    var h, s := r / MillisPerHour, r % MillisPerHour;
    assert t == d * MillisPerDay + h * MillisPerHour + s;
    assert d * MillisPerDay + h * MillisPerHour == (d * 24 + h) * MillisPerHour;
    assert 0 <= s < MillisPerHour;
  }

  /** The fields name the hour of `t` exactly: they determine when that hour starts. */
  lemma FieldsRoundTrip(t: int)
    ensures HourStart(FieldsOf(t)) == (t / MillisPerHour) * MillisPerHour
  {
    var f := FieldsOf(t);
    var yd := YearOf(t / MillisPerDay, EpochYear);
    var md := MonthOf(yd.0, yd.1);
    assert DaysBeforeYear(f.year) + DaysBeforeMonth(f.year, f.month) + f.date - 1 == t / MillisPerDay;
    HourWithinDay(t);
  }

  /** Instants in different hours have different fields. */
  lemma FieldsDistinguishHours(t1: int, t2: int)
    requires t1 / MillisPerHour != t2 / MillisPerHour
    ensures FieldsOf(t1) != FieldsOf(t2)
  {
    FieldsRoundTrip(t1);
    FieldsRoundTrip(t2);
  }

  /** The day and the hour of the day are those of the hour count `t / MillisPerHour`. */
  lemma HourSplit(t: int)
    ensures t / MillisPerDay == (t / MillisPerHour) / 24
    ensures (t % MillisPerDay) / MillisPerHour == (t / MillisPerHour) % 24
  {
    var h, s := t / MillisPerHour, t % MillisPerHour;
    var q, r := h / 24, h % 24;
    assert t == q * MillisPerDay + (r * MillisPerHour + s);
    assert 0 <= r * MillisPerHour + s < MillisPerDay;
  }

  /** Instants in the same hour have the same fields: the fields name the hour and nothing finer. */
  lemma FieldsOfSameHour(t1: int, t2: int)
    requires t1 / MillisPerHour == t2 / MillisPerHour
    ensures FieldsOf(t1) == FieldsOf(t2)
  {
    HourSplit(t1);
    HourSplit(t2);
  }
}
