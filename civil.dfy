/**
 * Calendar arithmetic of JavaScript's `Date`, on local civil days: a day is the triple that
 * `getFullYear()`, `getMonth()` (0 = January) and `getDate()` report, and `new Date(y, m, d)`
 * normalises an out-of-range month or day by rolling into the neighbouring months and years.
 */
module Civil {

  /** A calendar day: full year, month 0..11, day of the month. */
  datatype CivilDate = CivilDate(year: int, month: int, day: int)

  /** Gregorian leap years. */
  predicate IsLeapYear(y: int) {
    (y % 4 == 0 && y % 100 != 0) || y % 400 == 0
  }

  /** Gregorian month lengths, month 0 being January. */
  function MonthLength(y: int, m: int): (n: int)
    requires 0 <= m < 12
    ensures 28 <= n <= 31
    ensures m == 1 ==> (n == 29 <==> IsLeapYear(y))
  {
    if m == 1 then (if IsLeapYear(y) then 29 else 28)
    else if m == 3 || m == 5 || m == 8 || m == 10 then 30
    else 31
  }

  /** A triple that names a real day. */
  predicate IsValid(c: CivilDate) {
    0 <= c.month < 12 && 1 <= c.day <= MonthLength(c.year, c.month)
  }

  /** The days a `Date` can denote. */
  type Civil = c: CivilDate | IsValid(c) witness CivilDate(1970, 0, 1)

  /**
   * Days from 1 January 1970 to day `d` of month `m` of year `y`, by the closed formula of
   * the proleptic Gregorian calendar (years counted from March, so that February is last).
   */
  function DaysFromCivil(y: int, m: int, d: int): int
    requires 0 <= m < 12
  {
    var yp := if m < 2 then y - 1 else y;
    var mp := if m < 2 then m + 10 else m - 2;
    YearDays(yp) + MarchDays(mp) + d - 1 - 719468
  }

  /** Days in the March-based years before year `yp`'s March, counted from year 0. */
  function YearDays(yp: int): int {
    365 * yp + yp / 4 - yp / 100 + yp / 400
  }

  /** Days from 1 March to the 1st of the `mp`-th month after March. */
  function MarchDays(mp: int): int {
    (153 * mp + 2) / 5
  }

  /** The day number of a day: what makes two `Date`s fall on the same `toDateString()`. */
  function DayNumber(c: Civil): int {
    DaysFromCivil(c.year, c.month, c.day)
  }

  /** ECMAScript's MakeDay: the month rolls over into the year, the day counts on from the 1st. */
  function MakeDay(y: int, m: int, d: int): int {
    DaysFromCivil(y + m / 12, m % 12, 1) + d - 1
  }

  /** The month after month `m` of year `y`. */
  function NextOf(y: int, m: int): (r: (int, int))
    requires 0 <= m < 12
    ensures 0 <= r.1 < 12
  {
    if m == 11 then (y + 1, 0) else (y, m + 1)
  }

  /** The month before month `m` of year `y`. */
  function PrevOf(y: int, m: int): (r: (int, int))
    requires 0 <= m < 12
    ensures 0 <= r.1 < 12
    ensures NextOf(r.0, r.1) == (y, m)
  {
    if m == 0 then (y - 1, 11) else (y, m - 1)
  }

  /**
   * `new Date(y, m, d)` read back as a day: the month is brought into 0..11 first, then a day
   * before the 1st walks back through the preceding months and a day past the end walks on
   * through the following ones.
   */
  function Normalize(y: int, m: int, d: int): Civil
    decreases if d < 1 then 1 - d else 0, if d < 1 then 0 else d
  {
    var ym := y + m / 12;
    var mn := m % 12;
    if d < 1 then
      var p := PrevOf(ym, mn);
      Normalize(p.0, p.1, d + MonthLength(p.0, p.1))
    else if d > MonthLength(ym, mn) then
      var n := NextOf(ym, mn);
      Normalize(n.0, n.1, d - MonthLength(ym, mn))
    else
      CivilDate(ym, mn, d)
  }

  lemma FloorStep4(y: int)
    ensures y / 4 - (y - 1) / 4 == if y % 4 == 0 then 1 else 0
  {}

  lemma FloorStep100(y: int)
    ensures y / 100 - (y - 1) / 100 == if y % 100 == 0 then 1 else 0
  {}

  lemma FloorStep400(y: int)
    ensures y / 400 - (y - 1) / 400 == if y % 400 == 0 then 1 else 0
  {}

  /** The closed formula and the month table agree: the 1st of the next month is a month-length later. */
  lemma MonthStep(y: int, m: int)
    requires 0 <= m < 12
    ensures DaysFromCivil(NextOf(y, m).0, NextOf(y, m).1, 1) == DaysFromCivil(y, m, 1) + MonthLength(y, m)
  {
    MarchTable();
    if m == 1 {
      YearStep(y);
    }
  }

  /** A March-based year is 366 days long exactly when its February is a leap February. */
  lemma YearStep(y: int)
    ensures YearDays(y) - YearDays(y - 1) == if IsLeapYear(y) then 366 else 365
  {
    FloorStep4(y);
    FloorStep100(y);
    FloorStep400(y);
  }

  /** The offsets of the months from March: 31, 30, 31, 30, 31, 31, 30, 31, 30, 31, 31 days apart. */
  lemma MarchTable()
    ensures MarchDays(0) == 0 && MarchDays(1) == 31 && MarchDays(2) == 61 && MarchDays(3) == 92
    ensures MarchDays(4) == 122 && MarchDays(5) == 153 && MarchDays(6) == 184 && MarchDays(7) == 214
    ensures MarchDays(8) == 245 && MarchDays(9) == 275 && MarchDays(10) == 306 && MarchDays(11) == 337
  {}

  /** Within a month the day number counts on from the 1st. */
  lemma DaysFromFirst(y: int, m: int, d: int)
    requires 0 <= m < 12
    ensures DaysFromCivil(y, m, d) == DaysFromCivil(y, m, 1) + d - 1
  {}

  /** MakeDay of a month already in range. */
  lemma MakeDayInRange(y: int, m: int, d: int)
    requires 0 <= m < 12
    ensures MakeDay(y, m, d) == DaysFromCivil(y, m, 1) + d - 1
  {
    assert m / 12 == 0 && m % 12 == m;
  }

  /** `new Date(y, m, d)` lands on the day MakeDay computes, whatever the month and day. */
  lemma {:induction false} NormalizeMakesDay(y: int, m: int, d: int)
    ensures DayNumber(Normalize(y, m, d)) == MakeDay(y, m, d)
    decreases if d < 1 then 1 - d else 0, if d < 1 then 0 else d
  {
    var ym := y + m / 12;
    var mn := m % 12;
    var first := DaysFromCivil(ym, mn, 1);
    assert MakeDay(y, m, d) == first + d - 1;
    if d < 1 {
      var p := PrevOf(ym, mn);
      var d' := d + MonthLength(p.0, p.1);
      assert Normalize(y, m, d) == Normalize(p.0, p.1, d');
      NormalizeMakesDay(p.0, p.1, d');
      MakeDayInRange(p.0, p.1, d');
      MonthStep(p.0, p.1);
    } else if d > MonthLength(ym, mn) {
      var n := NextOf(ym, mn);
      var d' := d - MonthLength(ym, mn);
      assert Normalize(y, m, d) == Normalize(n.0, n.1, d');
      NormalizeMakesDay(n.0, n.1, d');
      MakeDayInRange(n.0, n.1, d');
      MonthStep(ym, mn);
    } else {
      assert Normalize(y, m, d) == CivilDate(ym, mn, d);
      DaysFromFirst(ym, mn, d);
    }
  }

  /** A day that already names a real day is left as it is. */
  lemma NormalizeValid(c: Civil)
    ensures Normalize(c.year, c.month, c.day) == c
  {}

  /** `date.setDate(date.getDate() + delta)`: the day `delta` days after `c`. */
  function DayShift(c: Civil, delta: int): Civil {
    Normalize(c.year, c.month, c.day + delta)
  }

  /** Shifting by `delta` days moves the day number by exactly `delta`. */
  lemma DayShiftNumber(c: Civil, delta: int)
    ensures DayNumber(DayShift(c, delta)) == DayNumber(c) + delta
  {
    NormalizeMakesDay(c.year, c.month, c.day + delta);
    MakeDayInRange(c.year, c.month, c.day + delta);
    DaysFromFirst(c.year, c.month, c.day);
  }

  /** `getDay()`: 0 = Sunday .. 6 = Saturday; 1 January 1970 was a Thursday. */
  function Weekday(c: Civil): (w: int)
    ensures 0 <= w < 7
  {
    (DayNumber(c) + 4) % 7
  }

  /** Day 0 is 1 January 1970, a Thursday, and 4 January 1970, three days on, was a Sunday. */
  lemma EpochWeekdays()
    ensures DayNumber(CivilDate(1970, 0, 1)) == 0 && Weekday(CivilDate(1970, 0, 1)) == 4
    ensures DayNumber(CivilDate(1970, 0, 4)) == 3 && Weekday(CivilDate(1970, 0, 4)) == 0
  {
    assert YearDays(1969) == 719162;
    assert MarchDays(10) == 306;
  }

  /** Every day's weekday is its distance from the Sunday 4 January 1970, modulo 7. */
  lemma WeekdayFromSunday(c: Civil)
    ensures Weekday(c) == (DayNumber(c) - DayNumber(CivilDate(1970, 0, 4))) % 7
  {
    EpochWeekdays();
    ModSevenWeek(DayNumber(c) - 3);
  }

  lemma ModSevenWeek(n: int)
    ensures (n + 7) % 7 == n % 7
  {}

  /** Monday 10 June 2024, as one later example. */
  lemma WeekdayExample()
    ensures DayNumber(CivilDate(2024, 5, 10)) == 19884 && Weekday(CivilDate(2024, 5, 10)) == 1
  {
    assert YearDays(2024) == 739251;
    assert MarchDays(3) == 92;
  }

  /** The next day falls on the next weekday. */
  lemma WeekdayNext(c: Civil)
    ensures Weekday(DayShift(c, 1)) == (Weekday(c) + 1) % 7
  {
    DayShiftNumber(c, 1);
    ModSevenStep(DayNumber(c) + 4);
  }

  lemma ModSevenStep(n: int)
    ensures (n + 1) % 7 == (n % 7 + 1) % 7
  {}
}
