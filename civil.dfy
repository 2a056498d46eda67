/**
 * The calendar arithmetic of ECMAScript's Date: day numbers counted from
 * 1970-01-01, `MakeDay` (which normalises an out-of-range month into the year
 * and an out-of-range day into the neighbouring months), `Date.UTC`, the
 * local-time constructor `new Date(y, m, d)`, `getDay`, and the opposite
 * direction, from an instant back to its calendar year, month and day.
 * Months are 0-based, as in JavaScript. Local time is UTC plus a fixed
 * offset in milliseconds.
 */
module Civil {

  /** Milliseconds in a day; written out as the literal 86400000 in the arithmetic below. */
  const MsPerDay: int := 86400000

  predicate IsLeapYear(y: int) {
    y % 4 == 0 && (y % 100 != 0 || y % 400 == 0)
  }

  function DaysInYear(y: int): int {
    if IsLeapYear(y) then 366 else 365
  }

  /** ECMAScript DayFromYear: the day number of 1 January of year `y`. */
  function DayFromYear(y: int): int {
    365 * (y - 1970) + (y - 1969) / 4 - (y - 1901) / 100 + (y - 1601) / 400
  }

  lemma Div4Unique(x: int, q: int, r: int)
    requires x == 4 * q + r && 0 <= r < 4
    ensures x / 4 == q && x % 4 == r
  {
  }

  lemma Div100Unique(x: int, q: int, r: int)
    requires x == 100 * q + r && 0 <= r < 100
    ensures x / 100 == q && x % 100 == r
  {
  }

  lemma Div400Unique(x: int, q: int, r: int)
    requires x == 400 * q + r && 0 <= r < 400
    ensures x / 400 == q && x % 400 == r
  {
  }

  /** The leap-day count `(y - 1969) / 4` grows by one exactly into a year divisible by 4. */
  lemma Step4(y: int)
    ensures (y - 1968) / 4 - (y - 1969) / 4 == if y % 4 == 0 then 1 else 0
  {
    var q, r := (y - 1969) / 4, (y - 1969) % 4;
    if r == 3 {
      Div4Unique(y - 1968, q + 1, 0);
      Div4Unique(y, q + 493, 0);
    } else {
      Div4Unique(y - 1968, q, r + 1);
      Div4Unique(y, q + 492, r + 1);
    }
  }

  lemma Step100(y: int)
    ensures (y - 1900) / 100 - (y - 1901) / 100 == if y % 100 == 0 then 1 else 0
  {
    var q, r := (y - 1901) / 100, (y - 1901) % 100;
    if r == 99 {
      Div100Unique(y - 1900, q + 1, 0);
      Div100Unique(y, q + 20, 0);
    } else {
      Div100Unique(y - 1900, q, r + 1);
      Div100Unique(y, q + 19, r + 1);
    }
  }

  lemma Step400(y: int)
    ensures (y - 1600) / 400 - (y - 1601) / 400 == if y % 400 == 0 then 1 else 0
  {
    var q, r := (y - 1601) / 400, (y - 1601) % 400;
    if r == 399 {
      Div400Unique(y - 1600, q + 1, 0);
      Div400Unique(y, q + 5, 0);
    } else {
      Div400Unique(y - 1600, q, r + 1);
      Div400Unique(y, q + 4, r + 1);
    }
  }

  /** A multiple of 400 is a multiple of 100, and a multiple of 100 one of 4. */
  lemma DivisorsChain(y: int)
    ensures y % 400 == 0 ==> y % 100 == 0
    ensures y % 100 == 0 ==> y % 4 == 0
  {
    if y % 400 == 0 {
      Div100Unique(y, 4 * (y / 400), 0);
    }
    if y % 100 == 0 {
      Div4Unique(y, 25 * (y / 100), 0);
    }
  }

  lemma DayFromYearStep(y: int)
    ensures DayFromYear(y + 1) - DayFromYear(y) == DaysInYear(y)
  {
    var s4 := (y - 1968) / 4 - (y - 1969) / 4;
    var s100 := (y - 1900) / 100 - (y - 1901) / 100;
    var s400 := (y - 1600) / 400 - (y - 1601) / 400;
    Step4(y);
    Step100(y);
    Step400(y);
    DivisorsChain(y);
    assert DayFromYear(y + 1) - DayFromYear(y) == 365 + s4 - s100 + s400;
  }

  /** Days in month `m` (0 = January) of year `y`. */
  function DaysInMonth(y: int, m: int): int
    requires 0 <= m < 12
  {
    if m == 1 then (if IsLeapYear(y) then 29 else 28)
    else if m == 3 || m == 5 || m == 8 || m == 10 then 30
    else 31
  }

  /** Days of year `y` before the first of month `m`. */
  function DaysBeforeMonth(y: int, m: int): int
    requires 0 <= m <= 12
  {
    var common :=
      if m == 0 then 0 else if m == 1 then 31 else if m == 2 then 59 else if m == 3 then 90
      else if m == 4 then 120 else if m == 5 then 151 else if m == 6 then 181
      else if m == 7 then 212 else if m == 8 then 243 else if m == 9 then 273
      else if m == 10 then 304 else if m == 11 then 334 else 365;
    common + (if IsLeapYear(y) && m >= 2 then 1 else 0)
  }

  lemma DaysBeforeMonthBounds(y: int, m: int)
    requires 0 <= m <= 12
    ensures 0 <= DaysBeforeMonth(y, m) <= DaysBeforeMonth(y, 12) == DaysInYear(y)
    ensures m < 12 ==> DaysBeforeMonth(y, m + 1) - DaysBeforeMonth(y, m) == DaysInMonth(y, m)
  {
  }

  /** ECMAScript MakeDay: the day number of day `d` of month `m` of year `y`, months and days normalised. */
  function MakeDay(y: int, m: int, d: int): (r: int)
    ensures 0 <= m < 12 ==> DayFromYear(y) + d - 1 <= r < DayFromYear(y) + d - 1 + DaysInYear(y)
  {
    var ym := y + m / 12;
    var mn := m % 12;
    DayFromYear(ym) + DaysBeforeMonth(ym, mn) + d - 1
  }

  lemma MakeDayInYear(y: int, m: int, d: int)
    requires 0 <= m < 12
    ensures MakeDay(y, m, d) == DayFromYear(y) + DaysBeforeMonth(y, m) + d - 1
  {
    assert m / 12 == 0 && m % 12 == m;
  }

  /** ECMAScript MakeTime. */
  function MakeTime(h: int, mi: int, s: int): int {
    h * 3600000 + mi * 60000 + s * 1000
  }

  /** ECMAScript MakeDate. */
  function MakeDate(day: int, time: int): int {
    day * 86400000 + time
  }

  /** Both `Date.UTC` and `new Date(y, m, d)` read a year from 0 to 99 as 1900 to 1999. */
  function FullYear(y: int): (r: int)
    ensures r < 0 || r >= 100
    ensures r % 100 == y % 100
    ensures !(0 <= y <= 99) ==> r == y
  {
    if 0 <= y <= 99 then 1900 + y else y
  }

  /** `Date.UTC(y, m, d, h, mi, s)`. */
  function UtcTime(y: int, m: int, d: int, h: int, mi: int, s: int): (r: int)
    ensures r % 1000 == 0
    ensures 0 <= h < 24 && 0 <= mi < 60 && 0 <= s < 60 ==> r / 86400000 == MakeDay(FullYear(y), m, d)
  {
    var day := MakeDay(FullYear(y), m, d);
    WholeSeconds(day, h, mi, s);
    MakeDate(day, MakeTime(h, mi, s))
  }

  /** `Date.UTC` reads a year from 0 to 99 as that year of the twentieth century. */
  lemma TwoDigitYear(y: int, m: int, d: int, h: int, mi: int, s: int)
    requires 0 <= y <= 99
    ensures UtcTime(y, m, d, h, mi, s) == UtcTime(1900 + y, m, d, h, mi, s)
  {
    assert FullYear(y) == FullYear(1900 + y);
  }

  /** A time of whole seconds is a whole number of seconds, and an in-range time stays inside its day. */
  lemma WholeSeconds(day: int, h: int, mi: int, s: int)
    ensures MakeDate(day, MakeTime(h, mi, s)) % 1000 == 0
    ensures 0 <= h < 24 && 0 <= mi < 60 && 0 <= s < 60 ==> MakeDate(day, MakeTime(h, mi, s)) / 86400000 == day
  {
    var x := day * 86400 + h * 3600 + mi * 60 + s;
    assert day * 86400000 == 1000 * (day * 86400);
    assert h * 3600000 == 1000 * (h * 3600);
    assert mi * 60000 == 1000 * (mi * 60);
    assert MakeDate(day, MakeTime(h, mi, s)) == 1000 * x;
    Thousands(x);
    if 0 <= h < 24 && 0 <= mi < 60 && 0 <= s < 60 {
      assert 0 <= MakeTime(h, mi, s) < 86400000;
      DayOfInstant(day, MakeTime(h, mi, s));
    }
  }

  lemma Thousands(x: int)
    ensures (1000 * x) % 1000 == 0
  {
  }

  /** `Date.UTC` of in-range fields, read back in UTC, gives the same calendar date. */
  lemma UtcTimeReadsBack(y: int, m: int, d: int, h: int, mi: int, s: int)
    requires y >= 100 && 0 <= m < 12 && 1 <= d <= DaysInMonth(y, m)
    requires 0 <= h < 24 && 0 <= mi < 60 && 0 <= s < 60
    ensures LocalDate(UtcTime(y, m, d, h, mi, s), 0) == Date(y, m, d)
  {
    var ms := MakeTime(h, mi, s);
    assert 0 <= ms < 86400000;
    LocalDateOfLocalDay(y, m, d, ms, 0, UtcTime(y, m, d, h, mi, s));
  }

  /** `new Date(y, m, d).getTime()` where local time is `offset` milliseconds ahead of UTC. */
  function LocalMidnight(y: int, m: int, d: int, offset: int): (r: int)
    ensures (r + offset) % 86400000 == 0
    ensures (r + offset) / 86400000 == MakeDay(FullYear(y), m, d)
  {
    var day := MakeDay(FullYear(y), m, d);
    DayOfInstant(day, 0);
    MakeDate(day, 0) - offset
  }

  /** ECMAScript WeekDay: 0 is Sunday. */
  function WeekDay(t: int): (w: int)
    ensures 0 <= w < 7
  {
    (t / 86400000 + 4) % 7
  }

  /** `getDay()` in local time. */
  function LocalWeekDay(t: int, offset: int): (w: int)
    ensures 0 <= w < 7
  {
    WeekDay(t + offset)
  }

  /** The weekday of a day number: what `getDay()` gives for any instant of that local day. */
  function WeekDayOfDay(day: int): (w: int)
    ensures 0 <= w < 7
  {
    (day + 4) % 7
  }

  /**
   * `getDay()` of any instant of the local day `new Date(y, m, d)` starts is
   * the weekday of that day's number: the weekday follows the local date.
   */
  lemma LocalWeekDayOfDate(y: int, m: int, d: int, offset: int, t: int)
    requires 0 <= t < 86400000
    ensures LocalWeekDay(LocalMidnight(y, m, d, offset) + t, offset) == WeekDayOfDay(MakeDay(FullYear(y), m, d))
  {
    var r, z := LocalMidnight(y, m, d, offset), MakeDay(FullYear(y), m, d);
    assert r + offset == z * 86400000;
    DayOfInstant(z, t);
    assert LocalMidnight(y, m, d, offset) + t + offset == z * 86400000 + t;
  }

  // ---------------------------------------------------------------------
  // From a day number back to the calendar

  function YearUp(day: int, y: int): (r: int)
    requires DayFromYear(y) <= day
    ensures DayFromYear(r) <= day < DayFromYear(r + 1)
    decreases day - DayFromYear(y)
  {
    DayFromYearStep(y);
    if DayFromYear(y + 1) <= day then YearUp(day, y + 1) else y
  }

  function YearDown(day: int, y: int): (r: int)
    requires day < DayFromYear(y + 1)
    ensures DayFromYear(r) <= day < DayFromYear(r + 1)
    decreases DayFromYear(y + 1) - day
  {
    DayFromYearStep(y);
    if day < DayFromYear(y) then YearDown(day, y - 1) else y
  }

  /** ECMAScript YearFromTime, on day numbers: the year that contains `day`. */
  function YearOfDay(day: int): (y: int)
    ensures DayFromYear(y) <= day < DayFromYear(y + 1)
  {
    DayFromYearStep(1969);
    if day >= 0 then YearUp(day, 1970) else YearDown(day, 1969)
  }

  function MonthFrom(y: int, doy: int, m: int): (r: int)
    requires 0 <= m < 12
    requires DaysBeforeMonth(y, m) <= doy < DaysInYear(y)
    ensures m <= r < 12
    ensures DaysBeforeMonth(y, r) <= doy < DaysBeforeMonth(y, r + 1)
    decreases 12 - m
  {
    DaysBeforeMonthBounds(y, m + 1);
    if doy < DaysBeforeMonth(y, m + 1) then m else MonthFrom(y, doy, m + 1)
  }

  datatype Date = Date(year: int, month: int, day: int)

  /** The calendar date of a day number: `getFullYear()`, `getMonth()`, `getDate()`. */
  function DateOfDay(z: int): (r: Date)
    ensures 0 <= r.month < 12
    ensures 1 <= r.day <= DaysInMonth(r.year, r.month)
    ensures MakeDay(r.year, r.month, r.day) == z
    ensures DayFromYear(r.year) <= z < DayFromYear(r.year + 1)
    ensures DaysBeforeMonth(r.year, r.month) <= z - DayFromYear(r.year) < DaysBeforeMonth(r.year, r.month + 1)
  {
    var y := YearOfDay(z);
    DayFromYearStep(y);
    var doy := z - DayFromYear(y);
    assert DaysBeforeMonth(y, 0) <= doy < DaysInYear(y);
    var m := MonthFrom(y, doy, 0);
    DayPlaced(y, m, z);
    Date(y, m, doy - DaysBeforeMonth(y, m) + 1)
  }

  /** The day of the month of a day number placed in month `m` of year `y`. */
  lemma DayPlaced(y: int, m: int, z: int)
    requires 0 <= m < 12
    requires DaysBeforeMonth(y, m) <= z - DayFromYear(y) < DaysBeforeMonth(y, m + 1)
    ensures var d := z - DayFromYear(y) - DaysBeforeMonth(y, m) + 1;
      1 <= d <= DaysInMonth(y, m) && MakeDay(y, m, d) == z
  {
    DaysBeforeMonthBounds(y, m);
    MakeDayInYear(y, m, z - DayFromYear(y) - DaysBeforeMonth(y, m) + 1);
  }

  /** The local calendar date of instant `t`. */
  function LocalDate(t: int, offset: int): Date {
    DateOfDay((t + offset) / 86400000)
  }

  /** Day numbers increase with the year. */
  lemma {:induction false} DayFromYearMonotone(a: int, b: int)
    requires a < b
    ensures DayFromYear(a) + 365 <= DayFromYear(b)
    decreases b - a
  {
    DayFromYearStep(a);
    if a + 1 < b { DayFromYearMonotone(a + 1, b); }
  }

  /** Only one year contains a given day number. */
  lemma YearUnique(a: int, b: int, z: int)
    requires DayFromYear(a) <= z < DayFromYear(a + 1)
    requires DayFromYear(b) <= z < DayFromYear(b + 1)
    ensures a == b
  {
    if a < b {
      DayFromYearMonotone(a + 1, b + 1);
    } else if b < a {
      DayFromYearMonotone(b + 1, a + 1);
    }
  }

  /** Only one month of a year contains a given day of that year. */
  lemma MonthUnique(y: int, a: int, b: int, doy: int)
    requires 0 <= a < 12 && 0 <= b < 12
    requires DaysBeforeMonth(y, a) <= doy < DaysBeforeMonth(y, a + 1)
    requires DaysBeforeMonth(y, b) <= doy < DaysBeforeMonth(y, b + 1)
    ensures a == b
  {
    if a < b {
      DaysBeforeMonthMonotone(y, a + 1, b);
    } else if b < a {
      DaysBeforeMonthMonotone(y, b + 1, a);
    }
  }

  /** A calendar date and its day number determine each other. */
  lemma DateOfMakeDay(y: int, m: int, d: int)
    requires 0 <= m < 12 && 1 <= d <= DaysInMonth(y, m)
    ensures DateOfDay(MakeDay(y, m, d)) == Date(y, m, d)
  {
    var z := MakeDay(y, m, d);
    MakeDayPlace(y, m, d);
    var r := DateOfDay(z);
    YearUnique(r.year, y, z);
    MonthUnique(y, r.month, m, z - DayFromYear(y));
    MakeDayInYear(y, m, r.day);
  }

  /** Day `d` of month `m` lies in year `y` and in month `m` of it. */
  lemma MakeDayPlace(y: int, m: int, d: int)
    requires 0 <= m < 12 && 1 <= d <= DaysInMonth(y, m)
    ensures DayFromYear(y) <= MakeDay(y, m, d) < DayFromYear(y + 1)
    ensures DaysBeforeMonth(y, m) <= MakeDay(y, m, d) - DayFromYear(y) < DaysBeforeMonth(y, m + 1)
    ensures MakeDay(y, m, d) == DayFromYear(y) + DaysBeforeMonth(y, m) + d - 1
  {
    MakeDayInYear(y, m, d);
    DaysBeforeMonthBounds(y, m);
    DaysBeforeMonthBounds(y, m + 1);
    DayFromYearStep(y);
  }

  lemma {:induction false} DaysBeforeMonthMonotone(y: int, a: int, b: int)
    requires 0 <= a <= b <= 12
    ensures DaysBeforeMonth(y, a) <= DaysBeforeMonth(y, b)
    decreases b - a
  {
    if a < b { DaysBeforeMonthMonotone(y, a, b - 1); }
  }

  /** Any instant of the local day `y-m-d` reads back as that date. */
  lemma LocalDateOfLocalDay(y: int, m: int, d: int, ms: int, offset: int, t: int)
    requires 0 <= m < 12 && 1 <= d <= DaysInMonth(y, m) && 0 <= ms < 86400000
    requires t == MakeDate(MakeDay(y, m, d), ms) - offset
    ensures LocalDate(t, offset) == Date(y, m, d)
  {
    var z := MakeDay(y, m, d);
    DayOfInstant(z, ms);
    assert (t + offset) / 86400000 == z;
    DateOfMakeDay(y, m, d);
  }

  /** Every instant of a day lies in that day. */
  lemma DayOfInstant(z: int, ms: int)
    requires 0 <= ms < 86400000
    ensures (z * 86400000 + ms) / 86400000 == z
  {
  }

  /** Month -1 is December of the year before, and month 12 is January of the year after. */
  lemma MonthCarry(y: int, d: int)
    ensures MakeDay(y, -1, d) == MakeDay(y - 1, 11, d)
    ensures MakeDay(y - 1, 12, d) == MakeDay(y, 0, d)
  {
    assert -1 / 12 == -1 && -1 % 12 == 11;
    assert 12 / 12 == 1 && 12 % 12 == 0;
  }

  /** The first of the next month comes `DaysInMonth` days after the first of this one. */
  lemma MonthLength(y: int, m: int)
    requires 0 <= m < 12
    ensures MakeDay(y, m + 1, 1) - MakeDay(y, m, 1) == DaysInMonth(y, m)
    ensures MakeDay(y, m + 1, 0) == MakeDay(y, m, DaysInMonth(y, m))
  {
    MakeDayInYear(y, m, 1);
    MakeDayInYear(y, m, DaysInMonth(y, m));
    DaysBeforeMonthBounds(y, m);
    if m == 11 {
      MakeDayNewYear(y, 1);
      MakeDayNewYear(y, 0);
      DayFromYearStep(y);
    } else {
      MakeDayInYear(y, m + 1, 1);
      MakeDayInYear(y, m + 1, 0);
    }
  }

  /** Month 12 of a year is January of the next. */
  lemma MakeDayNewYear(y: int, d: int)
    ensures MakeDay(y, 12, d) == DayFromYear(y + 1) + d - 1
  {
    assert 12 / 12 == 1 && 12 % 12 == 0;
  }
}
