/**
 * The month grid of the calendar view: the month padded at the front with the
 * end of the previous month so that weeks start on Monday, and at the back
 * with the start of the next month up to the end of the last week; the
 * weekday and weekend columns; the fixtures of one cell; and the colour theme
 * of a competition.
 *
 * Every `new Date(year, m, d)` of the grid is the local midnight of a
 * calendar day, so a cell is that day's number (days since 1970-01-01, as
 * ECMAScript MakeDay counts them). The year of such a constructor call is
 * read through `FullYear`, as `new Date` reads it.
 */
module Calendar {
  import opened Wrappers
  import opened Text
  import opened Fixtures
  import opened Civil
  import Classifier

  /** `{ date, isCurrent }`: the cell's day and whether it belongs to the month shown. */
  datatype Cell = Cell(day: int, isCurrent: bool)

  /** The year and month before month `m` (0 to 11) of year `y`. */
  function PrevMonth(y: int, m: int): (r: (int, int))
    requires 0 <= m < 12
    ensures 0 <= r.1 < 12
  {
    if m == 0 then (y - 1, 11) else (y, m - 1)
  }

  /** Day `d` of "month `m - 1`" is day `d` of the previous month, which ends the day before month `m` starts. */
  lemma PrevMonthDays(y: int, m: int, py: int, pm: int, d: int)
    requires 0 <= m < 12 && (py, pm) == PrevMonth(y, m)
    ensures MakeDay(y, m - 1, d) == MakeDay(py, pm, d)
    ensures MakeDay(y, m, 1) == MakeDay(py, pm, 1) + DaysInMonth(py, pm)
    ensures MakeDay(y, m, 0) == MakeDay(py, pm, DaysInMonth(py, pm))
  {
    MonthLength(py, pm);
    if m == 0 {
      MonthCarry(y, d);
      MonthCarry(y, 1);
      MonthCarry(y, 0);
    }
    assert MakeDay(py, pm + 1, 1) == MakeDay(y, m, 1);
    assert MakeDay(py, pm + 1, 0) == MakeDay(y, m, 0);
  }

  /** `new Date(y, m + 1, 0).getDate()` is the length of month `m`. */
  lemma MonthEnd(y: int, m: int)
    requires 0 <= m < 12
    ensures DateOfDay(MakeDay(y, m + 1, 0)).day == DaysInMonth(y, m)
  {
    MonthLength(y, m);
    DateOfMakeDay(y, m, DaysInMonth(y, m));
  }

  /** `new Date(y, m, 0).getDate()` is the length of the previous month. */
  lemma PrevMonthEnd(y: int, m: int)
    requires 0 <= m < 12
    ensures var (py, pm) := PrevMonth(y, m); DateOfDay(MakeDay(y, m, 0)).day == DaysInMonth(py, pm)
  {
    var (py, pm) := PrevMonth(y, m);
    PrevMonthDays(y, m, py, pm, 0);
    DateOfMakeDay(py, pm, DaysInMonth(py, pm));
  }

  /** Monday-first column of a day: `(getDay() + 6) % 7`, 0 for Monday and 6 for Sunday. */
  function DayOfWeekIndex(day: int): (r: int)
    ensures 0 <= r < 7
    ensures r == 6 <==> WeekDayOfDay(day) == 0
    ensures r == 0 <==> WeekDayOfDay(day) == 1
    ensures (r + 1) % 7 == WeekDayOfDay(day)
  {
    (WeekDayOfDay(day) + 6) % 7
  }

  /** Saturday and Sunday: the last two columns. */
  predicate IsWeekend(day: int) {
    DayOfWeekIndex(day) >= 5
  }

  lemma WeekendDays(day: int)
    ensures IsWeekend(day) <==> WeekDayOfDay(day) == 6 || WeekDayOfDay(day) == 0
  {
  }

  lemma ModUnique(x: int, q: int, r: int)
    requires x == 7 * q + r && 0 <= r < 7
    ensures x % 7 == r && x / 7 == q
  {
  }

  lemma ModAdd(a: int, b: int)
    ensures (a % 7 + b) % 7 == (a + b) % 7
  {
    var s := (a % 7 + b) / 7;
    ModUnique(a % 7 + b, s, (a % 7 + b) % 7);
    ModUnique(a + b, a / 7 + s, (a % 7 + b) % 7);
  }

  /** The column index advances by one a day and wraps after Sunday. */
  lemma {:induction false} ColumnsAdvance(start: int, k: int)
    ensures DayOfWeekIndex(start + k) == (DayOfWeekIndex(start) + k) % 7
  {
    ModAdd(start + k + 4, 6);
    ModAdd(start + 4, 6);
    ModAdd(start + 10, k);
    assert start + 4 + 6 + k == start + k + 4 + 6;
  }

  /** The offset of the first of the month: `(getDay() - 1 + 7) % 7`. */
  function LeadingCells(y: int, m: int): (r: int)
    ensures 0 <= r < 7
  {
    (WeekDayOfDay(MakeDay(FullYear(y), m, 1)) - 1 + 7) % 7
  }

  lemma LeadingCellsIsColumn(y: int, m: int)
    ensures LeadingCells(y, m) == DayOfWeekIndex(MakeDay(FullYear(y), m, 1))
    ensures WeekDayOfDay(MakeDay(FullYear(y), m, 1)) == 0 ==> LeadingCells(y, m) == 6
    ensures WeekDayOfDay(MakeDay(FullYear(y), m, 1)) == 1 ==> LeadingCells(y, m) == 0
  {
  }

  /** `Math.ceil(n / 7) * 7`. */
  function RoundUpToWeek(n: nat): (r: nat)
    ensures r % 7 == 0 && n <= r < n + 7
  {
    ((n + 6) / 7) * 7
  }

  lemma DayWithinMonth(y: int, m: int, d: int)
    ensures MakeDay(y, m, d) == MakeDay(y, m, 1) + d - 1
  {
  }

  lemma PrevCellDay(y: int, m: int, prevMonthDays: int, i: int)
    requires 0 <= m < 12
    requires var (py, pm) := PrevMonth(y, m); prevMonthDays == DaysInMonth(py, pm)
    ensures MakeDay(y, m - 1, prevMonthDays - i) == MakeDay(y, m, 1) - 1 - i
  {
    var (py, pm) := PrevMonth(y, m);
    PrevMonthDays(y, m, py, pm, prevMonthDays - i);
    DayWithinMonth(py, pm, prevMonthDays - i);
  }

  lemma NextCellDay(y: int, m: int, d: int)
    requires 0 <= m < 12
    ensures MakeDay(y, m + 1, d) == MakeDay(y, m, 1) + DaysInMonth(y, m) + d - 1
  {
    MonthLength(y, m);
    DayWithinMonth(y, m + 1, d);
  }

  /**
   * The quantities the grid is built from: the first weekday of the month,
   * Monday-first, and the lengths of this and the previous month, each read
   * from a `Date` the way the grid reads it.
   */
  method MonthFrame(year: int, month: int) returns (y: int, firstDay: int, daysInMonth: int, prevMonthDays: int)
    requires 0 <= month < 12
    ensures y == FullYear(year)
    ensures firstDay == LeadingCells(year, month)
    ensures daysInMonth == DaysInMonth(y, month)
    ensures var (py, pm) := PrevMonth(y, month); prevMonthDays == DaysInMonth(py, pm)
  {
    y := FullYear(year);
    var firstDayStandard := WeekDayOfDay(MakeDay(y, month, 1));
    firstDay := (firstDayStandard - 1 + 7) % 7;
    assert firstDay == LeadingCells(year, month);
    daysInMonth := DateOfDay(MakeDay(y, month + 1, 0)).day;
    prevMonthDays := DateOfDay(MakeDay(y, month, 0)).day;
    MonthEnd(y, month);
    PrevMonthEnd(y, month);
  }

  /**
   * The cells of month `month` (0 to 11) of `year`: consecutive days from the
   * Monday on or before the first of the month; the month's own days are
   * current; the grid is the fewest whole weeks that hold the month.
   */
  method BuildCells(year: int, month: int) returns (cells: seq<Cell>)
    requires 0 <= month < 12
    ensures var y := FullYear(year);
      var firstDay := LeadingCells(year, month);
      var count := DaysInMonth(y, month);
      var start := MakeDay(y, month, 1) - firstDay;
      && |cells| == RoundUpToWeek(firstDay + count)
      && (forall k :: 0 <= k < |cells| ==> cells[k].day == start + k)
      && (forall k :: 0 <= k < |cells| ==> (cells[k].isCurrent <==> firstDay <= k < firstDay + count))
  {
    var y, firstDay, daysInMonth, prevMonthDays := MonthFrame(year, month);
    ghost var start := MakeDay(y, month, 1) - firstDay;

    cells := [];
    var i := firstDay - 1;
    while i >= 0
      invariant -1 <= i <= firstDay - 1
      invariant |cells| == firstDay - 1 - i
      invariant forall k :: 0 <= k < |cells| ==> cells[k] == Cell(start + k, false)
    {
      PrevCellDay(y, month, prevMonthDays, i);
      cells := cells + [Cell(MakeDay(y, month - 1, prevMonthDays - i), false)];
      i := i - 1;
    }

    for d := 1 to daysInMonth + 1
      invariant |cells| == firstDay + d - 1
      invariant forall k :: 0 <= k < |cells| ==> cells[k] == Cell(start + k, k >= firstDay)
    {
      DayWithinMonth(y, month, d);
      cells := cells + [Cell(MakeDay(y, month, d), true)];
    }

    var totalCellsSoFar := |cells|;
    var totalCellsNeeded := RoundUpToWeek(totalCellsSoFar);
    var remaining := totalCellsNeeded - totalCellsSoFar;
    for d := 1 to remaining + 1
      invariant |cells| == totalCellsSoFar + d - 1
      invariant forall k :: 0 <= k < |cells| ==> cells[k] == Cell(start + k, firstDay <= k < totalCellsSoFar)
    {
      NextCellDay(y, month, d);
      cells := cells + [Cell(MakeDay(y, month + 1, d), false)];
    }
  }

  /** Reading back the date of a day given by its year, month and day. */
  lemma DateAt(z: int, y: int, m: int, d: int)
    requires 0 <= m < 12 && 1 <= d <= DaysInMonth(y, m) && z == MakeDay(y, m, d)
    ensures DateOfDay(z) == Date(y, m, d)
  {
    DateOfMakeDay(y, m, d);
  }

  /** A leading cell, day `z`, shows one of the last `firstDay` days of the previous month `(py, pm)`. */
  lemma PrevCellDate(y: int, m: int, py: int, pm: int, firstDay: int, k: int, z: int)
    requires 0 <= m < 12 && 0 <= k < firstDay < 7 && (py, pm) == PrevMonth(y, m)
    requires z == MakeDay(y, m, 1) - firstDay + k
    ensures DateOfDay(z) == Date(py, pm, DaysInMonth(py, pm) - (firstDay - 1 - k))
  {
    var d := DaysInMonth(py, pm) - (firstDay - 1 - k);
    PrevMonthDays(y, m, py, pm, d);
    DayWithinMonth(py, pm, d);
    DateAt(z, py, pm, d);
  }

  /** The cells after the leading ones show the month's own days in order. */
  lemma CurrentCellDate(y: int, m: int, firstDay: int, k: int, z: int)
    requires 0 <= m < 12 && firstDay <= k < firstDay + DaysInMonth(y, m)
    requires z == MakeDay(y, m, 1) - firstDay + k
    ensures DateOfDay(z) == Date(y, m, k - firstDay + 1)
  {
    DayWithinMonth(y, m, k - firstDay + 1);
    DateAt(z, y, m, k - firstDay + 1);
  }

  /** The year and month after month `m` (0 to 11) of year `y`. */
  function NextMonth(y: int, m: int): (r: (int, int))
    requires 0 <= m < 12
    ensures 0 <= r.1 < 12
  {
    if m == 11 then (y + 1, 0) else (y, m + 1)
  }

  /** A trailing cell, day `z`, shows one of the first days of the next month `(ny, nm)`. */
  lemma NextCellDate(y: int, m: int, ny: int, nm: int, firstDay: int, k: int, z: int)
    requires 0 <= m < 12 && firstDay + DaysInMonth(y, m) <= k < firstDay + DaysInMonth(y, m) + 7
    requires (ny, nm) == NextMonth(y, m) && z == MakeDay(y, m, 1) - firstDay + k
    ensures DateOfDay(z) == Date(ny, nm, k - firstDay - DaysInMonth(y, m) + 1)
  {
    var d := k - firstDay - DaysInMonth(y, m) + 1;
    NextCellDay(y, m, d);
    NextMonthDay(y, m, ny, nm, d);
    assert 1 <= d <= 7 <= DaysInMonth(ny, nm);
    DateAt(z, ny, nm, d);
  }

  /** Day `d` of month `m + 1` is day `d` of the next month, across a year end too. */
  lemma NextMonthDay(y: int, m: int, ny: int, nm: int, d: int)
    requires 0 <= m < 12 && (ny, nm) == NextMonth(y, m)
    ensures MakeDay(y, m + 1, d) == MakeDay(ny, nm, d)
  {
    if m == 11 {
      MonthCarry(y + 1, d);
    }
  }

  /** The date shown in cell `k` of a grid that starts `firstDay` cells before the first of month `m`. */
  lemma CellDates(y: int, m: int, py: int, pm: int, ny: int, nm: int, firstDay: int, count: int, k: int, z: int)
    requires 0 <= m < 12 && (py, pm) == PrevMonth(y, m) && (ny, nm) == NextMonth(y, m)
    requires 0 <= firstDay < 7 && count == DaysInMonth(y, m) && 0 <= k
    requires z == MakeDay(y, m, 1) - firstDay + k
    ensures k < firstDay ==> DateOfDay(z) == Date(py, pm, DaysInMonth(py, pm) - (firstDay - 1 - k))
    ensures firstDay <= k < firstDay + count ==> DateOfDay(z) == Date(y, m, k - firstDay + 1)
    ensures firstDay + count <= k < firstDay + count + 7 ==> DateOfDay(z) == Date(ny, nm, k - firstDay - count + 1)
  {
    if k < firstDay {
      PrevCellDate(y, m, py, pm, firstDay, k, z);
    } else if k < firstDay + count {
      CurrentCellDate(y, m, firstDay, k, z);
    } else if k < firstDay + count + 7 {
      NextCellDate(y, m, ny, nm, firstDay, k, z);
    }
  }

  /**
   * `!cell.isCurrent && cell.date.getDate() < 15` singles out exactly the
   * next month's padding: the previous month's padding shows days from 22 on.
   */
  lemma NextMonthTest(y: int, m: int, firstDay: int, count: int, k: int, isCurrent: bool, z: int)
    requires 0 <= m < 12 && 0 <= firstDay < 7 && count == DaysInMonth(y, m)
    requires 0 <= k < RoundUpToWeek(firstDay + count)
    requires isCurrent <==> firstDay <= k < firstDay + count
    requires z == MakeDay(y, m, 1) - firstDay + k
    ensures (!isCurrent && DateOfDay(z).day < 15) <==> k >= firstDay + count
  {
    var (py, pm) := PrevMonth(y, m);
    var (ny, nm) := NextMonth(y, m);
    CellDates(y, m, py, pm, ny, nm, firstDay, count, k, z);
    assert DaysInMonth(py, pm) >= 28;
  }

  /** A grid that starts `f` cells before a day in column `f` starts on a Monday and keeps the columns. */
  lemma {:induction false} GridColumns(first: int, f: int, k: int)
    requires f == DayOfWeekIndex(first)
    ensures DayOfWeekIndex(first - f + k) == k % 7
  {
    var c := DayOfWeekIndex(first - f);
    ColumnsAdvance(first - f, f);
    assert first - f + f == first;
    assert (c + f) % 7 == f;
    if c + f >= 7 {
      ModUnique(c + f, 1, c + f - 7);
    } else {
      ModUnique(c + f, 0, c + f);
    }
    assert c == 0;
    ColumnsAdvance(first - f, k);
  }

  /** The columns run Monday to Sunday: cell `k` is in column `k % 7`. */
  lemma CellColumns(y: int, m: int, k: int)
    ensures DayOfWeekIndex(MakeDay(FullYear(y), m, 1) - LeadingCells(y, m) + k) == k % 7
  {
    LeadingCellsIsColumn(y, m);
    GridColumns(MakeDay(FullYear(y), m, 1), LeadingCells(y, m), k);
  }

  // ---------------------------------------------------------------------
  // The fixtures of a cell (lines 111-116)

  /**
   * Fixtures whose local calendar date (day, month and full year) is the
   * cell's date `date`, in their order.
   */
  function DayEvents(fixtures: seq<Fixture>, date: Date, offset: int): (r: seq<Fixture>)
    ensures forall f :: f in r <==> f in fixtures && LocalDate(f.date, offset) == date
    ensures |r| <= |fixtures|
    decreases |fixtures|
  {
    if |fixtures| == 0 then []
    else
      var rest := DayEvents(fixtures[1..], date, offset);
      assert fixtures == [fixtures[0]] + fixtures[1..];
      if LocalDate(fixtures[0].date, offset) == date then [fixtures[0]] + rest else rest
  }

  /** The filter keeps order: filtering a concatenation filters each part. */
  lemma {:induction false} DayEventsAppend(a: seq<Fixture>, b: seq<Fixture>, date: Date, offset: int)
    ensures DayEvents(a + b, date, offset) == DayEvents(a, date, offset) + DayEvents(b, date, offset)
    decreases |a|
  {
    if |a| == 0 {
      assert a + b == b;
    } else {
      assert (a + b)[0] == a[0] && (a + b)[1..] == a[1..] + b;
      DayEventsAppend(a[1..], b, date, offset);
      var rest := DayEvents(a[1..], date, offset) + DayEvents(b, date, offset);
      if LocalDate(a[0].date, offset) == date {
        assert DayEvents(a + b, date, offset) == [a[0]] + rest;
      } else {
        assert DayEvents(a + b, date, offset) == rest;
      }
    }
  }

  // ---------------------------------------------------------------------
  // `getCompetitionTheme` (lines 48-56)

  datatype Theme = Silver | Bronze | Gold

  /** The text the theme is read from: competition, a space, and the tag or nothing, upper-cased. */
  function ThemeText(f: Fixture): string {
    Upper(f.competition + " " + (if f.competitionTag.Some? then f.competitionTag.value else ""))
  }

  function CompetitionTheme(f: Fixture): (r: Option<Theme>)
    ensures var t := ThemeText(f);
      && (r == Some(Silver) <==> Contains(t, "PLATE"))
      && (r == Some(Bronze) <==> !Contains(t, "PLATE") && (Contains(t, "SHIELD") || Contains(t, "QUARTER-FINAL")))
      && (r == Some(Gold) <==> !Contains(t, "PLATE") && !Contains(t, "SHIELD") && !Contains(t, "QUARTER-FINAL")
                                 && (Contains(t, "CUP") || Contains(t, "TROPHY")))
  {
    var t := ThemeText(f);
    if Contains(t, "PLATE") then Some(Silver)
    else if Contains(t, "SHIELD") || Contains(t, "QUARTER-FINAL") then Some(Bronze)
    else if Contains(t, "CUP") || Contains(t, "TROPHY") then Some(Gold)
    else None
  }

  lemma UpperPlate()
    ensures Upper("plate") == "PLATE"
  {
  }

  /** A label that mentions a plate in any case puts "PLATE" in the upper-cased label followed by anything. */
  lemma PlateInUpper(name: string, rest: string)
    requires Contains(Lower(name), "plate")
    ensures Contains(Upper(name + rest), "PLATE")
  {
    Classifier.LabelKeeps(name, rest, "plate");
    ContainsLowerUpper(name + rest, "plate");
    UpperPlate();
  }

  /** A label that mentions a plate in any case puts "PLATE" in the theme text. */
  lemma PlateInThemeText(f: Fixture)
    requires Contains(Lower(f.competition), "plate")
    ensures Contains(ThemeText(f), "PLATE")
  {
    var tag := if f.competitionTag.Some? then f.competitionTag.value else "";
    PlateInUpper(f.competition, " " + tag);
    assert f.competition + (" " + tag) == f.competition + " " + tag;
  }

  /** A label that mentions a plate in any case makes the fixture silver, whatever else it or the tag says. */
  lemma PlateLabelIsSilver(f: Fixture)
    requires Contains(Lower(f.competition), "plate")
    ensures CompetitionTheme(f) == Some(Silver)
  {
    PlateInThemeText(f);
  }

  /** A description that mentions a plate makes the fixture silver, whatever else its label says. */
  lemma PlateIsSilver(f: Fixture, c: string, d: string)
    requires Contains(d, "plate") && f.competition == Classifier.WithSuffixes(c, d)
    ensures CompetitionTheme(f) == Some(Silver)
  {
    Classifier.PlateLabelled(c, d);
    PlateLabelIsSilver(f);
  }
}
