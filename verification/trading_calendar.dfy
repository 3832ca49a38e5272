/**
 * The start/stop wrapper around the trading program: a date is a trading day
 * when it is a weekday, not one of the 2025 public holidays, and not a
 * temporary market closure (a check that always answers no). Whether the
 * program is running, whether its file exists and whether launching or
 * killing it worked are inputs.
 */
module TradingCalendar {

  datatype Date = Date(year: int, month: int, day: int)

  /**
   * Days since 1970-01-01 in the proleptic Gregorian calendar (the usual
   * civil-from-days count: years start in March, 400-year eras).
   */
  function DaysFromCivil(d: Date): int
  {
    var y := if d.month <= 2 then d.year - 1 else d.year;
    MarchYearStart(y) + DayOfMarchYear(d.month, d.day) - 719468
  }

  /** Days from March 1 to the given month and day (January and February close the year). */
  function DayOfMarchYear(month: int, day: int): int
  {
    var mp := (month + 9) % 12;
    (153 * mp + 2) / 5 + day - 1
  }

  /** `date.weekday()`: Monday is 0 and Sunday 6; 1970-01-01 was a Thursday. */
  function Weekday(d: Date): (r: int)
    ensures 0 <= r < 7
  {
    (DaysFromCivil(d) + 3) % 7
  }

  /** The 2025 Korean public holidays the scheduler knows, with their names. */
  const Holidays2025: map<Date, string> := map[
    Date(2025, 1, 1) := "신정",
    Date(2025, 1, 28) := "설날연휴",
    Date(2025, 1, 29) := "설날",
    Date(2025, 1, 30) := "설날연휴",
    Date(2025, 3, 1) := "삼일절",
    Date(2025, 5, 5) := "어린이날",
    Date(2025, 5, 6) := "대체공휴일",
    Date(2025, 6, 3) := "현충일",
    Date(2025, 8, 15) := "광복절",
    Date(2025, 9, 16) := "추석연휴",
    Date(2025, 9, 17) := "추석",
    Date(2025, 9, 18) := "추석연휴",
    Date(2025, 10, 3) := "개천절",
    Date(2025, 10, 9) := "한글날",
    Date(2025, 12, 25) := "크리스마스"]

  /** `check_temporary_closure`: the exchange calendar is never consulted, so no date is a closure. */
  function TemporaryClosure(d: Date): (r: bool)
    ensures !r
  {
    false
  }

  /** `is_trading_day`: a weekday that is neither a listed holiday nor a temporary closure. */
  function IsTradingDay(d: Date): (r: bool)
    ensures Weekday(d) >= 5 ==> !r
    ensures d in Holidays2025 ==> !r
    ensures r <==> Weekday(d) < 5 && d !in Holidays2025
  {
    if Weekday(d) >= 5 then false
    else if d in Holidays2025 then false
    else !TemporaryClosure(d)
  }

  predicate IsLeap(y: int)
  {
    y % 4 == 0 && (y % 100 != 0 || y % 400 == 0)
  }

  function DaysInMonth(y: int, m: int): int
  {
    if m == 2 then (if IsLeap(y) then 29 else 28)
    else if m == 4 || m == 6 || m == 9 || m == 11 then 30
    else 31
  }

  predicate ValidDate(d: Date)
  {
    1 <= d.month <= 12 && 1 <= d.day <= DaysInMonth(d.year, d.month)
  }

  /** The calendar day after `d`. */
  function NextDay(d: Date): Date
  {
    if d.day < DaysInMonth(d.year, d.month) then Date(d.year, d.month, d.day + 1)
    else if d.month < 12 then Date(d.year, d.month + 1, 1)
    else Date(d.year + 1, 1, 1)
  }

  /** The day count goes up by exactly one from each date to the next, so consecutive dates have consecutive weekdays. */
  lemma NextDayIsOneLater(d: Date)
    requires ValidDate(d)
    ensures DaysFromCivil(NextDay(d)) == DaysFromCivil(d) + 1
    ensures Weekday(NextDay(d)) == (Weekday(d) + 1) % 7
  {
    if d.day < DaysInMonth(d.year, d.month) {
      WithinMonth(d);
    } else if d.month == 2 {
      EndOfFebruary(d);
    } else {
      EndOfMonth(d);
    }
    NextWeekday(DaysFromCivil(d) + 3);
  }

  lemma WithinMonth(d: Date)
    requires ValidDate(d) && d.day < DaysInMonth(d.year, d.month)
    ensures DaysFromCivil(NextDay(d)) == DaysFromCivil(d) + 1
  {
    assert NextDay(d) == Date(d.year, d.month, d.day + 1);
    assert DayOfMarchYear(d.month, d.day + 1) == DayOfMarchYear(d.month, d.day) + 1;
  }

  lemma EndOfFebruary(d: Date)
    requires ValidDate(d) && d.month == 2 && d.day == DaysInMonth(d.year, 2)
    ensures DaysFromCivil(NextDay(d)) == DaysFromCivil(d) + 1
  {
    assert NextDay(d) == Date(d.year, 3, 1);
    MarchYearLength(d.year);
    assert DayOfMarchYear(2, d.day) == 336 + d.day;
    assert DayOfMarchYear(3, 1) == 0;
  }

  lemma EndOfMonth(d: Date)
    requires ValidDate(d) && d.month != 2 && d.day == DaysInMonth(d.year, d.month)
    ensures DaysFromCivil(NextDay(d)) == DaysFromCivil(d) + 1
  {
    MonthEnds(d.month);
    assert d.day == DaysInMonth(0, d.month);
    if d.month < 12 {
      assert NextDay(d) == Date(d.year, d.month + 1, 1);
    } else {
      assert NextDay(d) == Date(d.year + 1, 1, 1);
    }
  }

  lemma NextWeekday(x: int)
    ensures (x + 1) % 7 == (x % 7 + 1) % 7
  {
    var q := x / 7;
    var r := x % 7;
    assert x + 1 == 7 * q + (r + 1);
    if r == 6 {
      assert x + 1 == 7 * (q + 1);
    }
  }

  /** Outside February, the last day of a month and the first of the next are consecutive in the March-based count. */
  lemma MonthEnds(month: int)
    requires 1 <= month <= 12 && month != 2
    ensures month < 12 ==> DayOfMarchYear(month + 1, 1) == DayOfMarchYear(month, DaysInMonth(0, month)) + 1
    ensures month == 12 ==> DayOfMarchYear(1, 1) == DayOfMarchYear(12, 31) + 1
  {
  }

  /** Days before March 1 of year `y`, counted in March-based years within a 400-year era. */
  function MarchYearStart(y: int): int
  {
    var era := y / 400;
    var yoe := y - era * 400;
    era * 146097 + yoe * 365 + yoe / 4 - yoe / 100
  }

  /** The March-based year that ends in February of `y` has 366 days exactly when `y` is a leap year. */
  lemma MarchYearLength(y: int)
    ensures MarchYearStart(y) - MarchYearStart(y - 1) == if IsLeap(y) then 366 else 365
  {
    var era := y / 400;
    var yoe := y % 400;
    StartAt(y, era, yoe);
    if yoe == 0 {
      StartAt(y - 1, era - 1, 399);
      DivBy4(y, 100 * era, 0);
      DivBy100(y, 4 * era, 0);
    } else {
      StartAt(y - 1, era, yoe - 1);
      WithinEra(era, yoe);
    }
  }

  /** `MarchYearStart` in terms of a year's era and its offset in the era. */
  lemma StartAt(y: int, era: int, yoe: int)
    requires 0 <= yoe < 400 && y == 400 * era + yoe
    ensures MarchYearStart(y) == era * 146097 + yoe * 365 + yoe / 4 - yoe / 100
  {
    DivBy400(y, era, yoe);
  }

  lemma DivBy400(n: int, q: int, r: int)
    requires 0 <= r < 400 && n == 400 * q + r
    ensures n / 400 == q && n % 400 == r
  {
  }

  lemma DivBy4(n: int, q: int, r: int)
    requires 0 <= r < 4 && n == 4 * q + r
    ensures n % 4 == r
  {
  }

  lemma DivBy100(n: int, q: int, r: int)
    requires 0 <= r < 100 && n == 100 * q + r
    ensures n % 100 == r
  {
  }

  /** Inside an era a year is a leap year by its offset, and one more offset adds a leap day exactly then. */
  lemma WithinEra(era: int, yoe: int)
    requires 0 < yoe < 400
    ensures var y := 400 * era + yoe;
            IsLeap(y) <==> yoe % 4 == 0 && yoe % 100 != 0
    ensures (yoe / 4 - (yoe - 1) / 4) - (yoe / 100 - (yoe - 1) / 100) == if yoe % 4 == 0 && yoe % 100 != 0 then 1 else 0
  {
    var y := 400 * era + yoe;
    DivBy4(y, 100 * era + yoe / 4, yoe % 4);
    DivBy100(y, 4 * era + yoe / 100, yoe % 100);
    DivBy400(y, era, yoe);
    StepAcross(yoe, 4);
    StepAcross(yoe, 100);
  }

  /** Going from `a - 1` to `a` passes a multiple of `d` exactly when `a` is one. */
  lemma StepAcross(a: int, d: int)
    requires d == 4 || d == 100
    ensures a / d - (a - 1) / d == if a % d == 0 then 1 else 0
  {
    if d == 4 {
      DivBy4(a, a / 4, a % 4);
      if a % 4 == 0 {
        DivBy4Quot(a - 1, a / 4 - 1, 3);
      } else {
        DivBy4Quot(a - 1, a / 4, a % 4 - 1);
      }
    } else {
      if a % 100 == 0 {
        DivBy100Quot(a - 1, a / 100 - 1, 99);
      } else {
        DivBy100Quot(a - 1, a / 100, a % 100 - 1);
      }
    }
  }

  lemma DivBy4Quot(n: int, q: int, r: int)
    requires 0 <= r < 4 && n == 4 * q + r
    ensures n / 4 == q
  {
  }

  lemma DivBy100Quot(n: int, q: int, r: int)
    requires 0 <= r < 100 && n == 100 * q + r
    ensures n / 100 == q
  {
  }

  /** Outside 2025 the holiday list has no entry, so only the weekday decides. */
  lemma OtherYearsOnlyWeekendsClose(d: Date)
    requires d.year != 2025
    ensures IsTradingDay(d) <==> Weekday(d) < 5
  {
  }

  datatype Action = Launch | Kill | Nothing

  datatype Decision = Decision(result: bool, action: Action)

  /**
   * `start_program`: nothing on a non-trading day or without the program
   * file; `True` without launching when it already runs; otherwise a launch,
   * whose failure returns `False`.
   */
  function StartProgram(today: Date, programExists: bool, running: bool, launchWorks: bool): (r: Decision)
    ensures r.action != Kill
    ensures r.action == Launch <==> IsTradingDay(today) && programExists && !running && launchWorks
    ensures r.result <==> IsTradingDay(today) && programExists && (running || launchWorks)
  {
    if !IsTradingDay(today) then Decision(false, Nothing)
    else if !programExists then Decision(false, Nothing)
    else if !running then
      if launchWorks then Decision(true, Launch) else Decision(false, Nothing)
    else Decision(true, Nothing)
  }

  /** `stop_program`: kills a running program, and reports `True` when it is not running. */
  function StopProgram(running: bool, killWorks: bool): (r: Decision)
    ensures r.action != Launch
    ensures r.action == Kill <==> running && killWorks
    ensures r.result <==> !running || killWorks
  {
    if running then
      if killWorks then Decision(true, Kill) else Decision(false, Nothing)
    else Decision(true, Nothing)
  }

  /** A start never launches a second copy, and a stop of a stopped program changes nothing. */
  lemma StartAndStopAreIdempotent(today: Date, programExists: bool, launchWorks: bool, killWorks: bool)
    ensures StartProgram(today, programExists, true, launchWorks).action == Nothing
    ensures StopProgram(false, killWorks) == Decision(true, Nothing)
  {
  }
}
