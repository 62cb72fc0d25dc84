/** Proleptic Gregorian calendar arithmetic, as Python's `datetime.date`
    performs it when `strptime` builds a date and `strftime('%A')` names
    its weekday. */
module Calendar {

  const MinYear := 1
  const MaxYear := 9999

  /** The Gregorian leap-year rule. */
  predicate IsLeapYear(year: int) {
    year % 4 == 0 && (year % 100 != 0 || year % 400 == 0)
  }

  function DaysInYear(year: int): nat {
    if IsLeapYear(year) then 366 else 365
  }

  function DaysInMonth(year: int, month: int): (n: nat)
    requires 1 <= month <= 12
    ensures 28 <= n <= 31
    ensures month == 2 ==> (n == 29 <==> IsLeapYear(year))
  {
    if month == 2 then (if IsLeapYear(year) then 29 else 28)
    else if month == 4 || month == 6 || month == 9 || month == 11 then 30
    else 31
  }

  /** The dates `datetime.date(year, month, day)` accepts; any other triple
      raises `ValueError`. */
  predicate IsValidDate(year: int, month: int, day: int) {
    MinYear <= year <= MaxYear && 1 <= month <= 12 && 1 <= day <= DaysInMonth(year, month)
  }

  /** Days in all years before `year`, in the closed form CPython uses. */
  function DaysBeforeYear(year: int): int
    requires year >= 1
  {
    var y := year - 1;
    y * 365 + y / 4 - y / 100 + y / 400
  }

  /** Days in the months of `year` before `month`, from CPython's table. */
  function DaysBeforeMonth(year: int, month: int): nat
    requires 1 <= month <= 12
  {
    [0, 31, 59, 90, 120, 151, 181, 212, 243, 273, 304, 334][month - 1]
      + (if month > 2 && IsLeapYear(year) then 1 else 0)
  }

  /** The proleptic Gregorian ordinal; 1 January of year 1 is day 1. */
  function Ordinal(year: int, month: int, day: int): int
    requires IsValidDate(year, month, day)
  {
    DaysBeforeYear(year) + DaysBeforeMonth(year, month) + day
  }

  /** The weekday index, Monday = 0 through Sunday = 6, as `date.weekday()`. */
  function Weekday(year: int, month: int, day: int): (w: nat)
    requires IsValidDate(year, month, day)
    ensures w < 7
  {
    (Ordinal(year, month, day) + 6) % 7
  }

  /** Full English weekday names, indexed by `Weekday`: what `%A` prints in
      the C locale. */
  const WeekdayNames: seq<string> :=
    ["Monday", "Tuesday", "Wednesday", "Thursday", "Friday", "Saturday", "Sunday"]

  /** Full English month names, January first: what `%B` stands for in the
      C locale. */
  const MonthNames: seq<string> :=
    ["January", "February", "March", "April", "May", "June", "July",
     "August", "September", "October", "November", "December"]

  /** The calendar day after a valid date. */
  function NextDate(year: int, month: int, day: int): (int, int, int)
    requires IsValidDate(year, month, day)
  {
    if day < DaysInMonth(year, month) then (year, month, day + 1)
    else if month < 12 then (year, month + 1, 1)
    else (year + 1, 1, 1)
  }

  // Reference definitions: the same day counts obtained by adding up the
  // lengths of the years and months one by one.

  function DaysBeforeYearBySum(year: int): nat
    requires year >= 1
    decreases year
  {
    if year == 1 then 0 else DaysBeforeYearBySum(year - 1) + DaysInYear(year - 1)
  }

  function DaysBeforeMonthBySum(year: int, month: int): nat
    requires 1 <= month <= 12
    decreases month
  {
    if month == 1 then 0 else DaysBeforeMonthBySum(year, month - 1) + DaysInMonth(year, month - 1)
  }

  /** Moving from one year to the next adds exactly that year's length. */
  lemma DaysBeforeYearStep(year: int)
    requires year >= 1
    ensures DaysBeforeYear(year + 1) == DaysBeforeYear(year) + DaysInYear(year)
  {
    QuotientStep4(year);
    QuotientStep100(year);
    QuotientStep400(year);
    CenturyDivisibility(year);
    var c4 := if year % 4 == 0 then 1 else 0;
    var c100 := if year % 100 == 0 then 1 else 0;
    var c400 := if year % 400 == 0 then 1 else 0;
    assert DaysBeforeYear(year + 1) == DaysBeforeYear(year) + 365 + c4 - c100 + c400;
  }

  // The count of multiples of 4, 100 or 400 up to `year` grows by one
  // exactly when `year` itself is such a multiple.

  lemma QuotientStep4(year: int)
    ensures year / 4 == (year - 1) / 4 + (if year % 4 == 0 then 1 else 0)
  {
  }

  lemma QuotientStep100(year: int)
    ensures year / 100 == (year - 1) / 100 + (if year % 100 == 0 then 1 else 0)
  {
  }

  lemma QuotientStep400(year: int)
    ensures year / 400 == (year - 1) / 400 + (if year % 400 == 0 then 1 else 0)
  {
  }

  /** A multiple of 400 is one of 100, and a multiple of 100 is one of 4. */
  lemma CenturyDivisibility(year: int)
    ensures year % 400 == 0 ==> year % 100 == 0
    ensures year % 100 == 0 ==> year % 4 == 0
  {
    if year % 400 == 0 {
      var k := year / 400;
      assert year / 100 == 4 * k;
    }
    if year % 100 == 0 {
      var k := year / 100;
      assert year / 4 == 25 * k;
    }
  }

  /** CPython's closed form counts the same days as adding up year lengths. */
  lemma {:induction false} DaysBeforeYearIsSum(year: int)
    requires year >= 1
    ensures DaysBeforeYear(year) == DaysBeforeYearBySum(year)
    decreases year
  {
    if year > 1 {
      DaysBeforeYearIsSum(year - 1);
      DaysBeforeYearStep(year - 1);
    }
  }

  /** CPython's month table counts the same days as adding up month lengths. */
  lemma DaysBeforeMonthIsSum(year: int, month: int)
    requires 1 <= month <= 12
    ensures DaysBeforeMonth(year, month) == DaysBeforeMonthBySum(year, month)
  {
    var s1 := DaysBeforeMonthBySum(year, 1);
    var s2 := DaysBeforeMonthBySum(year, 2);
    var s3 := DaysBeforeMonthBySum(year, 3);
    var s4 := DaysBeforeMonthBySum(year, 4);
    var s5 := DaysBeforeMonthBySum(year, 5);
    var s6 := DaysBeforeMonthBySum(year, 6);
    var s7 := DaysBeforeMonthBySum(year, 7);
    var s8 := DaysBeforeMonthBySum(year, 8);
    var s9 := DaysBeforeMonthBySum(year, 9);
    var s10 := DaysBeforeMonthBySum(year, 10);
    var s11 := DaysBeforeMonthBySum(year, 11);
    var s12 := DaysBeforeMonthBySum(year, 12);
  }

  /** The ordinal of the next date is one more. */
  lemma NextDateOrdinal(year: int, month: int, day: int)
    requires IsValidDate(year, month, day)
    requires (year, month, day) != (MaxYear, 12, 31)
    ensures var (y, m, d) := NextDate(year, month, day);
      IsValidDate(y, m, d) && Ordinal(y, m, d) == Ordinal(year, month, day) + 1
  {
    if day == DaysInMonth(year, month) {
      if month < 12 {
        DaysBeforeMonthIsSum(year, month);
        DaysBeforeMonthIsSum(year, month + 1);
      } else {
        DaysBeforeYearStep(year);
      }
    }
  }

  /** So the weekday of the next date is the next weekday, Sunday wrapping
      round to Monday. */
  lemma NextDateAdvancesWeekday(year: int, month: int, day: int)
    requires IsValidDate(year, month, day)
    requires (year, month, day) != (MaxYear, 12, 31)
    ensures var (y, m, d) := NextDate(year, month, day);
      IsValidDate(y, m, d) && Weekday(y, m, d) == (Weekday(year, month, day) + 1) % 7
  {
    NextDateOrdinal(year, month, day);
    var (y, m, d) := NextDate(year, month, day);
    WeekdayStep(Ordinal(year, month, day), Weekday(year, month, day), Weekday(y, m, d));
  }

  lemma WeekdayStep(o: int, w: int, w': int)
    requires w == (o + 6) % 7 && w' == (o + 1 + 6) % 7
    ensures w' == (w + 1) % 7
  {
  }

  /** The 2024 dates the day cards are usually made for. */
  lemma Weekdays2024()
    ensures IsLeapYear(2024)
    ensures IsValidDate(2024, 6, 3) && Weekday(2024, 6, 3) == 0
    ensures IsValidDate(2024, 6, 10) && Weekday(2024, 6, 10) == 0
    ensures IsValidDate(2024, 2, 29) && Weekday(2024, 2, 29) == 3
  {
  }
}
