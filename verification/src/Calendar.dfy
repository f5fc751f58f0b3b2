/** The proleptic Gregorian calendar as day numbers, and ISO weeks (section 4.1.4 of
    ISO 8601:2004). Day 0 is 0001-01-01, a Monday. */
module Calendar {
  import opened Wrappers

  datatype Date = Date(year: int, month: nat, day: nat)

  function DaysInMonth(year: int, month: nat): nat {
    if month in {1, 3, 5, 7, 8, 10, 12} then 31
    else if month in {4, 6, 9, 11} then 30
    else if month == 2 then (if IsLeapYear(year) then 29 else 28)
    else 30
  }

  predicate IsLeapYear(year: int) {
    (year % 4 == 0 && year % 100 != 0) || year % 400 == 0
  }

  function DaysInYear(year: int): nat {
    if IsLeapYear(year) then 366 else 365
  }

  predicate IsDate(d: Date) {
    1 <= d.month <= 12 && 1 <= d.day <= DaysInMonth(d.year, d.month)
  }

  // ----- Day numbers -----

  function DaysBeforeYear(year: int): int {
    var y := year - 1;
    365 * y + y / 4 - y / 100 + y / 400
  }

  function DaysBeforeMonth(year: int, month: nat): nat
    requires 1 <= month <= 13
  {
    if month == 1 then 0 else DaysBeforeMonth(year, month - 1) + DaysInMonth(year, month - 1)
  }

  function DayNumber(d: Date): int
    requires IsDate(d)
  {
    DaysBeforeYear(d.year) + DaysBeforeMonth(d.year, d.month) + d.day - 1
  }

  function FirstOfMonth(year: int, month: nat): int
    requires 1 <= month <= 12
  {
    DayNumber(Date(year, month, 1))
  }

  function NextDay(d: Date): Date
    requires IsDate(d)
  {
    if d.day < DaysInMonth(d.year, d.month) then d.(day := d.day + 1)
    else if d.month < 12 then Date(d.year, d.month + 1, 1)
    else Date(d.year + 1, 1, 1)
  }

  function PreviousDay(d: Date): Date
    requires IsDate(d)
  {
    if d.day > 1 then d.(day := d.day - 1)
    else if d.month > 1 then Date(d.year, d.month - 1, DaysInMonth(d.year, d.month - 1))
    else Date(d.year - 1, 12, 31)
  }

  lemma YearLength(year: int)
    ensures DaysBeforeYear(year + 1) == DaysBeforeYear(year) + DaysInYear(year)
  {
    FloorStep(year);
    LeapCenturies(year);
  }

  lemma LeapCenturies(year: int)
    ensures year % 400 == 0 ==> year % 100 == 0
    ensures year % 100 == 0 ==> year % 4 == 0
  {
    if year % 400 == 0 {
      assert year == 100 * (4 * (year / 400));
      Multiples(4 * (year / 400));
    }
    if year % 100 == 0 {
      assert year == 4 * (25 * (year / 100));
      Multiples(25 * (year / 100));
    }
  }

  lemma Multiples(k: int)
    ensures 100 * k % 100 == 0 && 4 * k % 4 == 0
  {
  }

  lemma FloorStep(y: int)
    ensures y / 4 == (y - 1) / 4 + if y % 4 == 0 then 1 else 0
    ensures y / 100 == (y - 1) / 100 + if y % 100 == 0 then 1 else 0
    ensures y / 400 == (y - 1) / 400 + if y % 400 == 0 then 1 else 0
  {
  }

  lemma MonthsFillYear(year: int)
    ensures DaysBeforeMonth(year, 13) == DaysInYear(year)
  {
    assert DaysBeforeMonth(year, 2) == 31;
    assert DaysBeforeMonth(year, 3) == DaysInYear(year) - 306;
    assert DaysBeforeMonth(year, 5) == DaysInYear(year) - 245;
    assert DaysBeforeMonth(year, 7) == DaysInYear(year) - 184;
    assert DaysBeforeMonth(year, 9) == DaysInYear(year) - 122;
    assert DaysBeforeMonth(year, 11) == DaysInYear(year) - 61;
  }

  /** Where each month starts, and the next year after the twelfth: five months in a row from March
      on have 153 days. */
  lemma MonthStarts(year: int, month: nat)
    requires 1 <= month <= 13
    ensures DaysBeforeMonth(year, month) ==
              if month == 1 then 0
              else if month == 2 then 31
              else 59 + (if IsLeapYear(year) then 1 else 0) + (153 * (month - 3) + 2) / 5
  {
    hide IsLeapYear;
    MonthsFillYear(year);
    assert DaysBeforeMonth(year, 2) == 31;
    assert DaysBeforeMonth(year, 3) == 31 + DaysInMonth(year, 2);
    assert DaysBeforeMonth(year, 5) == DaysBeforeMonth(year, 3) + 61;
    assert DaysBeforeMonth(year, 7) == DaysBeforeMonth(year, 5) + 61;
    assert DaysBeforeMonth(year, 9) == DaysBeforeMonth(year, 7) + 62;
    assert DaysBeforeMonth(year, 11) == DaysBeforeMonth(year, 9) + 61;
  }

  /** The calendar repeats after 400 years, which are whole weeks; of them 97 are leap years. */
  lemma CalendarRepeats(year: int)
    ensures DaysBeforeYear(year + 400) == DaysBeforeYear(year) + 365 * 400 + 97
    ensures IsLeapYear(year + 400) <==> IsLeapYear(year)
    ensures (365 * 400 + 97) % 7 == 0
  {
    hide DaysBeforeYear, IsLeapYear;
    DaysRepeat(year);
    LeapYearsRepeat(year);
  }

  lemma DaysRepeat(year: int)
    ensures DaysBeforeYear(year + 400) == DaysBeforeYear(year) + 365 * 400 + 97
  {
    var y := year - 1;
    CenturiesRepeat(y);
    assert year + 400 - 1 == y + 400;
  }

  lemma LeapYearsRepeat(year: int)
    ensures IsLeapYear(year + 400) <==> IsLeapYear(year)
  {
    CenturiesRepeat(year);
  }

  lemma CenturiesRepeat(y: int)
    ensures (y + 400) / 4 == y / 4 + 100 && (y + 400) / 100 == y / 100 + 4 && (y + 400) / 400 == y / 400 + 1
    ensures (y + 400) % 4 == y % 4 && (y + 400) % 100 == y % 100 && (y + 400) % 400 == y % 400
  {
  }

  /** The first of January 1970 is day 719162, a Thursday; 1900 has no leap day and 2000 has one. */
  lemma KnownDays()
    ensures DayNumber(Date(1970, 1, 1)) == 719162 && 719162 % 7 == 3
    ensures DayNumber(Date(1900, 3, 1)) == DayNumber(Date(1900, 2, 28)) + 1
    ensures IsDate(Date(2000, 2, 29)) && DayNumber(Date(2000, 3, 1)) == DayNumber(Date(2000, 2, 29)) + 1
  {
    MonthStarts(1900, 2);
    MonthStarts(1900, 3);
    MonthStarts(2000, 2);
    MonthStarts(2000, 3);
  }

  lemma NextDayNumber(d: Date)
    requires IsDate(d)
    ensures IsDate(NextDay(d)) && DayNumber(NextDay(d)) == DayNumber(d) + 1
  {
    hide DaysBeforeYear, IsLeapYear;
    if d.day == DaysInMonth(d.year, d.month) && d.month == 12 {
      YearLength(d.year);
      MonthsFillYear(d.year);
    }
  }

  lemma PreviousDayNumber(d: Date)
    requires IsDate(d)
    ensures IsDate(PreviousDay(d)) && DayNumber(PreviousDay(d)) == DayNumber(d) - 1
  {
    hide DaysBeforeYear, IsLeapYear;
    if d.day == 1 && d.month == 1 {
      YearLength(d.year - 1);
      MonthsFillYear(d.year - 1);
    }
  }

  /** The date of a day number: date arithmetic is counting days from 0001-01-01. */
  function FromDay(n: int): (d: Date)
    ensures IsDate(d) && DayNumber(d) == n
    decreases if n < 0 then -n else n
  {
    if n == 0 then Date(1, 1, 1)
    else if n > 0 then
      var d := FromDay(n - 1);
      NextDayNumber(d);
      NextDay(d)
    else
      var d := FromDay(n + 1);
      PreviousDayNumber(d);
      PreviousDay(d)
  }

  // ----- Day numbers follow the order of dates -----

  predicate Earlier(a: Date, b: Date) {
    a.year < b.year || (a.year == b.year && (a.month < b.month || (a.month == b.month && a.day < b.day)))
  }

  lemma {:induction false} LaterYear(a: int, b: int)
    requires a < b
    ensures DaysBeforeYear(a) + DaysInYear(a) <= DaysBeforeYear(b)
    decreases b - a
  {
    YearLength(b - 1);
    if a < b - 1 {
      LaterYear(a, b - 1);
    }
  }

  lemma {:induction false} LaterMonth(year: int, a: nat, b: nat)
    requires 1 <= a < b <= 13
    ensures DaysBeforeMonth(year, a) + DaysInMonth(year, a) <= DaysBeforeMonth(year, b)
    decreases b - a
  {
    if a < b - 1 {
      LaterMonth(year, a, b - 1);
    }
  }

  lemma WithinYear(d: Date)
    requires IsDate(d)
    ensures DaysBeforeYear(d.year) <= DayNumber(d) < DaysBeforeYear(d.year + 1)
  {
    LaterMonth(d.year, d.month, 13);
    MonthsFillYear(d.year);
    YearLength(d.year);
  }

  lemma EarlierHasSmallerNumber(a: Date, b: Date)
    requires IsDate(a) && IsDate(b) && Earlier(a, b)
    ensures DayNumber(a) < DayNumber(b)
  {
    if a.year < b.year {
      WithinYear(a);
      WithinYear(b);
      YearLength(a.year);
      LaterYear(a.year, b.year);
    } else if a.month < b.month {
      LaterMonth(a.year, a.month, b.month);
    }
  }

  /** Dates and day numbers correspond one to one, in the same order. */
  lemma DayNumberIsOrderIsomorphism(a: Date, b: Date)
    requires IsDate(a) && IsDate(b)
    ensures Earlier(a, b) <==> DayNumber(a) < DayNumber(b)
    ensures a == b <==> DayNumber(a) == DayNumber(b)
    ensures FromDay(DayNumber(a)) == a
  {
    TotalOrder(a, b);
    TotalOrder(FromDay(DayNumber(a)), a);
  }

  lemma TotalOrder(a: Date, b: Date)
    requires IsDate(a) && IsDate(b)
    ensures Earlier(a, b) <==> DayNumber(a) < DayNumber(b)
    ensures a == b <==> DayNumber(a) == DayNumber(b)
  {
    if Earlier(a, b) {
      EarlierHasSmallerNumber(a, b);
    } else if Earlier(b, a) {
      EarlierHasSmallerNumber(b, a);
    }
  }

  lemma YearOfDay(n: int, year: int)
    ensures FromDay(n).year == year <==> DaysBeforeYear(year) <= n < DaysBeforeYear(year + 1)
  {
    var d := FromDay(n);
    WithinYear(d);
    if d.year < year {
      LaterYear(d.year, year);
      YearLength(d.year);
    } else if year < d.year {
      LaterYear(year, d.year);
      YearLength(year);
    }
  }

  // ----- ISO weeks -----

  /** Weeks are numbered from the one that starts on day 0; this is the week with the
      year's 4 January. */
  function FirstWeek(year: int): int {
    (DaysBeforeYear(year) + 3) / 7
  }

  /** The Monday of week 1, the week with the year's first 4 January. */
  function Week1Monday(year: int): int {
    7 * FirstWeek(year)
  }

  function WeeksInYear(year: int): int {
    FirstWeek(year + 1) - FirstWeek(year)
  }

  lemma WeeksInYearIs52Or53(year: int)
    ensures WeeksInYear(year) in {52, 53}
    ensures DaysBeforeYear(year) - 3 <= Week1Monday(year) <= DaysBeforeYear(year) + 3
  {
    YearLength(year);
  }

  /** `NaiveDate::from_isoywd_opt` with Monday: the day number, if the year has that week. */
  function FromIsoMonday(year: int, week: int): Option<int> {
    if 1 <= week <= WeeksInYear(year) then Some(Week1Monday(year) + 7 * (week - 1)) else None
  }

  /** The ISO year of a week is that of its Thursday. */
  function IsoYear(week: int): int {
    FromDay(7 * week + 3).year
  }

  function IsoWeek(week: int): int {
    week - FirstWeek(IsoYear(week)) + 1
  }

  lemma IsoWeekIsFound(week: int)
    ensures 1 <= IsoWeek(week) <= WeeksInYear(IsoYear(week))
    ensures FromIsoMonday(IsoYear(week), IsoWeek(week)) == Some(7 * week)
  {
    var year := IsoYear(week);
    YearOfDay(7 * week + 3, year);
    WeeksInYearIs52Or53(year);
    WeeksInYearIs52Or53(year + 1);
  }

  /** Day 0 being a Monday puts 15 January 2024 on a Monday too, and into week 3 of 2024. */
  lemma AnchorOfTheWeek()
    ensures DayNumber(Date(2024, 1, 15)) % 7 == 0
    ensures FromIsoMonday(2024, 3) == Some(DayNumber(Date(2024, 1, 15)))
  {
    assert DaysBeforeYear(2024) == 738885;
    assert DaysBeforeYear(2025) == 739251;
  }
}
