/** Partition keys of each time granularity: how they are printed and parsed
    (servo-core/src/partition_mapping.rs, partition_validator.rs). A time partition is
    named by an ordinal: hours since day 0, days, weeks, months since year 0, or years. */
module PartitionKeys {
  import opened Integers
  import opened Wrappers
  import opened Assets
  import opened Calendar
  import opened ChronoFormat
  import opened Text

  // ----- Printing -----

  /** An `i32` as `{}` prints it. */
  function Signed(n: int): string {
    if n < 0 then "-" + Decimal(-n) else Decimal(n)
  }

  /** `%Y-%m-%d %H:00:00` */
  function FormatHour(day: int, hour: nat): string {
    FormatDate(FromDay(day)) + " " + HourField(hour)
  }

  /** `{}-{:02}` of a year and a month */
  function FormatMonth(year: int, month: nat): string {
    Signed(year) + "-" + Padded(month, 2)
  }

  function FormatWeek(year: int, week: nat): string {
    YearField(year) + "-W" + Padded(week, 2)
  }

  function DayKey(day: int): string {
    FormatDate(FromDay(day))
  }

  function HourKey(hour: int): string {
    FormatHour(hour / 24, hour % 24)
  }

  function MonthKey(month: int): string {
    FormatMonth(month / 12, month % 12 + 1)
  }

  function WeekKey(week: int): string {
    IsoWeekIsFound(week);
    FormatWeek(IsoYear(week), IsoWeek(week))
  }

  /** The canonical key of a time partition. */
  function Key(g: TimeGranularity, n: int): string {
    match g
    case Hourly => HourKey(n)
    case Daily => DayKey(n)
    case Weekly => WeekKey(n)
    case Monthly => MonthKey(n)
    case Yearly => Signed(n)
  }

  function YearOf(g: TimeGranularity, n: int): int {
    match g
    case Hourly => FromDay(n / 24).year
    case Daily => FromDay(n).year
    case Weekly => IsoYear(n)
    case Monthly => n / 12
    case Yearly => n
  }

  /** The year is printed with exactly four digits. */
  predicate InKeyRange(g: TimeGranularity, n: int) {
    (if g == Monthly || g == Yearly then 1000 else 0) <= YearOf(g, n) <= 9999
  }

  /** The keys of the partitions `lo` up to `hi`, in order. */
  function Keys(g: TimeGranularity, lo: int, hi: int): (r: seq<string>)
    ensures |r| == if lo <= hi then hi - lo else 0
    decreases hi - lo
  {
    if lo >= hi then [] else Keys(g, lo, hi - 1) + [Key(g, hi - 1)]
  }

  lemma {:induction false} KeysAt(g: TimeGranularity, lo: int, hi: int)
    ensures forall i :: 0 <= i < |Keys(g, lo, hi)| ==> Keys(g, lo, hi)[i] == Key(g, lo + i)
    decreases hi - lo
  {
    hide Key;
    if lo < hi {
      KeysAt(g, lo, hi - 1);
    }
  }

  lemma {:induction false} KeysConcat(g: TimeGranularity, lo: int, mid: int, hi: int)
    requires lo <= mid <= hi
    ensures Keys(g, lo, mid) + Keys(g, mid, hi) == Keys(g, lo, hi)
    decreases hi - mid
  {
    hide Key;
    if mid < hi {
      KeysConcat(g, lo, mid, hi - 1);
    }
  }

  // ----- Parsing -----

  /** The day number of a date. */
  function ParseDailyKey(key: string): Option<int> {
    ParseDate(key)
  }

  function ParseHourlyKey(key: string): Option<Moment> {
    var spaced := ParseMoment(key, ' ');
    if spaced.Some? then spaced else ParseMoment(key, 'T')
  }

  /** The Monday of an ISO week key, or of a key that is its date. */
  function ParseWeeklyKey(key: string): Option<int> {
    var parts := Split(key, "-W");
    if Contains(key, "-W") && |parts| == 2 && ParseI32(parts[0]).Some? && ParseU32(parts[1]).Some? then
      (var monday :- FromIsoMonday(ParseI32(parts[0]).value, ParseU32(parts[1]).value);
       if InCalendar(FromDay(monday)) then Some(monday) else None)
    else ParseDailyKey(key)
  }

  /** The year and month of a key with at least two fields. */
  function ParseMonthlyKey(key: string): Option<(int, nat)> {
    var parts := Split(key, "-");
    if |parts| >= 2 && ParseI32(parts[0]).Some? && ParseU32(parts[1]).Some? && 1 <= ParseU32(parts[1]).value <= 12 then
      Some((ParseI32(parts[0]).value, ParseU32(parts[1]).value))
    else None
  }

  // ----- Printing and then parsing -----

  lemma TwoDigits(n: nat)
    requires n < 100
    ensures Value(Padded(n, 2)) == n
  {
    PowersOfTen();
    ValueOfPadded(n, 2);
  }

  lemma FourDigits(n: nat)
    requires n <= 9999
    ensures Value(Padded(n, 4)) == n
  {
    PowersOfTen();
    ValueOfPadded(n, 4);
  }

  /** The date can be represented by the crate. */
  predicate IsRepresentable(g: TimeGranularity, n: int)
    requires g in {Daily, Hourly}
  {
    InCalendar(FromDay(if g == Daily then n else n / 24))
  }

  lemma KeyRangeIsRepresentable(g: TimeGranularity, n: int)
    requires g in {Daily, Hourly} && InKeyRange(g, n)
    ensures IsRepresentable(g, n)
  {
    hide FromDay;
  }

  lemma DayKeyRoundTrip(n: int)
    requires IsRepresentable(Daily, n)
    ensures ParseDailyKey(DayKey(n)) == Some(n)
  {
    ParseOfDate(FromDay(n));
  }

  lemma HourKeyRoundTrip(n: int)
    requires IsRepresentable(Hourly, n)
    ensures ParseHourlyKey(HourKey(n)) == Some(Moment(n / 24, n % 24, 0, 0))
  {
    FullHour(n % 24);
    ParseOfMoment(FromDay(n / 24), n % 24, 0, 0, ' ');
  }

  /** The Monday of a week may fall into the year before. */
  lemma WeekIsRepresentable(n: int)
    requires InKeyRange(Weekly, n)
    ensures InCalendar(FromDay(7 * n))
  {
    hide FromDay, DayNumber;
    DayYears(7 * n, 7 * n + 3);
    AroundYearZero();
    if 7 * n + 3 < -366 {
      DayYears(7 * n + 3, -367);
    }
    DayYears(-731, 7 * n);
  }

  lemma AroundYearZero()
    ensures FromDay(-367).year == -1 && FromDay(-731).year == -1
  {
    hide FromDay;
    assert DaysBeforeYear(0) == -366 && DaysBeforeYear(-1) == -731;
    YearOfDay(-367, -1);
    YearOfDay(-731, -1);
  }

  lemma WeekKeyRoundTrip(n: int)
    requires InKeyRange(Weekly, n)
    ensures ParseWeeklyKey(WeekKey(n)) == Some(7 * n)
  {
    hide IsoYear, IsoWeek, FirstWeek, WeeksInYear, FromIsoMonday, Padded, Value, Split, Contains, Pow10;
    WeekIsRepresentable(n);
    IsoWeekIsFound(n);
    WeeksInYearIs52Or53(IsoYear(n));
    var year, week := Padded(IsoYear(n), 4), Padded(IsoWeek(n), 2);
    SplitAtPattern(year, "-W", week);
    ContainsPattern(year, "-W", week);
    SplitWithoutPattern(week, "-W");
    assert Split(WeekKey(n), "-W") == [year, week];
    ParseOfDigits(year);
    ParseOfDigits(week);
    FourDigits(IsoYear(n));
    TwoDigits(IsoWeek(n));
  }

  lemma MonthKeyParts(n: int)
    requires 0 <= n / 12 < I32_LIMIT
    ensures Split(MonthKey(n), "-") == [Decimal(n / 12), Padded(n % 12 + 1, 2)]
  {
    var year, month := Decimal(n / 12), Padded(n % 12 + 1, 2);
    SplitAtPattern(year, "-", month);
    SplitWithoutPattern(month, "-");
  }

  lemma MonthKeyRoundTrip(n: int)
    requires InKeyRange(Monthly, n)
    ensures ParseMonthlyKey(MonthKey(n)) == Some((n / 12, n % 12 + 1))
  {
    var year, month := Decimal(n / 12), Padded(n % 12 + 1, 2);
    MonthKeyParts(n);
    DecimalIsPadded(n / 12);
    ParseOfDigits(year);
    ParseOfDigits(month);
    ValueOfDecimal(n / 12);
    TwoDigits(n % 12 + 1);
  }

  lemma YearKeyRoundTrip(n: int)
    requires InKeyRange(Yearly, n)
    ensures ParseI32(Signed(n)) == Some(n)
    ensures |Signed(n)| == 4
  {
    DecimalIsPadded(n);
    ParseOfDigits(Decimal(n));
    ValueOfDecimal(n);
  }

  /** A date can stand for a week: the parser takes whatever day it is for a Monday. */
  lemma DateAsWeekKey(n: int)
    requires InKeyRange(Daily, n)
    ensures ParseWeeklyKey(DayKey(n)) == Some(n)
  {
    hide FormatDate, HasDateShape, Contains, Split, FromIsoMonday, ParseDate;
    DayKeyRoundTrip(n);
    PrintedShape(FromDay(n));
    NoLettersInDate(DayKey(n));
    if Contains(DayKey(n), "-W") {
      ContainedCharacter(DayKey(n), "-W", 'W');
    }
  }

  lemma NoLettersInDate(key: string)
    requires HasDateShape(key)
    ensures 'W' !in key
  {
    forall i | 0 <= i < 10 ensures key[i] != 'W' {
      assert i < 4 ==> key[0..4][i] == key[i];
      assert 5 <= i < 7 ==> key[5..7][i - 5] == key[i];
      assert 8 <= i ==> key[8..10][i - 8] == key[i];
    }
  }

  /** Years do not decrease along the partitions of one granularity. */
  lemma YearsFollowOrdinals(g: TimeGranularity, a: int, b: int)
    requires a <= b
    ensures YearOf(g, a) <= YearOf(g, b)
  {
    hide FromDay, DayNumber;
    match g
    case Hourly => DayYears(a / 24, b / 24);
    case Daily => DayYears(a, b);
    case Weekly => DayYears(7 * a + 3, 7 * b + 3);
    case _ =>
  }

  lemma DayYears(a: int, b: int)
    requires a <= b
    ensures FromDay(a).year <= FromDay(b).year
  {
    DayNumberIsOrderIsomorphism(FromDay(b), FromDay(a));
  }

  // ----- String order is chronological order -----

  lemma TwoDigitOrder(a: nat, b: nat)
    requires a < 100 && b < 100
    ensures Less(Padded(a, 2), Padded(b, 2)) <==> a < b
    ensures Padded(a, 2) == Padded(b, 2) <==> a == b
  {
    PowersOfTen();
    PaddedOrder(a, b, 2);
  }

  lemma FourDigitOrder(a: nat, b: nat)
    requires a <= 9999 && b <= 9999
    ensures Less(Padded(a, 4), Padded(b, 4)) <==> a < b
    ensures Padded(a, 4) == Padded(b, 4) <==> a == b
  {
    PowersOfTen();
    PaddedOrder(a, b, 4);
  }

  /** Two fields with the same separator compare one after the other. */
  lemma SeparatedOrder(a: string, a': string, b: string, b': string, separator: string)
    requires |a| == |b| && |a'| == |b'|
    ensures Less(a + separator + a', b + separator + b') <==> Less(a, b) || (a == b && Less(a', b'))
    ensures a + separator + a' == b + separator + b' <==> a == b && a' == b'
  {
    LessByFields(a + separator, a', b + separator, b');
    LessByFields(a, separator, b, separator);
    LessIrreflexive(separator);
    EqualByFields(a, separator, b, separator);
    EqualByFields(a + separator, a', b + separator, b');
  }

  lemma EqualByFields(a: string, a': string, b: string, b': string)
    requires |a| == |b|
    ensures a + a' == b + b' <==> a == b && a' == b'
  {
    assert (a + a')[..|a|] == a && (a + a')[|a|..] == a';
    assert (b + b')[..|b|] == b && (b + b')[|b|..] == b';
  }

  lemma DateOrder(a: Date, b: Date)
    requires IsDate(a) && IsDate(b) && 0 <= a.year <= 9999 && 0 <= b.year <= 9999
    ensures Less(FormatDate(a), FormatDate(b)) <==> DayNumber(a) < DayNumber(b)
    ensures FormatDate(a) == FormatDate(b) <==> DayNumber(a) == DayNumber(b)
  {
    var ym, ym' := YearField(a.year) + "-" + Padded(a.month, 2), YearField(b.year) + "-" + Padded(b.month, 2);
    SeparatedOrder(YearField(a.year), Padded(a.month, 2), YearField(b.year), Padded(b.month, 2), "-");
    SeparatedOrder(ym, Padded(a.day, 2), ym', Padded(b.day, 2), "-");
    FourDigitOrder(a.year, b.year);
    TwoDigitOrder(a.month, b.month);
    TwoDigitOrder(a.day, b.day);
    DayNumberIsOrderIsomorphism(a, b);
  }

  lemma WeekNumberOrder(a: int, b: int)
    ensures a < b <==> IsoYear(a) < IsoYear(b) || (IsoYear(a) == IsoYear(b) && IsoWeek(a) < IsoWeek(b))
    ensures a == b <==> IsoYear(a) == IsoYear(b) && IsoWeek(a) == IsoWeek(b)
  {
    IsoWeekIsFound(a);
    IsoWeekIsFound(b);
    if IsoYear(a) < IsoYear(b) {
      LaterFirstWeek(IsoYear(a), IsoYear(b));
    } else if IsoYear(b) < IsoYear(a) {
      LaterFirstWeek(IsoYear(b), IsoYear(a));
    }
  }

  lemma LaterFirstWeek(a: int, b: int)
    requires a < b
    ensures FirstWeek(a) + WeeksInYear(a) <= FirstWeek(b)
  {
    YearLength(a);
    if a + 1 < b {
      LaterYear(a + 1, b);
    }
  }

  /** A week has only one number. */
  lemma IsoWeekIsUnique(year: int, week: int)
    requires 1 <= week <= WeeksInYear(year)
    ensures var n := FirstWeek(year) + week - 1; IsoYear(n) == year && IsoWeek(n) == week
  {
    hide FromDay, FirstWeek, IsoYear;
    var n := FirstWeek(year) + week - 1;
    IsoWeekIsFound(n);
    if IsoYear(n) < year {
      LaterFirstWeek(IsoYear(n), year);
    } else if year < IsoYear(n) {
      LaterFirstWeek(year, IsoYear(n));
    }
  }

  /** Canonical keys of one granularity compare as strings the way their partitions compare
      in time, and name different partitions differently. */
  lemma KeyOrder(g: TimeGranularity, a: int, b: int)
    requires InKeyRange(g, a) && InKeyRange(g, b)
    ensures Less(Key(g, a), Key(g, b)) <==> a < b
    ensures Key(g, a) == Key(g, b) <==> a == b
  {
    match g
    case Hourly => HourKeyOrder(a, b);
    case Daily => DateOrder(FromDay(a), FromDay(b));
    case Weekly => WeekKeyOrder(a, b);
    case Monthly => MonthKeyOrder(a, b);
    case Yearly =>
      DecimalIsPadded(a);
      DecimalIsPadded(b);
      FourDigitOrder(a, b);
  }

  lemma HourKeyOrder(a: int, b: int)
    requires InKeyRange(Hourly, a) && InKeyRange(Hourly, b)
    ensures Less(HourKey(a), HourKey(b)) <==> a < b
    ensures HourKey(a) == HourKey(b) <==> a == b
  {
    DateOrder(FromDay(a / 24), FromDay(b / 24));
    PrintedShape(FromDay(a / 24));
    PrintedShape(FromDay(b / 24));
    SeparatedOrder(DayKey(a / 24), HourField(a % 24), DayKey(b / 24), HourField(b % 24), " ");
    LessByFields(Padded(a % 24, 2), ":00:00", Padded(b % 24, 2), ":00:00");
    EqualByFields(Padded(a % 24, 2), ":00:00", Padded(b % 24, 2), ":00:00");
    LessIrreflexive(":00:00");
    TwoDigitOrder(a % 24, b % 24);
  }

  lemma WeekKeyOrder(a: int, b: int)
    requires 0 <= IsoYear(a) <= 9999 && 0 <= IsoYear(b) <= 9999
    ensures Less(WeekKey(a), WeekKey(b)) <==> a < b
    ensures WeekKey(a) == WeekKey(b) <==> a == b
  {
    IsoWeekIsFound(a);
    IsoWeekIsFound(b);
    WeeksInYearIs52Or53(IsoYear(a));
    WeeksInYearIs52Or53(IsoYear(b));
    SeparatedOrder(YearField(IsoYear(a)), Padded(IsoWeek(a), 2), YearField(IsoYear(b)), Padded(IsoWeek(b), 2), "-W");
    FourDigitOrder(IsoYear(a), IsoYear(b));
    TwoDigitOrder(IsoWeek(a), IsoWeek(b));
    WeekNumberOrder(a, b);
  }

  lemma MonthKeyOrder(a: int, b: int)
    requires InKeyRange(Monthly, a) && InKeyRange(Monthly, b)
    ensures Less(MonthKey(a), MonthKey(b)) <==> a < b
    ensures MonthKey(a) == MonthKey(b) <==> a == b
  {
    hide Decimal, Padded, Less;
    DecimalIsPadded(a / 12);
    DecimalIsPadded(b / 12);
    SeparatedOrder(Signed(a / 12), Padded(a % 12 + 1, 2), Signed(b / 12), Padded(b % 12 + 1, 2), "-");
    FourDigitOrder(a / 12, b / 12);
    TwoDigitOrder(a % 12 + 1, b % 12 + 1);
  }
}
