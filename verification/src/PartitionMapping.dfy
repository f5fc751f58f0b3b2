/** How a downstream partition key maps to the upstream keys it needs
    (servo-core/src/partition_mapping.rs). */
module PartitionMapping {
  import opened Integers
  import opened Wrappers
  import opened Assets
  import opened Calendar
  import opened ChronoFormat
  import opened Text
  import opened PartitionKeys

  datatype Mapping =
    | Identity
    | TimeAggregation(factor: u32, upstreamGranularity: TimeGranularity, downstreamGranularity: TimeGranularity)
    | TimeWindow(windowSize: u32, granularity: TimeGranularity)
    | TimeOffset(offset: i32, granularity: TimeGranularity)
    | CustomMapping(expression: string)

  datatype MappingError = IncompatibleTypes(upstream: PartitionType, downstream: PartitionType)

  /** The upstream keys that a downstream key depends on. A key that does not parse maps to itself. */
  function MapPartition(mapping: Mapping, key: string): seq<string> {
    match mapping
    case Identity => [key]
    case TimeAggregation(_, up, down) => MapTimeAggregation(key, up, down)
    case TimeWindow(size, g) => MapTimeWindow(key, size, g)
    case TimeOffset(offset, g) => MapTimeOffset(key, offset, g)
    case CustomMapping(_) => [key]
  }

  function MapTimeAggregation(key: string, up: TimeGranularity, down: TimeGranularity): seq<string> {
    match (up, down)
    case (Daily, Weekly) =>
      (match ParseWeeklyKey(key)
       case Some(monday) => DaysFrom(monday, 7)
       case None => [key])
    case (Daily, Monthly) =>
      (match ParseMonthlyKey(key)
       case Some((year, month)) => DaysFrom(FirstOfMonth(year, month), DaysInMonth(year, month))
       case None => [key])
    case (Hourly, Daily) =>
      (match ParseDailyKey(key)
       case Some(day) => HoursOf(day, 24)
       case None => [key])
    case (Monthly, Yearly) =>
      (match ParseI32(key)
       case Some(year) => MonthsOf(year, 12)
       case None => [key])
    case _ => [key]
  }

  /** The keys of `n` days from `first` on. */
  function DaysFrom(first: int, n: nat): seq<string> {
    if n == 0 then [] else DaysFrom(first, n - 1) + [FormatDate(FromDay(first + n - 1))]
  }

  /** The keys of the first `n` hours of a day. */
  function HoursOf(day: int, n: nat): seq<string> {
    if n == 0 then [] else HoursOf(day, n - 1) + [FormatHour(day, n - 1)]
  }

  /** The keys of the first `n` months of a year. */
  function MonthsOf(year: int, n: nat): seq<string> {
    if n == 0 then [] else MonthsOf(year, n - 1) + [FormatMonth(year, n)]
  }

  /** The key itself and those of the `size - 1` partitions before it, latest first. */
  function MapTimeWindow(key: string, size: u32, g: TimeGranularity): seq<string> {
    match g
    case Daily =>
      (match ParseDailyKey(key)
       case Some(day) => DaysBack(day, size)
       case None => [key])
    case Hourly =>
      (match ParseHourlyKey(key)
       case Some(m) => HoursBack(m, size)
       case None => [key])
    case _ => [key]
  }

  function DaysBack(day: int, n: nat): seq<string> {
    if n == 0 then [] else DaysBack(day, n - 1) + [FormatDate(FromDay(day - (n - 1)))]
  }

  /** The hour, counted from day 0, that many hours from the moment. Going back from a leap
      second starts at the second after it. */
  function HourAfter(m: Moment, hours: int): int {
    m.day * 24 + m.hour + hours + if hours < 0 && IsLastSecond(m) then 1 else 0
  }

  /** A leap second at the end of an hour. */
  predicate IsLastSecond(m: Moment) {
    m.minute == 59 && m.second == 60
  }

  /** Moving by hours is moving by seconds and cutting off what is left of the hour; a leap second counts
      only on the way back. */
  lemma HourBySeconds(m: Moment, hours: int)
    requires IsTimeOfDay(m.hour, m.minute, m.second)
    ensures var second := if hours >= 0 && m.second == 60 then 59 else m.second;
            HourAfter(m, hours) == (((m.day * 24 + m.hour) * 60 + m.minute) * 60 + second + 3600 * hours) / 3600
  {
    var hour := m.day * 24 + m.hour + hours;
    var second := if hours >= 0 && m.second == 60 then 59 else m.second;
    assert ((m.day * 24 + m.hour) * 60 + m.minute) * 60 + second + 3600 * hours
        == 3600 * hour + (60 * m.minute + second);
  }

  function FormatHourOf(hour: int): string {
    FormatHour(hour / 24, hour % 24)
  }

  function HoursBack(m: Moment, n: nat): seq<string> {
    if n == 0 then [] else HoursBack(m, n - 1) + [FormatHourOf(HourAfter(m, -(n - 1)))]
  }

  /** The one partition `offset` periods later; minutes and seconds are cut off. */
  function MapTimeOffset(key: string, offset: i32, g: TimeGranularity): seq<string> {
    match g
    case Daily =>
      (match ParseDailyKey(key)
       case Some(day) => [FormatDate(FromDay(day + offset))]
       case None => [key])
    case Hourly =>
      (match ParseHourlyKey(key)
       case Some(m) => [FormatHourOf(HourAfter(m, offset))]
       case None => [key])
    case _ => [key]
  }

  /** The mapping chosen from the two partition types. */
  function InferMapping(upstream: PartitionType, downstream: PartitionType): Result<Mapping, MappingError> {
    match (upstream, downstream)
    case (Time(up), Time(down)) =>
      if up == down then Ok(Identity)
      else if up == Daily && down == Weekly then Ok(TimeAggregation(7, Daily, Weekly))
      else if up == Daily && down == Monthly then Ok(TimeAggregation(30, Daily, Monthly))
      else if up == Hourly && down == Daily then Ok(TimeAggregation(24, Hourly, Daily))
      else if up == Monthly && down == Yearly then Ok(TimeAggregation(12, Monthly, Yearly))
      else Err(IncompatibleTypes(upstream, downstream))
    case (Custom(_), Custom(_)) => Ok(Identity)
    case (Range(_, _), Range(_, _)) => Ok(Identity)
    case _ => Err(IncompatibleTypes(upstream, downstream))
  }

  // ----- Aggregation tiles time -----

  /** The granularity pairs that aggregate. */
  predicate Aggregates(up: TimeGranularity, down: TimeGranularity) {
    (up == Daily && down in {Weekly, Monthly}) || (up == Hourly && down == Daily) || (up == Monthly && down == Yearly)
  }

  /** The first upstream partition within the downstream partition `n`. */
  function Start(up: TimeGranularity, down: TimeGranularity, n: int): int
    requires Aggregates(up, down)
  {
    match down
    case Weekly => 7 * n
    case Monthly => FirstOfMonth(n / 12, n % 12 + 1)
    case Daily => 24 * n
    case Yearly => 12 * n
  }

  lemma StartOfNextMonth(n: int)
    ensures Start(Daily, Monthly, n + 1) == Start(Daily, Monthly, n) + DaysInMonth(n / 12, n % 12 + 1)
    ensures DaysInMonth(n / 12, n % 12 + 1) > 0
  {
    var year, month := n / 12, n % 12 + 1;
    if month < 12 {
      assert (n + 1) / 12 == year && (n + 1) % 12 + 1 == month + 1;
    } else {
      assert (n + 1) / 12 == year + 1 && (n + 1) % 12 + 1 == 1;
      MonthsFillYear(year);
      YearLength(year);
    }
  }

  lemma StartIncreases(up: TimeGranularity, down: TimeGranularity, n: int)
    requires Aggregates(up, down)
    ensures Start(up, down, n) < Start(up, down, n + 1)
  {
    if down == Monthly {
      StartOfNextMonth(n);
    }
  }

  /** An aggregated key maps to the keys of exactly the upstream partitions from its own
      start up to the start of the next downstream partition. */
  lemma AggregationIsInterval(up: TimeGranularity, down: TimeGranularity, factor: u32, n: int)
    requires Aggregates(up, down) && InKeyRange(down, n)
    ensures MapPartition(TimeAggregation(factor, up, down), Key(down, n))
         == Keys(up, Start(up, down, n), Start(up, down, n + 1))
  {
    hide MapTimeAggregation, Keys, Key, FirstOfMonth, YearOf;
    match down
    case Weekly => WeekInterval(n);
    case Monthly => MonthInterval(n);
    case Daily => DayInterval(n);
    case Yearly => YearInterval(n);
  }

  lemma WeekInterval(n: int)
    requires InKeyRange(Weekly, n)
    ensures MapTimeAggregation(Key(Weekly, n), Daily, Weekly) == Keys(Daily, 7 * n, 7 * (n + 1))
  {
    hide DaysFrom, Keys, WeekKey, ParseWeeklyKey, YearOf;
    WeekKeyRoundTrip(n);
    DaysAreKeys(7 * n, 7);
  }

  lemma MonthInterval(n: int)
    requires InKeyRange(Monthly, n)
    ensures MapTimeAggregation(Key(Monthly, n), Daily, Monthly)
         == Keys(Daily, Start(Daily, Monthly, n), Start(Daily, Monthly, n + 1))
  {
    hide DaysFrom, Keys, MonthKey, ParseMonthlyKey, FirstOfMonth, DaysInMonth, YearOf;
    MonthKeyRoundTrip(n);
    StartOfNextMonth(n);
    DaysAreKeys(Start(Daily, Monthly, n), DaysInMonth(n / 12, n % 12 + 1));
  }

  lemma DayInterval(n: int)
    requires InKeyRange(Daily, n)
    ensures MapTimeAggregation(Key(Daily, n), Hourly, Daily) == Keys(Hourly, 24 * n, 24 * (n + 1))
  {
    hide HoursOf, Keys, DayKey, ParseDailyKey, FromDay;
    DayKeyRoundTrip(n);
    HoursAreKeys(n, 24);
  }

  lemma YearInterval(n: int)
    requires InKeyRange(Yearly, n)
    ensures MapTimeAggregation(Key(Yearly, n), Monthly, Yearly) == Keys(Monthly, 12 * n, 12 * (n + 1))
  {
    hide MonthsOf, Keys, Signed, ParseI32;
    YearKeyRoundTrip(n);
    MonthsAreKeys(n, 12);
  }

  lemma {:induction false} DaysAreKeys(first: int, n: nat)
    ensures DaysFrom(first, n) == Keys(Daily, first, first + n)
  {
    hide FormatDate, HourField, FromDay, Padded, Signed;
    if n > 0 {
      DaysAreKeys(first, n - 1);
    }
  }

  lemma {:induction false} HoursAreKeys(day: int, n: nat)
    requires n <= 24
    ensures HoursOf(day, n) == Keys(Hourly, 24 * day, 24 * day + n)
  {
    hide FormatHour;
    if n > 0 {
      HoursAreKeys(day, n - 1);
      HourOfDay(day, n - 1);
    }
  }

  lemma HourOfDay(day: int, hour: nat)
    requires hour < 24
    ensures (24 * day + hour) / 24 == day && (24 * day + hour) % 24 == hour
  {
  }

  lemma {:induction false} MonthsAreKeys(year: int, n: nat)
    requires n <= 12
    ensures MonthsOf(year, n) == Keys(Monthly, 12 * year, 12 * year + n)
  {
    hide FormatDate, HourField, FromDay, Padded, Signed;
    if n > 0 {
      MonthsAreKeys(year, n - 1);
      var month := 12 * year + n - 1;
      assert month / 12 == year && month % 12 == n - 1;
    }
  }

  /** The upstream keys of the downstream partitions `lo` up to `hi`, one after the other. */
  function UpstreamOf(up: TimeGranularity, down: TimeGranularity, factor: u32, lo: int, hi: int): seq<string>
    decreases hi - lo
  {
    if lo >= hi then []
    else UpstreamOf(up, down, factor, lo, hi - 1) + MapPartition(TimeAggregation(factor, up, down), Key(down, hi - 1))
  }

  /** Over consecutive downstream keys the upstream keys follow one another without gap or overlap. */
  lemma {:induction false} AggregationTiles(up: TimeGranularity, down: TimeGranularity, factor: u32, lo: int, hi: int)
    requires Aggregates(up, down) && lo <= hi
    requires forall n :: lo <= n < hi ==> InKeyRange(down, n)
    ensures UpstreamOf(up, down, factor, lo, hi) == Keys(up, Start(up, down, lo), Start(up, down, hi))
    ensures Start(up, down, lo) <= Start(up, down, hi)
    decreases hi - lo
  {
    hide Key, MapPartition, Start, YearOf;
    if lo < hi {
      AggregationTiles(up, down, factor, lo, hi - 1);
      AggregationIsInterval(up, down, factor, hi - 1);
      StartIncreases(up, down, hi - 1);
      KeysConcat(up, Start(up, down, lo), Start(up, down, hi - 1), Start(up, down, hi));
    }
  }

  /** The days of the months that the given month keys map to. */
  function DaysOfMonths(months: seq<string>, factor: u32): seq<string> {
    if months == [] then []
    else DaysOfMonths(months[..|months| - 1], factor)
         + MapPartition(TimeAggregation(factor, Daily, Monthly), months[|months| - 1])
  }

  lemma {:induction false} DaysOfMonthKeys(factor: u32, lo: int, hi: int)
    requires lo <= hi && forall n :: lo <= n < hi ==> InKeyRange(Monthly, n)
    ensures DaysOfMonths(Keys(Monthly, lo, hi), factor) == UpstreamOf(Daily, Monthly, factor, lo, hi)
    decreases hi - lo
  {
    if lo < hi {
      var months := Keys(Monthly, lo, hi);
      assert months[..|months| - 1] == Keys(Monthly, lo, hi - 1);
      DaysOfMonthKeys(factor, lo, hi - 1);
    }
  }

  /** Mapping a year to its months and each month to its days lists every day of that
      Gregorian year once, in order: 365 days, or 366 in a leap year. */
  lemma YearMapsToItsDays(year: int, monthFactor: u32, dayFactor: u32)
    requires 1000 <= year <= 9999
    ensures var months := MapPartition(TimeAggregation(monthFactor, Monthly, Yearly), Key(Yearly, year));
            var days := DaysOfMonths(months, dayFactor);
            && |months| == 12
            && days == Keys(Daily, DaysBeforeYear(year), DaysBeforeYear(year + 1))
            && |days| == DaysInYear(year)
  {
    hide MapPartition, Keys, Key, DaysOfMonths, UpstreamOf, FirstOfMonth;
    AggregationIsInterval(Monthly, Yearly, monthFactor, year);
    YearInMonths(year);
    DaysOfMonthKeys(dayFactor, 12 * year, 12 * (year + 1));
    AggregationTiles(Daily, Monthly, dayFactor, 12 * year, 12 * (year + 1));
    YearLength(year);
    KeysLength(Daily, DaysBeforeYear(year), DaysBeforeYear(year + 1));
    KeysLength(Monthly, 12 * year, 12 * (year + 1));
  }

  lemma YearInMonths(year: int)
    ensures Start(Daily, Monthly, 12 * year) == DaysBeforeYear(year)
    ensures 1000 <= year <= 9999 ==> forall n :: 12 * year <= n < 12 * (year + 1) ==> InKeyRange(Monthly, n)
    ensures Start(Daily, Monthly, 12 * (year + 1)) == DaysBeforeYear(year + 1)
  {
    assert 12 * year / 12 == year && 12 * year % 12 == 0;
    assert 12 * (year + 1) / 12 == year + 1 && 12 * (year + 1) % 12 == 0;
    forall n | 12 * year <= n < 12 * (year + 1) ensures n / 12 == year {
    }
  }

  lemma KeysLength(g: TimeGranularity, lo: int, hi: int)
    requires lo <= hi
    ensures |Keys(g, lo, hi)| == hi - lo
  {
  }

  /** A week given by a date gets the seven days from that date on, which are the days of its
      ISO week exactly when the date is a Monday. */
  lemma WeekGivenByDate(day: int, factor: u32)
    requires InKeyRange(Daily, day) && InKeyRange(Daily, 7 * (day / 7)) && InKeyRange(Weekly, day / 7)
    ensures var mapping := TimeAggregation(factor, Daily, Weekly);
            && MapPartition(mapping, DayKey(day)) == Keys(Daily, day, day + 7)
            && (MapPartition(mapping, DayKey(day)) == MapPartition(mapping, WeekKey(day / 7)) <==> day % 7 == 0)
  {
    hide DayKey, WeekKey, ParseWeeklyKey, DaysFrom, YearOf;
    KeysAt(Daily, day, day + 7);
    KeysAt(Daily, 7 * (day / 7), 7 * (day / 7 + 1));
    DateAsWeekKey(day);
    DaysAreKeys(day, 7);
    AggregationIsInterval(Daily, Weekly, factor, day / 7);
    var ours, week := Keys(Daily, day, day + 7), Keys(Daily, 7 * (day / 7), 7 * (day / 7 + 1));
    assert ours[0] == DayKey(day) && week[0] == DayKey(7 * (day / 7));
    KeyOrder(Daily, day, 7 * (day / 7));
    assert day == 7 * (day / 7) + day % 7;
  }

  // ----- Windows and offsets -----

  lemma {:induction false} DaysBackAt(day: int, n: nat)
    ensures |DaysBack(day, n)| == n
    ensures forall i :: 0 <= i < n ==> DaysBack(day, n)[i] == FormatDate(FromDay(day - i))
  {
    hide FormatDate, FromDay;
    if n > 0 {
      DaysBackAt(day, n - 1);
    }
  }

  lemma {:induction false} HoursBackAt(m: Moment, n: nat)
    ensures |HoursBack(m, n)| == n
    ensures forall i :: 0 <= i < n ==> HoursBack(m, n)[i] == FormatHourOf(HourAfter(m, -i))
  {
    hide FormatHourOf, HourAfter;
    if n > 0 {
      HoursBackAt(m, n - 1);
    }
  }

  /** Whether windows and offsets move the key at all. */
  predicate Moves(key: string, g: TimeGranularity) {
    (g == Daily && ParseDailyKey(key).Some?) || (g == Hourly && ParseHourlyKey(key).Some?)
  }

  /** The ordinal of the partition that the key lies in. */
  function OrdinalOf(key: string, g: TimeGranularity): int
    requires Moves(key, g)
  {
    if g == Daily then ParseDailyKey(key).value
    else (var m := ParseHourlyKey(key).value; m.day * 24 + m.hour)
  }

  /** An hourly key that names the leap second at the end of its hour. */
  predicate AtLeapSecond(key: string, g: TimeGranularity) {
    g == Hourly && ParseHourlyKey(key).Some? && IsLastSecond(ParseHourlyKey(key).value)
  }

  /** The partition `k` periods from the key; going back from a leap second loses one. */
  function Moved(key: string, g: TimeGranularity, k: int): int
    requires Moves(key, g)
  {
    OrdinalOf(key, g) + k + if k < 0 && AtLeapSecond(key, g) then 1 else 0
  }

  /** An offset gives the canonical key of the partition that many periods away. */
  lemma OffsetKey(key: string, offset: i32, g: TimeGranularity)
    ensures MapPartition(TimeOffset(offset, g), key) == [if Moves(key, g) then Key(g, Moved(key, g, offset)) else key]
  {
    hide FormatDate, FormatHour, FromDay, ParseDailyKey, ParseHourlyKey;
  }

  /** A window holds the canonical keys of the partition and the ones before it, latest first. */
  lemma WindowKeys(key: string, size: u32, g: TimeGranularity)
    ensures var window := MapPartition(TimeWindow(size, g), key);
            if Moves(key, g)
            then |window| == size && forall i :: 0 <= i < size ==> window[i] == Key(g, Moved(key, g, -i))
            else window == [key]
  {
    hide FormatDate, FormatHour, FromDay, ParseDailyKey, ParseHourlyKey, DaysBack, HoursBack;
    if Moves(key, g) {
      if g == Daily {
        DaysBackAt(OrdinalOf(key, g), size);
      } else {
        HoursBackAt(ParseHourlyKey(key).value, size);
      }
    }
  }

  /** For every key, element `i` of a window of any size is the key's offset by minus `i`; only a
      key that does not parse has the one-element window. */
  lemma WindowIsOffsets(key: string, size: u32, g: TimeGranularity, i: int)
    requires 0 <= i <= I32_LIMIT
    ensures var window := MapPartition(TimeWindow(size, g), key);
            && |window| == (if Moves(key, g) then size else 1)
            && (i < |window| ==> MapPartition(TimeOffset(-i, g), key) == [window[i]])
  {
    hide MapPartition, Moves, Moved, Key;
    WindowKeys(key, size, g);
    OffsetKey(key, -i, g);
  }

  /** A canonical key parses to its own ordinal. */
  lemma CanonicalKeyMoves(g: TimeGranularity, n: int)
    requires g in {Daily, Hourly} && IsRepresentable(g, n)
    ensures Moves(Key(g, n), g) && OrdinalOf(Key(g, n), g) == n && !AtLeapSecond(Key(g, n), g)
  {
    hide DayKey, HourKey, ParseDailyKey, ParseHourlyKey, FromDay;
    if g == Daily {
      DayKeyRoundTrip(n);
    } else {
      HourKeyRoundTrip(n);
    }
  }

  /** Offsetting and offsetting back returns to the canonical key of the partition, across day,
      month, leap-day and year boundaries, except from a leap second backwards. So it returns
      the key itself exactly when the key is canonical. */
  lemma OffsetRoundTrip(key: string, offset: i32, g: TimeGranularity)
    requires offset != -I32_LIMIT
    requires Moves(key, g) ==> IsRepresentable(g, Moved(key, g, offset))
    ensures var there := MapPartition(TimeOffset(offset, g), key);
            && |there| == 1
            && var back := MapPartition(TimeOffset(-offset, g), there[0]);
               if !Moves(key, g) then back == [key]
               else back == [Key(g, Moved(key, g, offset) - offset)]
                    && (Moved(key, g, offset) - offset == OrdinalOf(key, g) <==> !(AtLeapSecond(key, g) && offset < 0))
                    && (!(AtLeapSecond(key, g) && offset < 0) ==>
                          (back == [key] <==> key == Key(g, OrdinalOf(key, g))))
  {
    hide MapPartition, Key, ParseDailyKey, ParseHourlyKey, IsRepresentable, IsLastSecond;
    OffsetKey(key, offset, g);
    if Moves(key, g) {
      var n := Moved(key, g, offset);
      CanonicalKeyMoves(g, n);
      OffsetKey(Key(g, n), -offset, g);
    } else {
      OffsetKey(key, -offset, g);
    }
  }

  /** A daily key is canonical exactly when its fields are padded. */
  lemma DailyKeyIsCanonicalIff(key: string)
    requires ParseDailyKey(key).Some? && InKeyRange(Daily, ParseDailyKey(key).value)
    ensures key == DayKey(ParseDailyKey(key).value) <==> HasDateShape(key)
  {
    hide FormatDate, FromDay, ScanDate, HasDateShape;
    if HasDateShape(key) {
      PaddedDate(key, "");
      assert key + "" == key;
      var d := ScanDate(key).value.date;
      DayNumberIsOrderIsomorphism(d, d);
    } else {
      PrintedShape(FromDay(ParseDailyKey(key).value));
    }
  }

  /** The text of a moment: all fields padded, and one space. */
  function MomentText(m: Moment): string {
    FormatDate(FromDay(m.day)) + " " + TimeField(m.hour, m.minute, m.second)
  }

  predicate HasMomentShape(key: string) {
    |key| == 19 && HasDateShape(key[..10]) && key[10] == ' ' && HasTimeShape(key[11..])
  }

  /** An hourly key has all fields padded and one space exactly when it is the text of its moment. */
  lemma MomentTextIffPadded(key: string)
    requires ParseHourlyKey(key).Some? && InKeyRange(Hourly, OrdinalOf(key, Hourly))
    ensures key == MomentText(ParseHourlyKey(key).value) <==> HasMomentShape(key)
  {
    var m := ParseHourlyKey(key).value;
    if HasMomentShape(key) {
      PaddedMoment(key);
    } else {
      HourOfMoment(m, key);
      PrintedMomentShape(m);
    }
  }

  lemma HourOfMoment(m: Moment, key: string)
    requires ParseHourlyKey(key) == Some(m)
    ensures IsTimeOfDay(m.hour, m.minute, m.second) && InCalendar(FromDay(m.day))
    ensures OrdinalOf(key, Hourly) / 24 == m.day && OrdinalOf(key, Hourly) % 24 == m.hour
  {
    hide FromDay, ScanDate, ParseDate;
    ParsedMoment(key, ' ');
    ParsedMoment(key, 'T');
    HourOfDay(m.day, m.hour);
  }

  lemma ParsedMoment(key: string, separator: char)
    ensures ParseMoment(key, separator).Some? ==>
              var m := ParseMoment(key, separator).value;
              IsTimeOfDay(m.hour, m.minute, m.second) && InCalendar(FromDay(m.day))
  {
    hide FromDay, DayNumber, ScanField, Expect, TrimStart;
    if ParseMoment(key, separator).Some? {
      var d := ScanDate(key).value.date;
      DayNumberIsOrderIsomorphism(d, d);
    }
  }

  lemma PrintedMomentShape(m: Moment)
    requires 0 <= FromDay(m.day).year <= 9999
    ensures HasMomentShape(MomentText(m))
  {
    hide FormatDate, TimeField, FromDay, HasDateShape, HasTimeShape;
    var date, time := FormatDate(FromDay(m.day)), TimeField(m.hour, m.minute, m.second);
    PrintedShape(FromDay(m.day));
    ShapeLength(date);
    PrintedTimeShape(m.hour, m.minute, m.second);
    var key := date + " " + time;
    assert MomentText(m) == key && key[..10] == date && key[11..] == time;
    assert |time| == 8 by { TimeLength(time); }
  }

  lemma ShapeLength(date: string)
    requires HasDateShape(date)
    ensures |date| == 10
  {
  }

  lemma TimeLength(time: string)
    requires HasTimeShape(time)
    ensures |time| == 8
  {
  }

  lemma PaddedMoment(key: string)
    requires ParseHourlyKey(key).Some? && HasMomentShape(key)
    ensures key == MomentText(ParseHourlyKey(key).value)
  {
    hide FormatDate, TimeField, FromDay, HasDateShape, Value, ParseMoment, ScanDate, DayNumber, IsDate;
    var date, time := key[..10], key[11..];
    PaddedDate(date, "");
    TimeLength(time);
    PaddedTime(time);
    var d := ScanDate(date + "").value.date;
    assert key == date + " " + time;
    assert [' '] == " ";
    ParseOfMoment(d, Value(time[0..2]), Value(time[3..5]), Value(time[6..8]), ' ');
    DayNumberIsOrderIsomorphism(d, d);
  }

  /** An hourly key is canonical exactly when it is padded and on the hour. */
  lemma HourlyKeyIsCanonicalIff(key: string)
    requires ParseHourlyKey(key).Some? && InKeyRange(Hourly, OrdinalOf(key, Hourly))
    ensures key == HourKey(OrdinalOf(key, Hourly)) <==> HasMomentShape(key) && key[13..] == ":00:00"
  {
    hide FormatDate, FromDay, HasMomentShape, Padded, ParseHourlyKey, ParseMoment;
    var m := ParseHourlyKey(key).value;
    HourOfMoment(m, key);
    MomentTextIffPadded(key);
    FullHour(m.hour);
    if HasMomentShape(key) {
      OnTheHour(m);
    }
    if key == HourKey(OrdinalOf(key, Hourly)) {
      HourKeyRoundTrip(OrdinalOf(key, Hourly));
      assert m == Moment(m.day, m.hour, 0, 0);
      OnTheHour(m);
    }
  }

  /** The text of a moment ends in zero minutes and seconds exactly if it is on the hour. */
  lemma OnTheHour(m: Moment)
    requires 0 <= FromDay(m.day).year <= 9999 && IsTimeOfDay(m.hour, m.minute, m.second)
    ensures |MomentText(m)| == 19
    ensures MomentText(m)[13..] == ":00:00" <==> m.minute == 0 && m.second == 0
  {
    hide FormatDate, FromDay, HasDateShape, Padded;
    var date := FormatDate(FromDay(m.day));
    PrintedShape(FromDay(m.day));
    ShapeLength(date);
    assert MomentText(m)[13..] == ":" + Padded(m.minute, 2) + ":" + Padded(m.second, 2);
    var minute, second := Padded(m.minute, 2), Padded(m.second, 2);
    assert (":" + minute + ":" + second)[1..3] == minute && (":" + minute + ":" + second)[4..] == second;
    assert ":00:00"[1..3] == "00" && ":00:00"[4..] == "00";
    ZeroField(m.minute);
    ZeroField(m.second);
  }

  lemma ZeroField(n: nat)
    requires n < 100
    ensures Padded(n, 2) == "00" <==> n == 0
  {
    TwoDigits(n);
    ZeroIsPadded();
  }
}
