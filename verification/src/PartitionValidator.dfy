/** Validation of partition keys and backfill ranges (servo-core/src/partition_validator.rs). */
module PartitionValidator {
  import opened Wrappers
  import opened Assets
  import opened Calendar
  import opened ChronoFormat
  import opened Text
  import opened PartitionKeys
  import opened PartitionMapping

  datatype ValidationError = InvalidKeyFormat(key: string, partitionType: PartitionType)

  predicate IsTimeKey(key: string, g: TimeGranularity) {
    match g
    case Hourly => ParseHourlyKey(key).Some?
    case Daily => ParseDailyKey(key).Some?
    case Weekly => (Contains(key, "-W") && Utf8Length(key) >= 7) || ParseDailyKey(key).Some?
    case Monthly =>
      var parts := Split(key, "-");
      |parts| == 2 && ParseI32(parts[0]).Some? && ParseU32(parts[1]).Some? && 1 <= ParseU32(parts[1]).value <= 12
    case Yearly => ParseI32(key).Some? && Utf8Length(key) == 4
  }

  function ValidateKeyFormat(key: string, t: PartitionType): Result<(), ValidationError> {
    match t
    case Time(g) => if IsTimeKey(key, g) then Ok(()) else Err(InvalidKeyFormat(key, t))
    case Range(lower, upper) =>
      if !Less(key, lower) && Less(key, upper) then Ok(()) else Err(InvalidKeyFormat(key, t))
    case Custom(_) => Ok(())
  }

  /** Both keys are well formed and the start is before the end, as strings. */
  function ValidateBackfillRange(start: string, end: string, config: PartitionConfig): Result<(), ValidationError> {
    var t := config.partitionType;
    if ValidateKeyFormat(start, t).Err? then ValidateKeyFormat(start, t)
    else if ValidateKeyFormat(end, t).Err? then ValidateKeyFormat(end, t)
    else if !Less(start, end) then Err(InvalidKeyFormat(start + " to " + end, t))
    else Ok(())
  }

  lemma CanonicalKeyIsValid(g: TimeGranularity, n: int)
    requires InKeyRange(g, n)
    ensures IsTimeKey(Key(g, n), g)
  {
    hide DayKey, HourKey, WeekKey, MonthKey, Signed, ParseDailyKey, ParseHourlyKey, ParseI32,
         ParseU32, Split, Contains, FromDay, Utf8Length;
    match g
    case Hourly => HourKeyRoundTrip(n);
    case Daily => DayKeyRoundTrip(n);
    case Weekly =>
      WeekKeyIsValid(n);
      LengthInBytes(WeekKey(n));
    case Monthly => MonthKeyIsValid(n);
    case Yearly =>
      YearKeyRoundTrip(n);
      LengthInBytes(Signed(n));
      YearIsDigits(n);
  }

  lemma YearIsDigits(n: int)
    requires n >= 0
    ensures forall i :: 0 <= i < |Signed(n)| ==> Signed(n)[i] as int < 0x80
  {
  }

  lemma WeekKeyIsValid(n: int)
    requires InKeyRange(Weekly, n)
    ensures Contains(WeekKey(n), "-W") && |WeekKey(n)| == 8
  {
    hide Contains, IsoYear, IsoWeek;
    IsoWeekIsFound(n);
    ContainsPattern(YearField(IsoYear(n)), "-W", Padded(IsoWeek(n), 2));
  }

  lemma MonthKeyIsValid(n: int)
    requires InKeyRange(Monthly, n)
    ensures IsTimeKey(MonthKey(n), Monthly)
  {
    hide MonthKey;
    MonthKeyRoundTrip(n);
    MonthKeyParts(n);
  }

  // ----- Ranges against time -----

  /** For canonical keys a backfill range is accepted exactly when it starts before it ends in time. */
  lemma CanonicalRangeIsChronological(g: TimeGranularity, a: int, b: int, config: PartitionConfig)
    requires InKeyRange(g, a) && InKeyRange(g, b) && config.partitionType == Time(g)
    ensures ValidateBackfillRange(Key(g, a), Key(g, b), config).Ok? <==> a < b
  {
    hide Key, IsTimeKey, Less, InKeyRange;
    CanonicalKeyIsValid(g, a);
    CanonicalKeyIsValid(g, b);
    KeyOrder(g, a, b);
  }

  /** The partition that a key stands for. */
  function Denotes(key: string, g: TimeGranularity): Option<int> {
    match g
    case Hourly =>
      (var m :- ParseHourlyKey(key); Some(m.day * 24 + m.hour))
    case Daily => ParseDailyKey(key)
    case Weekly =>
      (var monday :- ParseWeeklyKey(key); Some(monday / 7))
    case Monthly =>
      (match ParseMonthlyKey(key)
       case Some((year, month)) => Some(12 * year + month - 1)
       case None => None)
    case Yearly => ParseI32(key)
  }

  /** All fields have their full width; an hourly key may have minutes and seconds. */
  predicate IsPadded(key: string, g: TimeGranularity) {
    match g
    case Hourly => HasMomentShape(key)
    case Daily => HasDateShape(key)
    case Weekly => |key| == 8 && AllDigits(key[..4]) && key[4..6] == "-W" && AllDigits(key[6..])
    case Monthly => |key| == 7 && AllDigits(key[..4]) && key[4] == '-' && AllDigits(key[5..])
    case Yearly => |key| == 4 && AllDigits(key)
  }

  /** A key is canonical exactly when it is padded and, if it is hourly, on the hour. */
  lemma CanonicalIffPadded(key: string, g: TimeGranularity)
    requires Denotes(key, g).Some? && InKeyRange(g, Denotes(key, g).value)
    ensures key == Key(g, Denotes(key, g).value) <==> IsPadded(key, g) && (g == Hourly ==> key[13..] == ":00:00")
  {
    hide DayKey, HourKey, WeekKey, MonthKey, Signed, FromDay, ParseDailyKey, ParseHourlyKey, ParseWeeklyKey,
         ParseMonthlyKey, ParseI32, HasDateShape, AllDigits;
    var n := Denotes(key, g).value;
    match g
    case Hourly => HourlyKeyIsCanonicalIff(key);
    case Daily => DailyKeyIsCanonicalIff(key);
    case Weekly =>
      if IsPadded(key, g) { PaddedWeek(key); } else { PrintedWeekShape(n); }
    case Monthly =>
      if IsPadded(key, g) { PaddedMonth(key); } else { PrintedMonthShape(n); }
    case Yearly =>
      if IsPadded(key, g) { PaddedYear(key); } else { YearKeyRoundTrip(n); PrintedYearShape(n); }
  }

  lemma PrintedYearShape(n: int)
    requires n >= 0
    ensures AllDigits(Signed(n))
  {
  }

  lemma PrintedWeekShape(n: int)
    requires InKeyRange(Weekly, n)
    ensures IsPadded(WeekKey(n), Weekly)
  {
    hide IsoYear, IsoWeek, Padded;
    IsoWeekIsFound(n);
    var key := WeekKey(n);
    assert key[..4] == Padded(IsoYear(n), 4) && key[4..6] == "-W" && key[6..] == Padded(IsoWeek(n), 2);
  }

  lemma PrintedMonthShape(n: int)
    requires InKeyRange(Monthly, n)
    ensures IsPadded(MonthKey(n), Monthly)
  {
    hide Padded, Decimal;
    DecimalIsPadded(n / 12);
    var key := MonthKey(n);
    assert key[..4] == Padded(n / 12, 4) && key[5..] == Padded(n % 12 + 1, 2);
  }

  lemma PaddedYear(key: string)
    requires IsPadded(key, Yearly) && Denotes(key, Yearly).Some? && InKeyRange(Yearly, Denotes(key, Yearly).value)
    ensures key == Signed(Denotes(key, Yearly).value)
  {
    ParseOfDigits(key);
    PaddedOfValue(key);
    DecimalIsPadded(Value(key));
  }

  lemma PaddedMonth(key: string)
    requires IsPadded(key, Monthly) && Denotes(key, Monthly).Some? && InKeyRange(Monthly, Denotes(key, Monthly).value)
    ensures key == MonthKey(Denotes(key, Monthly).value)
  {
    hide Padded, Decimal, Value, Split, Pow10;
    var year, month := key[..4], key[5..];
    assert key == year + "-" + month;
    SplitAtPattern(year, "-", month);
    SplitWithoutPattern(month, "-");
    ParseOfDigits(year);
    ParseOfDigits(month);
    PaddedOfValue(year);
    PaddedOfValue(month);
    assert Denotes(key, Monthly) == Some(12 * Value(year) + Value(month) - 1);
    MonthOfYear(Value(year), Value(month));
    DecimalIsPadded(Value(year));
  }

  lemma MonthOfYear(year: int, month: nat)
    requires 1 <= month <= 12
    ensures (12 * year + month - 1) / 12 == year && (12 * year + month - 1) % 12 + 1 == month
  {
  }

  lemma PaddedWeek(key: string)
    requires IsPadded(key, Weekly) && Denotes(key, Weekly).Some? && InKeyRange(Weekly, Denotes(key, Weekly).value)
    ensures key == WeekKey(Denotes(key, Weekly).value)
  {
    hide Padded, Value, Split, Pow10, FromDay, Contains, FirstWeek, IsoYear;
    var year, week := key[..4], key[6..];
    assert key == year + "-W" + week;
    SplitAtPattern(year, "-W", week);
    ContainsPattern(year, "-W", week);
    SplitWithoutPattern(week, "-W");
    ParseOfDigits(year);
    ParseOfDigits(week);
    PaddedOfValue(year);
    PaddedOfValue(week);
    IsoWeekIsUnique(Value(year), Value(week));
  }

  /** An accepted year key of four digits' value has four digits. */
  lemma YearKeysArePadded(key: string)
    requires IsTimeKey(key, Yearly) && InKeyRange(Yearly, Denotes(key, Yearly).value)
    ensures IsPadded(key, Yearly)
  {
    LengthInBytes(key);
    SignedYear(key);
  }

  lemma SignedYear(key: string)
    requires ParseI32(key).Some? && 1000 <= ParseI32(key).value <= 9999
    ensures forall i :: 0 <= i < |key| ==> key[i] as int < 0x80
    ensures |key| <= 4 ==> |key| == 4 && AllDigits(key)
  {
    hide Value, ParseI32, Pow10;
    var digits := DigitsOfYear(key);
    PaddedOfValue(digits);
    if |digits| <= 3 {
      Pow10Grows(|digits|, 3);
      PowersOfTen();
    }
  }

  lemma DigitsOfYear(key: string) returns (digits: string)
    requires ParseI32(key).Some? && 1000 <= ParseI32(key).value
    ensures AllDigits(digits) && Value(digits) == ParseI32(key).value
    ensures key == digits || key == "+" + digits
  {
    hide Value;
    digits := if key[0] == '+' then key[1..] else key;
  }

  // ----- Keys in the order of time -----

  /** A moment as a number; a minute may have a leap second. */
  function MomentNumber(m: Moment): int {
    ((m.day * 24 + m.hour) * 60 + m.minute) * 61 + m.second
  }

  /** The time that a key stands for: its moment, its day, the first day of its seven, its month or its
      year. */
  function TimeOf(key: string, g: TimeGranularity): Option<int> {
    match g
    case Hourly =>
      (var m :- ParseHourlyKey(key); Some(MomentNumber(m)))
    case Weekly => ParseWeeklyKey(key)
    case _ => Denotes(key, g)
  }

  /** An accepted key of a partition in the range of canonical keys. */
  predicate IsOrdinary(key: string, g: TimeGranularity) {
    IsTimeKey(key, g) && Denotes(key, g).Some? && InKeyRange(g, Denotes(key, g).value)
  }

  predicate IsEarlier(key: string, other: string, g: TimeGranularity) {
    var a, b := TimeOf(key, g), TimeOf(other, g);
    a.Some? && b.Some? && a.value < b.value
  }

  /** Ranges between the two keys are accepted exactly when they start before they end in time. */
  ghost predicate AreInOrder(key: string, other: string, g: TimeGranularity) {
    forall config: PartitionConfig :: config.partitionType == Time(g) ==>
      && (ValidateBackfillRange(key, other, config).Ok? <==> IsEarlier(key, other, g))
      && (ValidateBackfillRange(other, key, config).Ok? <==> IsEarlier(other, key, g))
  }

  /** The key is in order with every padded key. */
  ghost predicate IsInOrder(key: string, g: TimeGranularity) {
    forall other :: IsOrdinary(other, g) && IsPadded(other, g) ==> AreInOrder(key, other, g)
  }

  lemma MomentNumberOrder(a: Moment, b: Moment)
    requires IsTimeOfDay(a.hour, a.minute, a.second) && IsTimeOfDay(b.hour, b.minute, b.second)
    ensures MomentNumber(a) < MomentNumber(b) <==> (a.day < b.day || (a.day == b.day
              && (a.hour < b.hour || (a.hour == b.hour
              && (a.minute < b.minute || (a.minute == b.minute && a.second < b.second))))))
    ensures MomentNumber(a) == MomentNumber(b) <==> a == b
  {
  }

  /** The texts of moments compare as the moments do. */
  lemma MomentTextOrder(a: Moment, b: Moment)
    requires IsTimeOfDay(a.hour, a.minute, a.second) && IsTimeOfDay(b.hour, b.minute, b.second)
    requires 0 <= FromDay(a.day).year <= 9999 && 0 <= FromDay(b.day).year <= 9999
    ensures Less(MomentText(a), MomentText(b)) <==> MomentNumber(a) < MomentNumber(b)
    ensures MomentText(a) == MomentText(b) <==> MomentNumber(a) == MomentNumber(b)
  {
    hide FormatDate, FromDay, Less, HasDateShape, Padded, MomentNumber, DayNumber;
    MomentNumberOrder(a, b);
    DateOrder(FromDay(a.day), FromDay(b.day));
    PrintedShape(FromDay(a.day));
    PrintedShape(FromDay(b.day));
    ShapeLength(FormatDate(FromDay(a.day)));
    ShapeLength(FormatDate(FromDay(b.day)));
    TimeFieldOrder(a, b);
    SeparatedOrder(FormatDate(FromDay(a.day)), TimeField(a.hour, a.minute, a.second),
                   FormatDate(FromDay(b.day)), TimeField(b.hour, b.minute, b.second), " ");
  }

  lemma TimeFieldOrder(a: Moment, b: Moment)
    requires IsTimeOfDay(a.hour, a.minute, a.second) && IsTimeOfDay(b.hour, b.minute, b.second)
    ensures var s, t := TimeField(a.hour, a.minute, a.second), TimeField(b.hour, b.minute, b.second);
            && |s| == |t|
            && (Less(s, t) <==> (a.hour < b.hour || (a.hour == b.hour
                && (a.minute < b.minute || (a.minute == b.minute && a.second < b.second)))))
            && (s == t <==> a.hour == b.hour && a.minute == b.minute && a.second == b.second)
  {
    hide Less, Padded;
    SeparatedOrder(Padded(a.hour, 2), Padded(a.minute, 2), Padded(b.hour, 2), Padded(b.minute, 2), ":");
    SeparatedOrder(Padded(a.hour, 2) + ":" + Padded(a.minute, 2), Padded(a.second, 2),
                   Padded(b.hour, 2) + ":" + Padded(b.minute, 2), Padded(b.second, 2), ":");
    TwoDigitOrder(a.hour, b.hour);
    TwoDigitOrder(a.minute, b.minute);
    TwoDigitOrder(a.second, b.second);
  }

  lemma PaddedHours(a: string, b: string)
    requires IsOrdinary(a, Hourly) && IsOrdinary(b, Hourly) && IsPadded(a, Hourly) && IsPadded(b, Hourly)
    ensures Less(a, b) <==> TimeOf(a, Hourly).value < TimeOf(b, Hourly).value
  {
    hide Less, FromDay, ParseHourlyKey, HasMomentShape, MomentText, MomentNumber;
    var m, n := ParseHourlyKey(a).value, ParseHourlyKey(b).value;
    HourOfMoment(m, a);
    HourOfMoment(n, b);
    MomentTextIffPadded(a);
    MomentTextIffPadded(b);
    MomentTextOrder(m, n);
  }

  /** Padded keys compare in the order of time. */
  lemma PaddedKeysAreInOrder(key: string, other: string, g: TimeGranularity)
    requires IsOrdinary(key, g) && IsOrdinary(other, g) && IsPadded(key, g) && IsPadded(other, g)
    ensures AreInOrder(key, other, g)
  {
    hide Less, Key, InKeyRange, IsPadded, TimeOf, IsOrdinary, Denotes, AreInOrder;
    AreInOrderIff(key, other, g);
    if g == Hourly {
      PaddedHours(key, other);
      PaddedHours(other, key);
    } else {
      PaddedIsCanonical(key, g);
      PaddedIsCanonical(other, g);
      KeyOrder(g, Denotes(key, g).value, Denotes(other, g).value);
      KeyOrder(g, Denotes(other, g).value, Denotes(key, g).value);
    }
  }

  lemma PaddedIsCanonical(key: string, g: TimeGranularity)
    requires g != Hourly && IsOrdinary(key, g) && IsPadded(key, g)
    ensures Denotes(key, g).Some? && InKeyRange(g, Denotes(key, g).value) && key == Key(g, Denotes(key, g).value)
    ensures TimeOf(key, g) == Some(if g == Weekly then 7 * Denotes(key, g).value else Denotes(key, g).value)
  {
    hide Key, IsPadded, TimeOf, IsTimeKey, InKeyRange, Denotes;
    CanonicalIffPadded(key, g);
    KeyDenotes(g, Denotes(key, g).value);
  }

  /** The padded key for the same time, which every granularity but the week has. */
  lemma PaddedTwin(key: string, g: TimeGranularity) returns (twin: string)
    requires IsOrdinary(key, g) && g != Weekly
    ensures IsOrdinary(twin, g) && IsPadded(twin, g) && TimeOf(twin, g) == TimeOf(key, g)
  {
    if g == Hourly {
      twin := PaddedHourTwin(key);
    } else {
      hide Key, IsTimeKey, YearOf, IsPadded, ParseDailyKey, ParseMonthlyKey, ParseI32;
      var n := Denotes(key, g).value;
      twin := Key(g, n);
      CanonicalKeyIsValid(g, n);
      KeyDenotes(g, n);
      CanonicalIffPadded(twin, g);
    }
  }

  lemma PaddedHourTwin(key: string) returns (twin: string)
    requires IsOrdinary(key, Hourly)
    ensures IsOrdinary(twin, Hourly) && IsPadded(twin, Hourly) && TimeOf(twin, Hourly) == TimeOf(key, Hourly)
  {
    hide FormatDate, FromDay, ParseMoment, TimeField, HasMomentShape, DayNumber;
    var m := ParseHourlyKey(key).value;
    HourOfMoment(m, key);
    twin := MomentText(m);
    assert [' '] == " ";
    ParseOfMoment(FromDay(m.day), m.hour, m.minute, m.second, ' ');
    PrintedMomentShape(m);
  }

  /** A canonical key stands for its partition. */
  lemma KeyDenotes(g: TimeGranularity, n: int)
    requires InKeyRange(g, n)
    ensures Denotes(Key(g, n), g) == Some(n)
    ensures g != Hourly ==> TimeOf(Key(g, n), g) == Some(if g == Weekly then 7 * n else n)
  {
    hide DayKey, HourKey, WeekKey, MonthKey, Signed, FromDay, ParseDailyKey, ParseHourlyKey, ParseWeeklyKey,
         ParseMonthlyKey, ParseI32;
    match g
    case Hourly =>
      KeyRangeIsRepresentable(g, n);
      HourKeyRoundTrip(n);
    case Daily =>
      KeyRangeIsRepresentable(g, n);
      DayKeyRoundTrip(n);
    case Weekly => WeekKeyRoundTrip(n);
    case Monthly => MonthKeyRoundTrip(n);
    case Yearly => YearKeyRoundTrip(n);
  }

  /** An accepted key, other than for weeks, compares with all padded keys in the order of time exactly
      when it is padded. */
  lemma IsInOrderIffPadded(key: string, g: TimeGranularity)
    requires g != Weekly && IsOrdinary(key, g)
    ensures IsInOrder(key, g) <==> IsPadded(key, g)
  {
    hide Less, IsOrdinary, IsPadded, TimeOf, AreInOrder;
    if IsPadded(key, g) {
      forall other | IsOrdinary(other, g) && IsPadded(other, g) ensures AreInOrder(key, other, g) {
        PaddedKeysAreInOrder(key, other, g);
      }
    }
    if IsInOrder(key, g) {
      var twin := PaddedTwin(key, g);
      assert AreInOrder(key, twin, g);
      AreInOrderIff(key, twin, g);
      LessIsTotal(key, twin);
    }
  }

  /** For accepted keys it is the comparison of the strings that decides. */
  lemma AreInOrderIff(key: string, other: string, g: TimeGranularity)
    requires IsOrdinary(key, g) && IsOrdinary(other, g)
    ensures TimeOf(key, g).Some? && TimeOf(other, g).Some?
    ensures (
      AreInOrder(key, other, g) <==>
        && (Less(key, other) <==> TimeOf(key, g).value < TimeOf(other, g).value)
        && (Less(other, key) <==> TimeOf(other, g).value < TimeOf(key, g).value))
  {
    hide Less, ParseHourlyKey, ParseDailyKey, ParseWeeklyKey, ParseMonthlyKey, ParseI32, InKeyRange, MomentNumber,
         IsTimeKey;
    var config := PartitionConfig(Time(g), "");
    assert ValidateBackfillRange(key, other, config).Ok? <==> Less(key, other);
    assert ValidateBackfillRange(other, key, config).Ok? <==> Less(other, key);
  }

  // ----- Week keys -----

  /** A key for seven days that are no week compares as between the weeks that they overlap. */
  ghost predicate IsBetweenWeeks(key: string)
    requires IsOrdinary(key, Weekly)
  {
    var n := Denotes(key, Weekly).value;
    && TimeOf(key, Weekly).value != 7 * n
    && Less(WeekKey(n), key)
    && (InKeyRange(Weekly, n + 1) ==> Less(key, WeekKey(n + 1)))
  }

  /** A week key that is accepted compares in the order of time exactly when it is padded, or is a date
      that no week starts on and compares as between two weeks. */
  lemma WeekIsInOrderIff(key: string)
    requires IsOrdinary(key, Weekly)
    ensures IsInOrder(key, Weekly) <==> IsPadded(key, Weekly) || IsBetweenWeeks(key)
  {
    hide Less, IsOrdinary, IsPadded, TimeOf, IsTimeKey, IsBetweenWeeks, WeekKey;
    if IsPadded(key, Weekly) || IsBetweenWeeks(key) {
      forall other | IsOrdinary(other, Weekly) && IsPadded(other, Weekly)
        ensures AreInOrder(key, other, Weekly)
      {
        if IsPadded(key, Weekly) {
          PaddedKeysAreInOrder(key, other, Weekly);
        } else {
          BetweenIsInOrder(key, other);
        }
      }
    }
    if IsInOrder(key, Weekly) {
      InOrderIsBetween(key);
    }
  }

  lemma WeekIsOrdinary(n: int)
    requires InKeyRange(Weekly, n)
    ensures IsOrdinary(WeekKey(n), Weekly) && IsPadded(WeekKey(n), Weekly)
    ensures Denotes(WeekKey(n), Weekly) == Some(n) && TimeOf(WeekKey(n), Weekly) == Some(7 * n)
  {
    hide WeekKey, IsPadded, YearOf, IsTimeKey, ParseWeeklyKey;
    CanonicalKeyIsValid(Weekly, n);
    WeekKeyRoundTrip(n);
    KeyDenotes(Weekly, n);
    PrintedWeekShape(n);
  }

  lemma OrdinaryWeek(key: string)
    requires IsOrdinary(key, Weekly)
    ensures Denotes(key, Weekly).Some? && InKeyRange(Weekly, Denotes(key, Weekly).value)
    ensures TimeOf(key, Weekly).Some? && Denotes(key, Weekly).value == TimeOf(key, Weekly).value / 7
  {
  }

  lemma InOrderIsBetween(key: string)
    requires IsOrdinary(key, Weekly) && IsInOrder(key, Weekly)
    ensures IsPadded(key, Weekly) || IsBetweenWeeks(key)
  {
    hide Less, IsOrdinary, IsPadded, TimeOf, WeekKey, InKeyRange, AreInOrder, Denotes;
    OrdinaryWeek(key);
    var n := Denotes(key, Weekly).value;
    WeekIsOrdinary(n);
    AreInOrderIff(key, WeekKey(n), Weekly);
    LessIsTotal(key, WeekKey(n));
    if InKeyRange(Weekly, n + 1) {
      WeekIsOrdinary(n + 1);
      AreInOrderIff(key, WeekKey(n + 1), Weekly);
    }
  }

  lemma BetweenIsInOrder(key: string, other: string)
    requires IsOrdinary(key, Weekly) && IsBetweenWeeks(key)
    requires IsOrdinary(other, Weekly) && IsPadded(other, Weekly)
    ensures AreInOrder(key, other, Weekly)
  {
    hide Less, IsOrdinary, IsPadded, TimeOf, WeekKey, InKeyRange, AreInOrder, Denotes;
    OrdinaryWeek(key);
    OrdinaryWeek(other);
    AreInOrderIff(key, other, Weekly);
    var n, m := Denotes(key, Weekly).value, Denotes(other, Weekly).value;
    CanonicalIffPadded(other, Weekly);
    PaddedIsCanonical(other, Weekly);
    if m <= n {
      KeyOrder(Weekly, n, m);
      StrictlyBefore(other, WeekKey(n), key);
    } else {
      NextWeekInRange(n, m);
      KeyOrder(Weekly, m, n + 1);
      StrictlyAfter(key, WeekKey(n + 1), other);
    }
  }

  lemma NextWeekInRange(n: int, m: int)
    requires n < m && InKeyRange(Weekly, n) && InKeyRange(Weekly, m)
    ensures InKeyRange(Weekly, n + 1)
  {
    hide IsoYear;
    YearsFollowOrdinals(Weekly, n, n + 1);
    YearsFollowOrdinals(Weekly, n + 1, m);
  }

  lemma StrictlyBefore(a: string, b: string, c: string)
    requires !Less(b, a) && Less(b, c)
    ensures Less(a, c) && !Less(c, a)
  {
    hide Less;
    LessAsymmetric(b, c);
    LessTransitive(a, b, c);
    LessIsTotal(a, c);
    if a == c {
      LessIsTotal(b, a);
    }
  }

  lemma StrictlyAfter(a: string, b: string, c: string)
    requires Less(a, b) && !Less(c, b)
    ensures Less(a, c) && !Less(c, a)
  {
    hide Less;
    LessAsymmetric(a, b);
    LessTransitive(a, b, c);
    LessIsTotal(a, c);
    if a == c {
      LessIsTotal(b, a);
    }
  }

  /** A padded date is in order among the week keys exactly if it comes before the first week of its
      year. */
  lemma DateIsInOrderIff(day: int)
    requires InKeyRange(Daily, day) && InKeyRange(Weekly, day / 7)
    ensures IsOrdinary(DayKey(day), Weekly)
    ensures IsInOrder(DayKey(day), Weekly) <==> day < Week1Monday(FromDay(day).year)
  {
    hide FromDay, Less, WeekKey, IsInOrder, IsPadded, IsoYear, FirstWeek, DayKey, IsOrdinary, Denotes, TimeOf;
    DateIsOrdinary(day);
    WeekIsInOrderIff(DayKey(day));
    DateIsNoWeek(day);
    DateAmongWeeks(day, day / 7);
    if InKeyRange(Weekly, day / 7 + 1) {
      DateAmongWeeks(day, day / 7 + 1);
    }
    YearOfDate(day);
  }

  lemma DateIsOrdinary(day: int)
    requires InKeyRange(Daily, day) && InKeyRange(Weekly, day / 7)
    ensures IsOrdinary(DayKey(day), Weekly)
    ensures Denotes(DayKey(day), Weekly) == Some(day / 7) && TimeOf(DayKey(day), Weekly) == Some(day)
  {
    hide DayKey, ParseDailyKey, ParseWeeklyKey, Contains, FromDay;
    KeyRangeIsRepresentable(Daily, day);
    DayKeyRoundTrip(day);
    DateAsWeekKey(day);
  }

  lemma DateIsNoWeek(day: int)
    requires InKeyRange(Daily, day)
    ensures !IsPadded(DayKey(day), Weekly)
  {
    hide FormatDate, FromDay, HasDateShape;
    PrintedShape(FromDay(day));
    ShapeLength(DayKey(day));
  }

  /** A date compares with a numbered week by their years, and comes first if they have the same. */
  lemma DateAmongWeeks(day: int, week: int)
    requires InKeyRange(Daily, day) && InKeyRange(Weekly, week)
    ensures Less(DayKey(day), WeekKey(week)) <==> FromDay(day).year <= IsoYear(week)
    ensures Less(WeekKey(week), DayKey(day)) <==> IsoYear(week) < FromDay(day).year
  {
    hide FromDay, Padded, IsoWeek, IsoYear, Less;
    var d := FromDay(day);
    IsoWeekIsFound(week);
    var a, b := Padded(d.year, 4), Padded(IsoYear(week), 4);
    var date, number := Padded(d.month, 2) + "-" + Padded(d.day, 2), "W" + Padded(IsoWeek(week), 2);
    assert DayKey(day) == (a + "-") + date && WeekKey(week) == (b + "-") + number;
    FourDigitOrder(d.year, IsoYear(week));
    FourDigitOrder(IsoYear(week), d.year);
    LessByFields(a + "-", date, b + "-", number);
    LessByFields(b + "-", number, a + "-", date);
    LessByFields(a, "-", b, "-");
    LessByFields(b, "-", a, "-");
    LessIrreflexive("-");
    EqualByFields(a, "-", b, "-");
    DigitBeforeW(date, number);
  }

  lemma DigitBeforeW(date: string, number: string)
    requires date != "" && number != "" && IsDigit(date[0]) && number[0] == 'W'
    ensures Less(date, number) && !Less(number, date)
  {
  }

  /** Where a day lies among the weeks around it and the first week of its year. */
  lemma YearOfDate(day: int)
    ensures var year, n := FromDay(day).year, day / 7;
            && IsoYear(n) <= IsoYear(n + 1)
            && (day < Week1Monday(year) <==> IsoYear(n) < year <= IsoYear(n + 1) && day != 7 * n)
  {
    hide FromDay, IsoYear, DaysBeforeYear;
    var year, n := FromDay(day).year, day / 7;
    YearOfDay(day, year);
    YearReached(n, year);
    YearReached(n + 1, year);
    YearReached(n, IsoYear(n));
    YearReached(n + 1, IsoYear(n));
  }

  lemma YearReached(week: int, year: int)
    ensures year <= IsoYear(week) <==> FirstWeek(year) <= week
  {
    hide FromDay, DaysBeforeYear;
    var reached := IsoYear(week);
    YearOfDay(7 * week + 3, reached);
    YearLength(reached);
    YearLength(year);
    if year < reached {
      LaterYear(year, reached);
    } else if reached < year {
      LaterYear(reached, year);
    }
  }

  // ----- Keys that are judged wrong -----

  /** Month keys such as 2024-9 pass the format check, and the range from October back to
      September is accepted and the right one refused. */
  lemma UnpaddedMonthsCompareWrongly(config: PartitionConfig)
    requires config.partitionType == Time(Monthly)
    ensures ParseMonthlyKey("2024-9") == Some((2024, 9)) && ParseMonthlyKey("2024-10") == Some((2024, 10))
    ensures ValidateBackfillRange("2024-10", "2024-9", config).Ok?
    ensures ValidateBackfillRange("2024-9", "2024-10", config).Err?
  {
    hide ParseMonthlyKey, IsTimeKey;
    UnpaddedMonthParses("9", 9);
    UnpaddedMonthParses("10", 10);
    assert "2024" + "-" + "9" == "2024-9" && "2024" + "-" + "10" == "2024-10";
    LessByFields("2024-", "9", "2024-", "10");
    LessByFields("2024-", "10", "2024-", "9");
    assert "2024-" + "9" == "2024-9" && "2024-" + "10" == "2024-10";
    LessIrreflexive("2024-");
  }

  lemma UnpaddedMonthParses(month: string, n: nat)
    requires (month == "9" && n == 9) || (month == "10" && n == 10)
    ensures ParseMonthlyKey("2024" + "-" + month) == Some((2024, n))
    ensures IsTimeKey("2024" + "-" + month, Monthly)
  {
    hide Split, ParseI32, ParseU32, Decimal, Value;
    SplitAtPattern("2024", "-", month);
    SplitWithoutPattern(month, "-");
    PrintedNumbers();
    ValueOfDecimal(2024);
    ValueOfDecimal(n);
    ParseOfDigits("2024");
    ParseOfDigits(month);
  }

  lemma PrintedNumbers()
    ensures Decimal(2024) == "2024" && Decimal(9) == "9" && Decimal(10) == "10"
  {
    assert Decimal(1) == "1" && Decimal(2) == "2" && Decimal(20) == "20" && Decimal(202) == "202";
  }

  /** Day keys such as 2024-1-5 pass too, and come after every padded January day as strings. */
  lemma UnpaddedDaysCompareWrongly(config: PartitionConfig)
    requires config.partitionType == Time(Daily)
    ensures ParseDailyKey("2024-1-5") == Some(DayNumber(Date(2024, 1, 5)))
    ensures forall day: nat :: 1 <= day <= 31 ==>
              ValidateBackfillRange(DayKey(DayNumber(Date(2024, 1, day))), "2024-1-5", config).Ok?
  {
    UnpaddedDayParses();
    forall day: nat | 1 <= day <= 31
      ensures ValidateBackfillRange(DayKey(DayNumber(Date(2024, 1, day))), "2024-1-5", config).Ok?
    {
      JanuaryBeforeUnpadded(day, config);
    }
  }

  lemma UnpaddedDayParses()
    ensures ParseDailyKey("2024-1-5") == Some(DayNumber(Date(2024, 1, 5)))
  {
    hide ScanNumber, Padded, DayNumber;
    assert YearField(2024) == "2024" by { YearDigits(); }
    assert "2024-1-5" == "2024" + "-1-5" && "1-5" == "1" + "-5" && "5" == "5" + "";
    ScanOfYear(2024, "-1-5");
    ScanOfDigits("1", "-5", 2);
    ScanOfDigits("5", "", 2);
    OneDigit();
    assert "-1-5"[1..] == "1-5" && "-5"[1..] == "5";
  }

  lemma OneDigit()
    ensures Value("1") == 1 && Value("5") == 5
  {
    assert "1"[..0] == "" && "5"[..0] == "";
  }

  lemma YearDigits()
    ensures Padded(2024, 4) == "2024" && Padded(1, 2) == "01"
  {
    assert Padded(2, 1) == "2" && Padded(20, 2) == "20" && Padded(202, 3) == "202" && Padded(0, 1) == "0";
  }

  lemma JanuaryBeforeUnpadded(day: nat, config: PartitionConfig)
    requires config.partitionType == Time(Daily) && 1 <= day <= 31
    ensures ValidateBackfillRange(DayKey(DayNumber(Date(2024, 1, day))), "2024-1-5", config).Ok?
  {
    hide FromDay, DayNumber, Padded, ScanDate;
    var d := Date(2024, 1, day);
    DayNumberIsOrderIsomorphism(d, d);
    ParseOfDate(d);
    UnpaddedDayParses();
    YearDigits();
    var rest := "1-" + Padded(day, 2);
    assert FormatDate(d) == "2024-" + ("0" + rest) by {
      assert "01" == "0" + "1";
    }
    assert "2024-1-5" == "2024-" + "1-5";
    LessByFields("2024-", "0" + rest, "2024-", "1-5");
  }

  /** With a `T` before the time an hourly key comes after every canonical key of its day, so no
      range from it within the day is accepted and every range to it is. */
  lemma SeparatorsCompareWrongly(day: int, hour: nat, other: nat, config: PartitionConfig)
    requires config.partitionType == Time(Hourly)
    requires InKeyRange(Daily, day) && hour < 24 && other < 24
    ensures var key := DayKey(day) + "T" + HourField(hour);
            && Denotes(key, Hourly) == Some(24 * day + hour)
            && ValidateBackfillRange(key, HourKey(24 * day + other), config).Err?
            && ValidateBackfillRange(HourKey(24 * day + other), key, config).Ok?
  {
    hide FormatDate, FromDay, ParseMoment, HourField, Less, HasDateShape, DayNumber;
    var d := FromDay(day);
    HourOfDay(day, other);
    FullHour(hour);
    FullHour(other);
    ParseOfMoment(d, hour, 0, 0, 'T');
    ParseOfMoment(d, other, 0, 0, ' ');
    SeparatorOrder(FormatDate(d), HourField(hour), HourField(other));
    assert ['T'] == "T" && [' '] == " ";
  }

  lemma SeparatorOrder(date: string, a: string, b: string)
    ensures Less(date + " " + b, date + "T" + a) && !Less(date + "T" + a, date + " " + b)
  {
    assert date + " " + b == date + (" " + b) && date + "T" + a == date + ("T" + a);
    LessByFields(date, " " + b, date, "T" + a);
    LessIrreflexive(date);
    LessByFields(date, "T" + a, date, " " + b);
  }

  /** A date and a week of the same year compare as the date being first, whenever either is. */
  lemma DatesComeBeforeWeeks(day: int, week: int, config: PartitionConfig)
    requires config.partitionType == Time(Weekly)
    requires InKeyRange(Daily, day) && InKeyRange(Weekly, week) && FromDay(day).year == IsoYear(week)
    ensures Denotes(DayKey(day), Weekly) == Some(day / 7)
    ensures ValidateBackfillRange(DayKey(day), WeekKey(week), config).Ok?
    ensures ValidateBackfillRange(WeekKey(week), DayKey(day), config).Err?
  {
    hide FromDay, ParseDate, ParseWeeklyKey, Padded, Contains, IsoWeek, IsoYear, Split;
    var d := FromDay(day);
    DateAsWeekKey(day);
    DayKeyRoundTrip(day);
    IsoWeekIsFound(week);
    WeekKeyIsValid(week);
    LengthInBytes(WeekKey(week));
    var month := Padded(d.month, 2);
    var date, number := month + "-" + Padded(d.day, 2), "W" + Padded(IsoWeek(week), 2);
    var year := YearField(d.year) + "-";
    assert DayKey(day) == year + date && WeekKey(week) == year + number;
    assert IsDigit(date[0]);
    LessByFields(year, date, year, number);
    LessByFields(year, number, year, date);
    LessIrreflexive(year);
  }
}
