/** Which partition keys and ranges pass validation, and how the others are refused
    (servo-core/src/partition_validator.rs). */
module KeyFormats {
  import opened Wrappers
  import opened Assets
  import opened Calendar
  import opened ChronoFormat
  import opened ChronoGrammar
  import opened Text
  import opened PartitionKeys
  import opened PartitionMapping
  import opened PartitionValidator

  predicate IsAccepted(key: string, g: TimeGranularity) {
    ValidateKeyFormat(key, Time(g)).Ok?
  }

  /** Except for weeks, a key is accepted exactly if it stands for a partition, in two fields if it is a
      month and in four bytes if it is a year; and a refused key is named with its type. */
  lemma AcceptedKeysDenote(key: string, g: TimeGranularity)
    requires g != Weekly
    ensures IsAccepted(key, g) <==>
              && Denotes(key, g).Some?
              && (g == Monthly ==> |Split(key, "-")| == 2)
              && (g == Yearly ==> Utf8Length(key) == 4)
    ensures !IsAccepted(key, g) ==> ValidateKeyFormat(key, Time(g)) == Err(InvalidKeyFormat(key, Time(g)))
  {
    hide ParseHourlyKey, ParseDailyKey, Split, ParseI32, ParseU32, Utf8Length;
  }

  /** A daily key is accepted exactly if it has the form of a date that exists. */
  lemma DayIsAcceptedIff(key: string)
    ensures IsAccepted(key, Daily) <==>
              exists d: DateText :: d.IsValid() && d.Text() == key && InCalendar(d.ToDate())
  {
    hide ParseDate, DayNumber;
    assert IsAccepted(key, Daily) <==> ParseDate(key).Some?;
    if ParseDate(key).Some? {
      DateIsParsedIff(key, ParseDate(key).value);
    }
    forall d: DateText | d.IsValid() && d.Text() == key && InCalendar(d.ToDate()) ensures ParseDate(key).Some? {
      DateIsParsedIff(key, DayNumber(d.ToDate()));
    }
  }

  /** An hourly key is accepted exactly if it has the form of a date and a time that exist. */
  lemma HourIsAcceptedIff(key: string)
    ensures IsAccepted(key, Hourly) <==>
              exists d: DateText, t: TimeText :: IsHourText(key, d, t) && InCalendar(d.ToDate()) && t.IsTime()
  {
    hide ParseHourlyKey, IsHourText;
    assert IsAccepted(key, Hourly) <==> ParseHourlyKey(key).Some?;
    if ParseHourlyKey(key).Some? {
      var d, t := ParsedHourText(key);
    }
    forall d: DateText, t: TimeText | IsHourText(key, d, t)
      ensures d.IsValid() && t.IsValid()
      ensures InCalendar(d.ToDate()) && t.IsTime() ==> ParseHourlyKey(key).Some?
    {
      ValidParts(key, d, t);
      HourTextIsParsed(key, d, t);
    }
  }

  /** A printed date is accepted exactly if it exists and its year is one of the crate's. */
  lemma PrintedIsAcceptedIff(d: Date)
    requires d.month < 100 && d.day < 100
    ensures IsAccepted(FormatDate(d), Daily) <==> IsDate(d) && -262143 <= d.year <= 262142
  {
    hide FormatDate, ScanDate, IsDate, DayNumber;
    ScanOfDate(d, "");
    assert FormatDate(d) + "" == FormatDate(d);
  }

  // ----- Padded keys -----

  function PaddedDateOf(key: string): Date
    requires |key| >= 10 && HasDateShape(key[..10])
  {
    var date := key[..10];
    Date(Value(date[0..4]), Value(date[5..7]), Value(date[8..10]))
  }

  /** What the fields of a padded key stand for exists. A week is not looked at. */
  predicate Exists(key: string, g: TimeGranularity)
    requires IsPadded(key, g)
  {
    match g
    case Hourly =>
      var time := key[11..];
      IsDate(PaddedDateOf(key)) && IsTimeOfDay(Value(time[0..2]), Value(time[3..5]), Value(time[6..8]))
    case Daily =>
      assert key[..10] == key;
      IsDate(PaddedDateOf(key))
    case Monthly => 1 <= Value(key[5..]) <= 12
    case _ => true
  }

  /** A padded key is accepted exactly if its month, day and time exist, and for weeks always. */
  lemma PaddedIsAcceptedIff(key: string, g: TimeGranularity)
    requires IsPadded(key, g)
    ensures IsAccepted(key, g) <==> Exists(key, g)
  {
    hide ParseHourlyKey, ParseDailyKey, HasDateShape, Value, IsDate, Utf8Length, ParseI32, ParseU32, Split, Contains,
         PaddedDateOf;
    match g
    case Hourly => PaddedHour(key);
    case Daily => PaddedDay(key);
    case Weekly => PaddedWeekParts(key);
    case Monthly => PaddedMonthParts(key);
    case Yearly =>
      ParseOfDigits(key);
      LengthInBytes(key);
  }

  lemma PaddedDateText(key: string) returns (d: DateText)
    requires HasDateShape(key)
    ensures d.IsValid() && d.Text() == key && |d.day| == 2
    ensures key[..10] == key && d.ToDate() == PaddedDateOf(key) && 0 <= d.ToDate().year <= 9999
  {
    hide Value;
    d := DateText("", key[0..4], "", key[5..7], "", key[8..10]);
    PaddedOfValue(key[0..4]);
    PowersOfTen();
    assert key[..10] == key;
  }

  lemma PaddedDay(key: string)
    requires HasDateShape(key)
    ensures key[..10] == key && (ParseDailyKey(key).Some? <==> IsDate(PaddedDateOf(key)))
  {
    hide HasDateShape, IsDate, DayNumber, ScanDate, PaddedDateOf;
    var d := PaddedDateText(key);
    assert d.Text() + "" == d.Text();
    DateIsScanned(d, "");
  }

  lemma PaddedHour(key: string)
    requires HasMomentShape(key)
    ensures var time := key[11..];
            ParseHourlyKey(key).Some? <==>
              IsDate(PaddedDateOf(key)) && IsTimeOfDay(Value(time[0..2]), Value(time[3..5]), Value(time[6..8]))
  {
    hide ParseHourlyKey, HasDateShape, IsDate, DayNumber, Value, MomentOf;
    var date, time := key[..10], key[11..];
    var d := PaddedDateText(date);
    var t := TimeText(" ", time[0..2], "", time[3..5], "", time[6..8]);
    assert t.Text() == " " + time;
    assert key == date + " " + time && date[..10] == date;
    HourTextIsParsed(key, d, t);
  }

  lemma PaddedMonthParts(key: string)
    requires IsPadded(key, Monthly)
    ensures Split(key, "-") == [key[..4], key[5..]]
    ensures ParseI32(key[..4]) == Some(Value(key[..4])) && ParseU32(key[5..]) == Some(Value(key[5..]))
  {
    hide Split, Value;
    var year, month := key[..4], key[5..];
    assert key == year + "-" + month;
    SplitAtPattern(year, "-", month);
    SplitWithoutPattern(month, "-");
    ParseOfDigits(year);
    ParseOfDigits(month);
  }

  lemma PaddedWeekParts(key: string)
    requires IsPadded(key, Weekly)
    ensures Contains(key, "-W") && Utf8Length(key) == 8
    ensures Split(key, "-W") == [key[..4], key[6..]]
    ensures ParseI32(key[..4]) == Some(Value(key[..4])) && ParseU32(key[6..]) == Some(Value(key[6..]))
  {
    hide Split, Value, Contains, Utf8Length;
    var year, week := key[..4], key[6..];
    assert key == year + "-W" + week;
    LengthInBytes(key);
    ContainsPattern(year, "-W", week);
    SplitAtPattern(year, "-W", week);
    SplitWithoutPattern(week, "-W");
    ParseOfDigits(year);
    ParseOfDigits(week);
  }

  /** A padded week key passes whatever its number, but stands for a week exactly if its year has
      one of that number. */
  lemma WeekDenotesIff(key: string)
    requires IsPadded(key, Weekly)
    ensures IsAccepted(key, Weekly)
    ensures ParseWeeklyKey(key).Some? <==> 1 <= Value(key[6..]) <= WeeksInYear(Value(key[..4]))
  {
    hide Split, Value, Contains, Utf8Length, ParseI32, ParseU32, FirstWeek, FromDay, ParseDailyKey;
    PaddedWeekParts(key);
    var year, week := Value(key[..4]), Value(key[6..]);
    PaddedOfValue(key[..4]);
    PowersOfTen();
    if 1 <= week <= WeeksInYear(year) {
      WeekExists(year, week);
    }
  }

  lemma WeekExists(year: int, week: int)
    requires 0 <= year <= 9999 && 1 <= week <= WeeksInYear(year)
    ensures InCalendar(FromDay(Week1Monday(year) + 7 * (week - 1)))
  {
    hide FromDay;
    var monday := Week1Monday(year) + 7 * (week - 1);
    var d := FromDay(monday);
    WeeksInYearIs52Or53(year);
    YearLength(year);
    YearLength(year - 1);
    YearOfDay(monday, year - 1);
    YearOfDay(monday, year);
  }

  /** A year and a week in digits pass exactly if they have five digits or more together, so the week may be
      unpadded after a year of four digits. */
  lemma WeekIsAcceptedIff(year: string, week: string)
    requires AllDigits(year) && AllDigits(week)
    ensures IsAccepted(year + "-W" + week, Weekly) <==> |year| + |week| >= 5
  {
    hide Contains, ParseDate, Utf8Length, DayNumber;
    var key := year + "-W" + week;
    ContainsPattern(year, "-W", week);
    LengthInBytes(key);
    assert key[|year| + 1] == 'W';
    if ParseDate(key).Some? {
      DateIsParsedIff(key, ParseDate(key).value);
      var d: DateText :| d.IsValid() && d.Text() == key;
      NoLetterInText(d);
    }
  }

  lemma NoLetterInText(d: DateText)
    requires d.IsValid()
    ensures 'W' !in d.Text()
  {
    if d.year[0] == '+' || d.year[0] == '-' {
      assert d.year == [d.year[0]] + d.year[1..];
    }
  }

  // ----- Ranges and other partition types -----

  /** A range is accepted exactly if both keys are and the start compares as before the end. Otherwise the
      error names the start if that is malformed, or else the end if that is, or else both. */
  lemma RangeErrors(start: string, end: string, config: PartitionConfig)
    ensures var t := config.partitionType;
            var startOk, endOk := ValidateKeyFormat(start, t).Ok?, ValidateKeyFormat(end, t).Ok?;
            && (ValidateBackfillRange(start, end, config).Ok? <==> startOk && endOk && Less(start, end))
            && (ValidateBackfillRange(start, end, config).Err? ==>
                  ValidateBackfillRange(start, end, config).error ==
                    InvalidKeyFormat(if !startOk then start else if !endOk then end else start + " to " + end, t))
  {
    hide IsTimeKey, Less;
  }

  /** The key lies between the bounds of a range partition, the lower one included. */
  predicate IsWithin(key: string, lower: string, upper: string) {
    (key == lower || Less(lower, key)) && Less(key, upper)
  }

  /** Range keys are the strings within the bounds, so a backfill range lies within them too. */
  lemma RangeKeys(start: string, end: string, lower: string, upper: string, config: PartitionConfig)
    requires config.partitionType == Range(lower, upper)
    ensures ValidateKeyFormat(start, config.partitionType).Ok? <==> IsWithin(start, lower, upper)
    ensures ValidateBackfillRange(start, end, config).Ok? <==>
              IsWithin(start, lower, upper) && Less(start, end) && Less(end, upper)
  {
    hide Less;
    NotBefore(start, lower);
    NotBefore(end, lower);
    if IsWithin(start, lower, upper) && Less(start, end) {
      LessAsymmetric(start, end);
      LessTransitive(lower, start, end);
    }
  }

  /** Custom keys are never refused, only put in order. */
  lemma CustomKeys(start: string, end: string, config: PartitionConfig)
    requires config.partitionType.Custom?
    ensures ValidateKeyFormat(start, config.partitionType).Ok?
    ensures ValidateBackfillRange(start, end, config).Ok? <==> Less(start, end)
  {
    hide Less;
  }

  lemma NotBefore(a: string, b: string)
    ensures !Less(a, b) <==> a == b || Less(b, a)
  {
    hide Less;
    LessIsTotal(a, b);
    LessIrreflexive(a);
    if Less(b, a) {
      LessAsymmetric(b, a);
    }
  }

  /** No such month and day, no date at all, and a week that no year has. */
  lemma RefusedAndAccepted()
    ensures !IsAccepted("2024-13-45", Daily) && !IsAccepted("invalid", Daily) && !IsAccepted("2024-13", Monthly)
    ensures IsAccepted("2024-W99", Weekly) && ParseWeeklyKey("2024-W99") == None
  {
    hide IsAccepted, ParseWeeklyKey;
    var day, month, week := "2024-13-45", "2024-13", "2024-W99";
    NumbersOfExamples();
    assert day[..10] == day && day[0..4] == "2024" && day[5..7] == "13" && day[8..10] == "45";
    assert month[..4] == "2024" && month[5..] == "13";
    assert week[..4] == "2024" && week[4..6] == "-W" && week[6..] == "99";
    PaddedIsAcceptedIff(day, Daily);
    PaddedIsAcceptedIff(month, Monthly);
    WeekDenotesIff(week);
    WeeksInYearIs52Or53(Value("2024"));
    WordIsNoDate();
  }

  lemma NumbersOfExamples()
    ensures Value("13") == 13 && Value("45") == 45 && Value("99") == 99
  {
    assert "13"[..1] == "1" && "45"[..1] == "4" && "99"[..1] == "9";
    assert "1"[..0] == "" && "4"[..0] == "" && "9"[..0] == "";
    assert Value("1") == 1 && Value("4") == 4 && Value("9") == 9;
  }

  lemma WordIsNoDate()
    ensures !IsAccepted("invalid", Daily)
  {
    assert TrimStart("invalid") == "invalid";
    assert ScanYear("invalid").None?;
  }
}
