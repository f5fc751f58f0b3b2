/** Dates and times as version 0.4 of the chrono crate prints and parses them, for the formats
    `%Y-%m-%d`, `%Y-%m-%d %H:%M:%S` and `%Y-%m-%dT%H:%M:%S`. */
module ChronoFormat {
  import opened Wrappers
  import opened Calendar
  import opened Text

  // ----- Printing -----

  /** `%Y`: four digits, with a sign outside 0 to 9999. */
  function YearField(year: int): string {
    if 0 <= year <= 9999 then Padded(year, 4)
    else if year < 0 then "-" + AtLeastFour(-year)
    else "+" + AtLeastFour(year)
  }

  function AtLeastFour(n: nat): (s: string)
    ensures |s| >= 1 && AllDigits(s)
  {
    if n <= 9999 then Padded(n, 4) else Decimal(n)
  }

  /** `%Y-%m-%d` */
  function FormatDate(d: Date): string {
    YearField(d.year) + "-" + Padded(d.month, 2) + "-" + Padded(d.day, 2)
  }

  /** `%H:00:00` */
  function HourField(hour: nat): string {
    Padded(hour, 2) + ":00:00"
  }

  /** `%H:%M:%S` */
  function TimeField(hour: nat, minute: nat, second: nat): string {
    Padded(hour, 2) + ":" + Padded(minute, 2) + ":" + Padded(second, 2)
  }

  lemma FullHour(hour: nat)
    ensures TimeField(hour, 0, 0) == HourField(hour)
  {
    hide Padded;
    ZeroIsPadded();
  }

  lemma ZeroIsPadded()
    ensures Padded(0, 2) == "00"
  {
    assert Padded(0, 1) == "0";
  }

  // ----- Parsing -----

  /** A number read from the front, and what follows it. */
  datatype Scan = Scan(value: int, rest: string)

  /** Unicode white space. */
  predicate IsWhitespace(c: char) {
    '\U{9}' <= c <= '\U{D}'
    || c in {' ', '\U{85}', '\U{A0}', '\U{1680}', '\U{2028}', '\U{2029}', '\U{202F}', '\U{205F}', '\U{3000}'}
    || '\U{2000}' <= c <= '\U{200A}'
  }

  function TrimStart(s: string): string {
    if s != "" && IsWhitespace(s[0]) then TrimStart(s[1..]) else s
  }

  /** How many digits lead the string, counting up to `max`. */
  function DigitRun(s: string, max: nat): (n: nat)
    ensures n <= |s| && n <= max && AllDigits(s[..n])
  {
    if max == 0 || s == "" || !IsDigit(s[0]) then 0
    else
      var n := DigitRun(s[1..], max - 1);
      assert s[..n + 1] == [s[0]] + s[1..][..n];
      n + 1
  }

  function ScanNumber(s: string, max: nat): Option<Scan> {
    var n := DigitRun(s, max);
    if n == 0 then None else Some(Scan(Value(s[..n]), s[n..]))
  }

  /** A month, day, hour, minute or second: up to two digits, white space before them allowed. */
  function ScanField(s: string): Option<Scan> {
    ScanNumber(TrimStart(s), 2)
  }

  /** A year: up to four digits, or any number of them after a sign. */
  function ScanYear(s: string): Option<Scan> {
    var t := TrimStart(s);
    if t != "" && t[0] == '-' then
      var year :- ScanNumber(t[1..], |t|);
      Some(Scan(-year.value, year.rest))
    else if t != "" && t[0] == '+' then ScanNumber(t[1..], |t|)
    else ScanNumber(t, 4)
  }

  /** The rest after a literal character. */
  function Expect(s: string, c: char): Option<string> {
    if s != "" && s[0] == c then Some(s[1..]) else None
  }

  datatype DateScan = DateScan(date: Date, rest: string)

  function ScanDate(s: string): Option<DateScan> {
    var year :- ScanYear(s);
    var afterYear :- Expect(year.rest, '-');
    var month :- ScanField(afterYear);
    var afterMonth :- Expect(month.rest, '-');
    var day :- ScanField(afterMonth);
    Some(DateScan(Date(year.value, month.value, day.value), day.rest))
  }

  /** The years of the crate's dates. */
  predicate InCalendar(d: Date) {
    IsDate(d) && -262143 <= d.year <= 262142
  }

  function ParseDate(s: string): Option<int> {
    var scan :- ScanDate(s);
    if scan.rest == "" && InCalendar(scan.date) then Some(DayNumber(scan.date)) else None
  }

  /** A date and time to the second; second 60 is a leap second. */
  datatype Moment = Moment(day: int, hour: nat, minute: nat, second: nat)

  datatype TimeScan = TimeScan(hour: nat, minute: nat, second: nat)

  /** `%H:%M:%S` up to the end. */
  function ParseTime(s: string): Option<TimeScan> {
    var hour :- ScanField(s);
    var afterHour :- Expect(hour.rest, ':');
    var minute :- ScanField(afterHour);
    var afterMinute :- Expect(minute.rest, ':');
    var second :- ScanField(afterMinute);
    if second.rest == "" && 0 <= hour.value < 24 && 0 <= minute.value < 60 && 0 <= second.value <= 60
    then Some(TimeScan(hour.value, minute.value, second.value)) else None
  }

  /** A date, the separator, a time. A space in the format stands for any white space, or none. */
  function ParseMoment(s: string, separator: char): Option<Moment> {
    var scan :- ScanDate(s);
    var time :- if separator == ' ' then Some(TrimStart(scan.rest)) else Expect(scan.rest, separator);
    var t :- ParseTime(time);
    if InCalendar(scan.date) then Some(Moment(DayNumber(scan.date), t.hour, t.minute, t.second)) else None
  }

  // ----- What is printed is parsed -----

  /** Digits are read up to a character that is none, or up to the width. */
  lemma {:induction false} DigitRunEnds(digits: string, rest: string, max: nat)
    requires AllDigits(digits) && |digits| <= max
    requires |digits| == max || rest == "" || !IsDigit(rest[0])
    ensures DigitRun(digits + rest, max) == |digits|
  {
    if digits == "" {
      assert digits + rest == rest;
    } else {
      assert (digits + rest)[1..] == digits[1..] + rest;
      DigitRunEnds(digits[1..], rest, max - 1);
    }
  }

  lemma ScanOfDigits(digits: string, rest: string, max: nat)
    requires digits != "" && AllDigits(digits) && |digits| <= max
    requires |digits| == max || rest == "" || !IsDigit(rest[0])
    ensures ScanNumber(digits + rest, max) == Some(Scan(Value(digits), rest))
    ensures TrimStart(digits + rest) == digits + rest
  {
    hide Value, DigitRun;
    DigitRunEnds(digits, rest, max);
    assert (digits + rest)[..|digits|] == digits && (digits + rest)[|digits|..] == rest;
    assert IsDigit((digits + rest)[0]);
  }

  lemma ScanOfField(n: nat, rest: string)
    requires n < 100
    ensures ScanField(Padded(n, 2) + rest) == Some(Scan(n, rest))
  {
    hide Padded, ScanNumber, TrimStart, Value;
    PowersOfTen();
    ValueOfPadded(n, 2);
    ScanOfDigits(Padded(n, 2), rest, 2);
  }

  lemma ValueOfAtLeastFour(n: nat)
    ensures Value(AtLeastFour(n)) == n
  {
    PowersOfTen();
    if n <= 9999 {
      ValueOfPadded(n, 4);
    } else {
      ValueOfDecimal(n);
    }
  }

  lemma ScanOfYear(year: int, rest: string)
    requires rest != "" && !IsDigit(rest[0])
    ensures ScanYear(YearField(year) + rest) == Some(Scan(year, rest))
  {
    hide Padded, Value, ScanNumber, AtLeastFour;
    var text := YearField(year) + rest;
    if 0 <= year <= 9999 {
      PowersOfTen();
      ValueOfPadded(year, 4);
      ScanOfDigits(Padded(year, 4), rest, 4);
      assert IsDigit(text[0]);
    } else {
      var digits := AtLeastFour(if year < 0 then -year else year);
      ValueOfAtLeastFour(if year < 0 then -year else year);
      assert text[1..] == digits + rest;
      ScanOfDigits(digits, rest, |text|);
      assert TrimStart(text) == text;
    }
  }

  /** A printed date is read back, whatever its year. */
  lemma ScanOfDate(d: Date, rest: string)
    requires d.month < 100 && d.day < 100
    ensures ScanDate(FormatDate(d) + rest) == Some(DateScan(d, rest))
  {
    hide YearField, Padded, ScanYear, ScanField;
    var day := Padded(d.day, 2) + rest;
    var month := Padded(d.month, 2) + ("-" + day);
    assert FormatDate(d) + rest == YearField(d.year) + ("-" + month);
    assert ("-" + month)[1..] == month && ("-" + day)[1..] == day;
    ScanOfYear(d.year, "-" + month);
    ScanOfField(d.month, "-" + day);
    ScanOfField(d.day, rest);
  }

  lemma ParseOfDate(d: Date)
    requires InCalendar(d)
    ensures ParseDate(FormatDate(d)) == Some(DayNumber(d))
  {
    hide FormatDate, ScanDate;
    assert FormatDate(d) + "" == FormatDate(d);
    ScanOfDate(d, "");
  }

  predicate IsTimeOfDay(hour: nat, minute: nat, second: nat) {
    hour < 24 && minute < 60 && second <= 60
  }

  lemma ParseOfTime(hour: nat, minute: nat, second: nat)
    requires hour < 100 && minute < 100 && second < 100
    ensures ParseTime(TimeField(hour, minute, second)) ==
              if IsTimeOfDay(hour, minute, second) then Some(TimeScan(hour, minute, second)) else None
  {
    hide ScanField, Padded;
    var seconds := Padded(second, 2) + "";
    var minutes := Padded(minute, 2) + (":" + seconds);
    assert TimeField(hour, minute, second) == Padded(hour, 2) + (":" + minutes);
    assert (":" + minutes)[1..] == minutes && (":" + seconds)[1..] == seconds;
    ScanOfField(hour, ":" + minutes);
    ScanOfField(minute, ":" + seconds);
    ScanOfField(second, "");
  }

  /** A printed date and time are read back by the format with their separator, and not by the other. */
  lemma ParseOfMoment(d: Date, hour: nat, minute: nat, second: nat, separator: char)
    requires d.month < 100 && d.day < 100 && hour < 100 && minute < 100 && second < 100 && separator in {' ', 'T'}
    ensures var s := FormatDate(d) + [separator] + TimeField(hour, minute, second);
            && ParseMoment(s, separator) ==
                 (if InCalendar(d) && IsTimeOfDay(hour, minute, second)
                  then Some(Moment(DayNumber(d), hour, minute, second)) else None)
            && ParseMoment(s, if separator == ' ' then 'T' else ' ') == None
  {
    hide FormatDate, ScanDate, Padded;
    var time := TimeField(hour, minute, second);
    assert FormatDate(d) + [separator] + time == FormatDate(d) + ([separator] + time);
    assert ([separator] + time)[1..] == time && IsDigit(time[0]);
    assert TrimStart(time) == time;
    ScanOfDate(d, [separator] + time);
    ParseOfTime(hour, minute, second);
  }

  // ----- Zero-padded fields -----

  predicate HasDateShape(s: string) {
    && |s| == 10 && s[4] == '-' && s[7] == '-'
    && AllDigits(s[0..4]) && AllDigits(s[5..7]) && AllDigits(s[8..10])
  }

  predicate HasTimeShape(s: string) {
    && |s| == 8 && s[2] == ':' && s[5] == ':'
    && AllDigits(s[0..2]) && AllDigits(s[3..5]) && AllDigits(s[6..8])
  }

  /** A text of padded fields is what is printed for the date it is read as. */
  lemma PaddedDate(s: string, rest: string)
    requires HasDateShape(s)
    ensures ScanDate(s + rest).Some?
    ensures var scan := ScanDate(s + rest).value;
            && scan.rest == rest && FormatDate(scan.date) == s
            && 0 <= scan.date.year <= 9999 && scan.date.month < 100 && scan.date.day < 100
  {
    hide ScanDate, Value, Padded, AllDigits, Pow10;
    var d := Date(Value(s[0..4]), Value(s[5..7]), Value(s[8..10]));
    PaddedOfValue(s[0..4]);
    PaddedOfValue(s[5..7]);
    PaddedOfValue(s[8..10]);
    PowersOfTen();
    assert s == s[0..4] + "-" + s[5..7] + "-" + s[8..10];
    ScanOfDate(d, rest);
  }

  /** A text of padded fields is what is printed for the time it is read as. */
  lemma PaddedTime(s: string)
    requires HasTimeShape(s)
    ensures var hour, minute, second := Value(s[0..2]), Value(s[3..5]), Value(s[6..8]);
            hour < 100 && minute < 100 && second < 100 && s == TimeField(hour, minute, second)
  {
    hide Value, Padded, AllDigits, Pow10;
    PaddedOfValue(s[0..2]);
    PaddedOfValue(s[3..5]);
    PaddedOfValue(s[6..8]);
    PowersOfTen();
    assert s == s[0..2] + ":" + s[3..5] + ":" + s[6..8];
  }

  lemma PrintedTimeShape(hour: nat, minute: nat, second: nat)
    ensures HasTimeShape(TimeField(hour, minute, second))
  {
    hide Padded;
    var s := TimeField(hour, minute, second);
    assert s[0..2] == Padded(hour, 2) && s[3..5] == Padded(minute, 2) && s[6..8] == Padded(second, 2);
  }

  lemma PrintedShape(d: Date)
    requires 0 <= d.year <= 9999
    ensures HasDateShape(FormatDate(d))
  {
    hide Padded;
    var s := FormatDate(d);
    assert s[0..4] == Padded(d.year, 4) && s[5..7] == Padded(d.month, 2) && s[8..10] == Padded(d.day, 2);
  }
}
