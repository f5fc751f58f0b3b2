/** Which texts chrono parses as dates and times, and as what: white space before any number, months and
    the like of one digit or two, years of up to four digits or of any number after a sign. */
module ChronoGrammar {
  import opened Wrappers
  import opened Calendar
  import opened Text
  import opened ChronoFormat
  import opened PartitionKeys

  predicate AllWhitespace(s: string) {
    forall i :: 0 <= i < |s| ==> IsWhitespace(s[i])
  }

  /** A month, day, hour, minute or second. */
  predicate IsField(s: string) {
    1 <= |s| <= 2 && AllDigits(s)
  }

  predicate IsYear(s: string) {
    s != "" && if s[0] == '+' || s[0] == '-' then |s| > 1 && AllDigits(s[1..]) else |s| <= 4 && AllDigits(s)
  }

  function YearValue(s: string): int
    requires IsYear(s)
  {
    if s[0] == '-' then -(Value(s[1..]) as int) else if s[0] == '+' then Value(s[1..]) else Value(s)
  }

  /** A date with white space before its numbers. */
  datatype DateText = DateText(w: string, year: string, w': string, month: string, w'': string, day: string)
  {
    predicate IsValid() {
      AllWhitespace(w) && IsYear(year) && AllWhitespace(w') && IsField(month) && AllWhitespace(w'') && IsField(day)
    }

    function Text(): string {
      w + year + "-" + w' + month + "-" + w'' + day
    }

    function ToDate(): Date
      requires IsValid()
    {
      Date(YearValue(year), Value(month), Value(day))
    }
  }

  /** A time of day, likewise. */
  datatype TimeText = TimeText(w: string, hour: string, w': string, minute: string, w'': string, second: string)
  {
    predicate IsValid() {
      AllWhitespace(w) && IsField(hour) && AllWhitespace(w') && IsField(minute) && AllWhitespace(w'') && IsField(second)
    }

    function Text(): string {
      w + hour + ":" + w' + minute + ":" + w'' + second
    }

    predicate IsTime()
      requires IsValid()
    {
      IsTimeOfDay(Value(hour), Value(minute), Value(second))
    }
  }

  // ----- White space and numbers -----

  lemma {:induction false} TrimOfWhitespace(w: string, s: string)
    requires AllWhitespace(w) && (s == "" || !IsWhitespace(s[0]))
    ensures TrimStart(w + s) == s
  {
    hide IsWhitespace;
    if w == "" {
      assert w + s == s;
    } else {
      assert (w + s)[1..] == w[1..] + s;
      TrimOfWhitespace(w[1..], s);
    }
  }

  lemma {:induction false} TrimmedWhitespace(s: string) returns (w: string)
    ensures s == w + TrimStart(s) && AllWhitespace(w)
    ensures TrimStart(s) == "" || !IsWhitespace(TrimStart(s)[0])
  {
    hide IsWhitespace;
    w := "";
    if s != "" && IsWhitespace(s[0]) {
      w := TrimmedWhitespace(s[1..]);
      w := [s[0]] + w;
    }
  }

  lemma {:induction false} DigitRunIsMaximal(s: string, max: nat)
    ensures var n := DigitRun(s, max); n == max || n == |s| || !IsDigit(s[n])
  {
    if max > 0 && s != "" && IsDigit(s[0]) {
      DigitRunIsMaximal(s[1..], max - 1);
    }
  }

  /** A field is read as its value, up to something that is no further digit of it. */
  lemma FieldIsScanned(w: string, field: string, rest: string)
    requires AllWhitespace(w) && IsField(field)
    requires |field| == 2 || rest == "" || !IsDigit(rest[0])
    ensures ScanField(w + field + rest) == Some(Scan(Value(field), rest))
  {
    hide Value, ScanNumber, AllWhitespace, TrimStart;
    assert w + field + rest == w + (field + rest);
    assert IsDigit((field + rest)[0]);
    TrimOfWhitespace(w, field + rest);
    ScanOfDigits(field, rest, 2);
  }

  lemma ScannedField(s: string) returns (w: string, field: string)
    requires ScanField(s).Some?
    ensures AllWhitespace(w) && IsField(field)
    ensures var scan := ScanField(s).value;
            && s == w + field + scan.rest && scan.value == Value(field)
            && (|field| == 2 || scan.rest == "" || !IsDigit(scan.rest[0]))
  {
    hide Value, DigitRun, AllWhitespace, TrimStart;
    w := TrimmedWhitespace(s);
    var t := TrimStart(s);
    DigitRunIsMaximal(t, 2);
    field := t[..DigitRun(t, 2)];
    assert t == field + t[|field|..];
  }

  lemma YearIsScanned(w: string, year: string, rest: string)
    requires AllWhitespace(w) && IsYear(year) && rest != "" && !IsDigit(rest[0])
    ensures ScanYear(w + year + rest) == Some(Scan(YearValue(year), rest))
  {
    hide Value, ScanNumber, AllWhitespace, TrimStart;
    var t := year + rest;
    assert w + year + rest == w + t;
    assert t[0] == year[0];
    TrimOfWhitespace(w, t);
    if year[0] == '+' || year[0] == '-' {
      assert t[1..] == year[1..] + rest;
      ScanOfDigits(year[1..], rest, |t|);
    } else {
      assert IsDigit(year[0]);
      ScanOfDigits(year, rest, 4);
    }
  }

  lemma ScannedYear(s: string) returns (w: string, year: string)
    requires ScanYear(s).Some?
    ensures AllWhitespace(w) && IsYear(year)
    ensures s == w + year + ScanYear(s).value.rest && ScanYear(s).value.value == YearValue(year)
  {
    hide Value, DigitRun, AllWhitespace, TrimStart;
    w := TrimmedWhitespace(s);
    var t := TrimStart(s);
    if t[0] == '+' || t[0] == '-' {
      var digits := t[1..][..DigitRun(t[1..], |t|)];
      year := [t[0]] + digits;
      assert t[1..] == digits + t[1..][|digits|..];
      assert year[1..] == digits;
    } else {
      year := t[..DigitRun(t, 4)];
      assert t == year + t[|year|..];
    }
  }

  // ----- Dates -----

  lemma DateTextParts(d: DateText, rest: string)
    ensures d.Text() + rest ==
              d.w + d.year + ("-" + (d.w' + d.month + ("-" + (d.w'' + d.day + rest))))
  {
  }

  lemma DateIsScanned(d: DateText, rest: string)
    requires d.IsValid() && (|d.day| == 2 || rest == "" || !IsDigit(rest[0]))
    ensures ScanDate(d.Text() + rest) == Some(DateScan(d.ToDate(), rest))
  {
    hide ScanYear, ScanField, Value, AllWhitespace, IsYear, IsField, YearValue;
    var day := d.w'' + d.day + rest;
    var month := d.w' + d.month + ("-" + day);
    assert d.Text() + rest == d.w + d.year + ("-" + month);
    assert ("-" + month)[1..] == month && ("-" + day)[1..] == day;
    YearIsScanned(d.w, d.year, "-" + month);
    FieldIsScanned(d.w', d.month, "-" + day);
    FieldIsScanned(d.w'', d.day, rest);
  }

  lemma ScannedDate(s: string) returns (d: DateText)
    requires ScanDate(s).Some?
    ensures d.IsValid() && s == d.Text() + ScanDate(s).value.rest && ScanDate(s).value.date == d.ToDate()
    ensures var rest := ScanDate(s).value.rest; |d.day| == 2 || rest == "" || !IsDigit(rest[0])
  {
    hide ScanYear, ScanField, Value, AllWhitespace, IsYear, YearValue, DateText.Text;
    var year := ScanYear(s).value;
    var month := ScanField(year.rest[1..]).value;
    var w, y := ScannedYear(s);
    var w', m := ScannedField(year.rest[1..]);
    var w'', day := ScannedField(month.rest[1..]);
    d := DateText(w, y, w', m, w'', day);
    DateTextParts(d, ScanDate(s).value.rest);
    assert year.rest == "-" + year.rest[1..] && month.rest == "-" + month.rest[1..];
  }

  /** A text is parsed as a date exactly if it has the form of a date that exists in the crate's calendar,
      and then it is parsed as that date. */
  lemma DateIsParsedIff(key: string, n: int)
    ensures ParseDate(key) == Some(n) <==>
              exists d: DateText ::
                d.IsValid() && d.Text() == key && InCalendar(d.ToDate()) && DayNumber(d.ToDate()) == n
  {
    hide ScanDate, DayNumber;
    if ParseDate(key) == Some(n) {
      var d := ScannedDate(key);
      assert d.Text() + "" == d.Text();
    }
    if d: DateText :| d.IsValid() && d.Text() == key && InCalendar(d.ToDate()) && DayNumber(d.ToDate()) == n {
      assert d.Text() + "" == d.Text();
      DateIsScanned(d, "");
    }
  }

  // ----- Times -----

  lemma TimeTextParts(t: TimeText)
    ensures t.Text() == t.w + t.hour + (":" + (t.w' + t.minute + (":" + (t.w'' + t.second + ""))))
  {
  }

  lemma TimeIsParsed(t: TimeText)
    requires t.IsValid()
    ensures ParseTime(t.Text()) ==
              if t.IsTime() then Some(TimeScan(Value(t.hour), Value(t.minute), Value(t.second))) else None
  {
    hide ScanField, Value, AllWhitespace, IsField;
    var second := t.w'' + t.second + "";
    var minute := t.w' + t.minute + (":" + second);
    assert t.Text() == t.w + t.hour + (":" + minute);
    assert (":" + minute)[1..] == minute && (":" + second)[1..] == second;
    FieldIsScanned(t.w, t.hour, ":" + minute);
    FieldIsScanned(t.w', t.minute, ":" + second);
    FieldIsScanned(t.w'', t.second, "");
  }

  lemma ParsedTime(s: string) returns (t: TimeText)
    requires ParseTime(s).Some?
    ensures t.IsValid() && s == t.Text() && t.IsTime()
    ensures ParseTime(s).value == TimeScan(Value(t.hour), Value(t.minute), Value(t.second))
  {
    hide ScanField, Value, AllWhitespace, TimeText.Text;
    var hour := ScanField(s).value;
    var minute := ScanField(hour.rest[1..]).value;
    var w, h := ScannedField(s);
    var w', m := ScannedField(hour.rest[1..]);
    var w'', second := ScannedField(minute.rest[1..]);
    t := TimeText(w, h, w', m, w'', second);
    TimeTextParts(t);
    assert hour.rest == ":" + hour.rest[1..] && minute.rest == ":" + minute.rest[1..];
  }

  // ----- Dates with a time -----

  /** A date and a time with white space between them, or nothing if the day has two digits, or a T. */
  predicate IsHourText(key: string, d: DateText, t: TimeText) {
    d.IsValid() && t.IsValid()
    && ((key == d.Text() + t.Text() && (|d.day| == 2 || t.w != "")) || key == d.Text() + "T" + t.Text())
  }

  function MomentOf(d: DateText, t: TimeText): Moment
    requires d.IsValid() && t.IsValid() && IsDate(d.ToDate())
  {
    Moment(DayNumber(d.ToDate()), Value(t.hour), Value(t.minute), Value(t.second))
  }

  lemma TrimTwice(s: string)
    ensures TrimStart(TrimStart(s)) == TrimStart(s)
    ensures ParseTime(TrimStart(s)) == ParseTime(s)
  {
    hide IsWhitespace;
    var w := TrimmedWhitespace(s);
    assert ScanField(TrimStart(s)) == ScanField(s);
  }

  lemma HourTextIsParsed(key: string, d: DateText, t: TimeText)
    requires IsHourText(key, d, t)
    ensures ParseHourlyKey(key) == if InCalendar(d.ToDate()) && t.IsTime() then Some(MomentOf(d, t)) else None
  {
    hide ScanDate, ParseTime, Value, IsField, AllWhitespace, IsYear, YearValue, TrimStart, DayNumber;
    TimeIsParsed(t);
    if key == d.Text() + t.Text() && (|d.day| == 2 || t.w != "") {
      TextStart(t);
      DateIsScanned(d, t.Text());
      TrimTwice(t.Text());
    } else {
      assert key == d.Text() + ("T" + t.Text());
      assert ("T" + t.Text())[1..] == t.Text();
      DateIsScanned(d, "T" + t.Text());
      NoTimeAtT(t.Text());
    }
  }

  /** A time text starts with white space or a digit, and with no digit if it has white space. */
  lemma TextStart(t: TimeText)
    requires t.IsValid()
    ensures t.Text() != "" && (IsWhitespace(t.Text()[0]) || IsDigit(t.Text()[0]))
    ensures t.w != "" ==> !IsDigit(t.Text()[0])
  {
    if t.w == "" {
      assert t.Text()[0] == t.hour[0];
    } else {
      assert t.Text()[0] == t.w[0];
    }
  }

  lemma NoTimeAtT(s: string)
    ensures TrimStart("T" + s) == "T" + s && ParseTime("T" + s) == None
  {
    assert ("T" + s)[0] == 'T';
  }

  lemma ParsedHourText(key: string) returns (d: DateText, t: TimeText)
    requires ParseHourlyKey(key).Some?
    ensures IsHourText(key, d, t) && InCalendar(d.ToDate()) && t.IsTime()
  {
    hide ScanDate, ParseTime, Value, IsField, AllWhitespace, IsYear, YearValue, DayNumber, TrimStart;
    d := ScannedDate(key);
    var rest := ScanDate(key).value.rest;
    if ParseMoment(key, ' ').Some? {
      TrimTwice(rest);
      t := ParsedTime(rest);
      NothingBetween(d, t);
    } else {
      t := ParsedTime(rest[1..]);
      assert rest == "T" + rest[1..];
      assert d.Text() + ("T" + t.Text()) == d.Text() + "T" + t.Text();
    }
  }

  lemma NothingBetween(d: DateText, t: TimeText)
    requires t.IsValid() && (|d.day| == 2 || !IsDigit(t.Text()[0]))
    ensures |d.day| == 2 || t.w != ""
  {
    if t.w == "" {
      assert t.Text()[0] == t.hour[0];
    }
  }

  /** An hourly key is parsed exactly if it has the form of a date and a time that exist, and then as those. */
  lemma HourIsParsedIff(key: string, m: Moment)
    ensures ParseHourlyKey(key) == Some(m) <==>
              exists d: DateText, t: TimeText ::
                IsHourText(key, d, t) && InCalendar(d.ToDate()) && t.IsTime() && MomentOf(d, t) == m
  {
    hide IsHourText, ParseHourlyKey, MomentOf;
    if ParseHourlyKey(key).Some? {
      var d, t := ParsedHourText(key);
      ValidParts(key, d, t);
      HourTextIsParsed(key, d, t);
    }
    forall d: DateText, t: TimeText | IsHourText(key, d, t)
      ensures d.IsValid() && t.IsValid()
      ensures ParseHourlyKey(key) == if InCalendar(d.ToDate()) && t.IsTime() then Some(MomentOf(d, t)) else None
    {
      ValidParts(key, d, t);
      HourTextIsParsed(key, d, t);
    }
  }

  lemma ValidParts(key: string, d: DateText, t: TimeText)
    requires IsHourText(key, d, t)
    ensures d.IsValid() && t.IsValid()
  {
  }
}
