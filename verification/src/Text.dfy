/** The string operations that the partition keys rely on: comparison, splitting,
    zero-padded numbers and integer parsing, as in Rust's standard library. */
module Text {
  import opened Integers
  import opened Wrappers

  /** `str` comparison. */
  predicate Less(a: string, b: string) {
    if a == [] then b != []
    else b != [] && (a[0] < b[0] || (a[0] == b[0] && Less(a[1..], b[1..])))
  }

  /** Fields of equal width compare one after the other. */
  lemma {:induction false} LessByFields(a: string, a': string, b: string, b': string)
    requires |a| == |b|
    ensures Less(a + a', b + b') <==> Less(a, b) || (a == b && Less(a', b'))
  {
    if a == [] {
      assert a + a' == a' && b + b' == b';
    } else {
      assert (a + a')[1..] == a[1..] + a' && (b + b')[1..] == b[1..] + b';
      LessByFields(a[1..], a', b[1..], b');
      assert a == [a[0]] + a[1..] && b == [b[0]] + b[1..];
    }
  }

  lemma {:induction false} LessIrreflexive(a: string)
    ensures !Less(a, a)
  {
    if a != [] {
      LessIrreflexive(a[1..]);
    }
  }

  lemma {:induction false} LessAsymmetric(a: string, b: string)
    requires Less(a, b)
    ensures !Less(b, a)
  {
    if a != [] && a[0] == b[0] {
      LessAsymmetric(a[1..], b[1..]);
    }
  }

  lemma {:induction false} LessTransitive(a: string, b: string, c: string)
    requires !Less(b, a) && !Less(c, b)
    ensures !Less(c, a)
  {
    if a != [] && b != [] && c != [] && a[0] == b[0] == c[0] {
      LessTransitive(a[1..], b[1..], c[1..]);
    }
  }

  lemma {:induction false} LessIsTotal(a: string, b: string)
    ensures Less(a, b) || a == b || Less(b, a)
  {
    if a != [] && b != [] && a[0] == b[0] {
      LessIsTotal(a[1..], b[1..]);
      assert a == [a[0]] + a[1..] && b == [b[0]] + b[1..];
    }
  }

  /** A proper prefix comes first. */
  lemma {:induction false} PrefixIsLess(a: string, b: string)
    requires b != ""
    ensures Less(a, a + b) && !Less(a + b, a)
  {
    if a == "" {
      assert a + b == b;
    } else {
      assert (a + b)[1..] == a[1..] + b;
      PrefixIsLess(a[1..], b);
    }
  }

  /** `str::len`: the number of bytes in UTF-8. */
  function Utf8Length(s: string): nat {
    if s == "" then 0
    else
      var c := s[0] as int;
      Utf8Length(s[1..]) + if c < 0x80 then 1 else if c < 0x800 then 2 else if c < 0x1_0000 then 3 else 4
  }

  lemma {:induction false} LengthInBytes(s: string)
    ensures Utf8Length(s) >= |s|
    ensures (forall i :: 0 <= i < |s| ==> s[i] as int < 0x80) ==> Utf8Length(s) == |s|
  {
    if s != "" {
      LengthInBytes(s[1..]);
    }
  }

  // ----- Numbers -----

  function Digit(n: nat): char
    requires n < 10
  {
    '0' + n as char
  }

  predicate IsDigit(c: char) {
    '0' <= c <= '9'
  }

  function DigitValue(c: char): nat
    requires IsDigit(c)
  {
    (c - '0') as nat
  }

  predicate AllDigits(s: string) {
    forall i :: 0 <= i < |s| ==> IsDigit(s[i])
  }

  /** The last `width` decimal digits: the zero-padded number, if it has no more. */
  function Padded(n: nat, width: nat): (s: string)
    ensures |s| == width && AllDigits(s)
  {
    if width == 0 then "" else Padded(n / 10, width - 1) + [Digit(n % 10)]
  }

  function Decimal(n: nat): (s: string)
    ensures |s| > 0 && AllDigits(s)
  {
    if n < 10 then [Digit(n)] else Decimal(n / 10) + [Digit(n % 10)]
  }

  function Value(s: string): nat
    requires AllDigits(s)
  {
    if s == "" then 0 else 10 * Value(s[..|s| - 1]) + DigitValue(s[|s| - 1])
  }

  function Pow10(n: nat): nat {
    if n == 0 then 1 else 10 * Pow10(n - 1)
  }

  lemma PowersOfTen()
    ensures Pow10(2) == 100 && Pow10(3) == 1000 && Pow10(4) == 10000
  {
    assert Pow10(4) == 100 * Pow10(2);
  }

  /** Printing and reading back a number, zero-padded or not. */
  lemma {:induction false} ValueOfPadded(n: nat, width: nat)
    requires n < Pow10(width)
    ensures Value(Padded(n, width)) == n
  {
    if width > 0 {
      ValueOfPadded(n / 10, width - 1);
    }
  }

  lemma {:induction false} ValueOfDecimal(n: nat)
    ensures Value(Decimal(n)) == n
  {
    if n >= 10 {
      ValueOfDecimal(n / 10);
    }
  }

  lemma {:induction false} PaddedOfValue(s: string)
    requires AllDigits(s)
    ensures Padded(Value(s), |s|) == s
    ensures Value(s) < Pow10(|s|)
  {
    if s != "" {
      var init := s[..|s| - 1];
      PaddedOfValue(init);
      var d := DigitValue(s[|s| - 1]);
      assert (10 * Value(init) + d) / 10 == Value(init) && (10 * Value(init) + d) % 10 == d;
      assert s == init + [s[|s| - 1]];
    }
  }

  /** Numbers of four digits need no padding. */
  lemma DecimalIsPadded(n: nat)
    requires 1000 <= n <= 9999
    ensures Decimal(n) == Padded(n, 4)
  {
    assert Decimal(n / 1000) == [Digit(n / 1000)];
    assert Decimal(n / 100) == Decimal(n / 100 / 10) + [Digit(n / 100 % 10)];
    assert Decimal(n / 10) == Decimal(n / 10 / 10) + [Digit(n / 10 % 10)];
    assert n / 10 / 10 == n / 100 && n / 100 / 10 == n / 1000;
    assert Padded(n, 4) == Padded(n / 10, 3) + [Digit(n % 10)];
    assert Padded(n / 10, 3) == Padded(n / 100, 2) + [Digit(n / 10 % 10)];
    assert Padded(n / 100, 2) == Padded(n / 1000, 1) + [Digit(n / 100 % 10)];
    assert Padded(n / 1000, 1) == [Digit(n / 1000)];
  }

  /** Zero-padded numbers compare as strings the way they compare as numbers. */
  lemma {:induction false} PaddedOrder(a: nat, b: nat, width: nat)
    requires a < Pow10(width) && b < Pow10(width)
    ensures Less(Padded(a, width), Padded(b, width)) <==> a < b
    ensures Padded(a, width) == Padded(b, width) <==> a == b
  {
    hide Value;
    ValueOfPadded(a, width);
    ValueOfPadded(b, width);
    if width > 0 {
      PaddedOrder(a / 10, b / 10, width - 1);
      LessByFields(Padded(a / 10, width - 1), [Digit(a % 10)], Padded(b / 10, width - 1), [Digit(b % 10)]);
      assert Less([Digit(a % 10)], [Digit(b % 10)]) <==> a % 10 < b % 10;
    }
  }

  // ----- Parsing -----

  function ParseDigits(s: string): Option<nat> {
    if s != "" && AllDigits(s) then Some(Value(s)) else None
  }

  function InI32(n: int): Option<int> {
    if -I32_LIMIT <= n < I32_LIMIT then Some(n) else None
  }

  /** `str::parse::<i32>`: an optional sign, then digits, in range. */
  function ParseI32(s: string): Option<int> {
    if s != "" && s[0] == '-' then
      match ParseDigits(s[1..])
      case Some(n) => InI32(0 - n)
      case None => None
    else
      match ParseDigits(if s != "" && s[0] == '+' then s[1..] else s)
      case Some(n) => InI32(n)
      case None => None
  }

  /** `str::parse::<u32>`: an optional plus sign, then digits, in range. */
  function ParseU32(s: string): Option<nat> {
    match ParseDigits(if s != "" && s[0] == '+' then s[1..] else s)
    case Some(n) => if n < U32_LIMIT then Some(n) else None
    case None => None
  }

  /** An integer is parsed exactly if it is digits after at most one sign, in range; a `u32` has no minus. */
  lemma IntegerIsParsedIff(s: string, n: int)
    ensures ParseI32(s) == Some(n) <==>
              && -I32_LIMIT <= n < I32_LIMIT
              && exists digits :: digits != "" && AllDigits(digits)
                   && (((s == digits || s == "+" + digits) && n == Value(digits))
                       || (s == "-" + digits && n == -(Value(digits) as int)))
    ensures ParseU32(s) == Some(n) <==>
              && 0 <= n < U32_LIMIT
              && exists digits :: digits != "" && AllDigits(digits)
                   && (s == digits || s == "+" + digits) && n == Value(digits)
  {
    hide Value;
    if s != "" {
      var rest := s[1..];
      assert s == [s[0]] + rest;
      assert forall digits :: s == "+" + digits || s == "-" + digits ==> digits == rest;
      assert forall digits :: digits != "" && AllDigits(digits) && s == digits ==> IsDigit(s[0]);
    }
  }

  lemma ParseOfDigits(s: string)
    requires s != "" && AllDigits(s) && |s| <= 9
    ensures ParseI32(s) == Some(Value(s)) && ParseU32(s) == Some(Value(s))
  {
    PaddedOfValue(s);
    Pow10Grows(|s|, 9);
    assert Pow10(9) == 1000 * (1000 * (1000 * Pow10(0))) by {
      assert Pow10(6) == 1000 * Pow10(3) && Pow10(9) == 1000 * Pow10(6);
    }
    assert s[0] != '-' && s[0] != '+';
  }

  lemma {:induction false} Pow10Grows(a: nat, b: nat)
    requires a <= b
    ensures Pow10(a) <= Pow10(b)
    decreases b - a
  {
    if a < b {
      Pow10Grows(a, b - 1);
    }
  }

  // ----- Splitting -----

  /** `str::split` by a nonempty pattern. */
  function Split(s: string, pat: string): (parts: seq<string>)
    requires pat != ""
    ensures |parts| > 0
    decreases |s|
  {
    if s == "" then [""]
    else if pat <= s then [""] + Split(s[|pat|..], pat)
    else
      var rest := Split(s[1..], pat);
      [[s[0]] + rest[0]] + rest[1..]
  }

  /** `str::contains` of a pattern. */
  predicate Contains(s: string, pat: string) {
    pat <= s || (s != "" && Contains(s[1..], pat))
  }

  lemma {:induction false} SplitWithoutPattern(s: string, pat: string)
    requires pat != "" && pat[0] !in s
    ensures Split(s, pat) == [s]
  {
    if s != "" {
      assert s[0] in s;
      SplitWithoutPattern(s[1..], pat);
      assert s == [s[0]] + s[1..];
    }
  }

  lemma SplitAtFront(pat: string, t: string)
    requires pat != ""
    ensures Split(pat + t, pat) == [""] + Split(t, pat)
  {
    assert pat <= pat + t && (pat + t)[|pat|..] == t;
  }

  lemma SplitLater(s: string, pat: string)
    requires pat != "" && s != "" && s[0] != pat[0]
    ensures var rest := Split(s[1..], pat); Split(s, pat) == [[s[0]] + rest[0]] + rest[1..]
  {
  }

  lemma {:induction false} SplitAtPattern(s: string, pat: string, t: string)
    requires pat != "" && pat[0] !in s
    ensures Split(s + pat + t, pat) == [s] + Split(t, pat)
  {
    hide Split;
    if s == "" {
      assert s + pat + t == pat + t;
      SplitAtFront(pat, t);
    } else {
      assert s[0] in s;
      assert (s + pat + t)[1..] == s[1..] + pat + t;
      SplitLater(s + pat + t, pat);
      SplitAtPattern(s[1..], pat, t);
      assert s == [s[0]] + s[1..];
      assert ([s[1..]] + Split(t, pat))[1..] == Split(t, pat);
    }
  }

  lemma {:induction false} ContainsPattern(s: string, pat: string, t: string)
    ensures Contains(s + pat + t, pat)
  {
    if s == "" {
      assert s + pat + t == pat + t;
    } else {
      assert (s + pat + t)[1..] == s[1..] + pat + t;
      ContainsPattern(s[1..], pat, t);
    }
  }

  lemma {:induction false} ContainedCharacter(s: string, pat: string, c: char)
    requires Contains(s, pat) && c in pat
    ensures c in s
  {
    if pat <= s {
      assert s == pat + s[|pat|..];
    } else {
      ContainedCharacter(s[1..], pat, c);
      assert s == [s[0]] + s[1..];
    }
  }
}
