/** Gregorian calendar dates at day granularity: the validity rules that
    `datetime.strptime(s, '%m/%d/%Y')` applies, the text that
    `strftime('%m/%d/%Y')` produces, and the day ordinal (day 1 is
    01/01/0001, as Python's `date.toordinal`) on which `timedelta(days=i)`
    arithmetic becomes integer addition. */
module Calendar {

  datatype Option<T> = None | Some(value: T)

  datatype Date = Date(month: int, day: int, year: int)

  /** The smallest and largest year a Python `date` can hold. */
  const MinYear := 1
  const MaxYear := 9999

  predicate IsLeapYear(y: int) {
    y % 4 == 0 && (y % 100 != 0 || y % 400 == 0)
  }

  function DaysInMonth(m: int, y: int): int
    requires 1 <= m <= 12
  {
    if m == 2 then (if IsLeapYear(y) then 29 else 28)
    else if m == 4 || m == 6 || m == 9 || m == 11 then 30
    else 31
  }

  function DaysInYear(y: int): int {
    if IsLeapYear(y) then 366 else 365
  }

  /** A date that Python's `date` constructor accepts. */
  predicate IsValidDate(d: Date) {
    MinYear <= d.year <= MaxYear && 1 <= d.month <= 12 &&
    1 <= d.day <= DaysInMonth(d.month, d.year)
  }

  /** Days in the years before year `y` (year 1 starts at 0). */
  function DaysBeforeYear(y: int): int
    requires y >= 1
  {
    var p := y - 1;
    p * 365 + p / 4 - p / 100 + p / 400
  }

  /** Days in the months of year `y` before month `m`. */
  function DaysBeforeMonth(m: int, y: int): int
    requires 1 <= m <= 12
  {
    [0, 31, 59, 90, 120, 151, 181, 212, 243, 273, 304, 334][m - 1]
      + (if m > 2 && IsLeapYear(y) then 1 else 0)
  }

  /** The day ordinal of a date; consecutive calendar days get consecutive
      ordinals (NextDayOrdinal) and distinct dates distinct ordinals
      (ToOrdinalInjective). */
  function ToOrdinal(d: Date): int
    requires d.year >= 1 && 1 <= d.month <= 12
  {
    DaysBeforeYear(d.year) + DaysBeforeMonth(d.month, d.year) + d.day
  }

  /** The calendar day after `d`. */
  function NextDay(d: Date): (r: Date)
    requires IsValidDate(d)
    ensures d.year < MaxYear || d.month < 12 || d.day < 31 ==> IsValidDate(r)
    ensures r.year == d.year || (r.year == d.year + 1 && r.month == 1 && r.day == 1)
  {
    if d.day < DaysInMonth(d.month, d.year) then Date(d.month, d.day + 1, d.year)
    else if d.month < 12 then Date(d.month + 1, 1, d.year)
    else Date(1, 1, d.year + 1)
  }

  lemma MulAtLeast(k: int, d: int)
    requires k >= 1 && d >= 1
    ensures k * d >= k
  {
    assert k * d == k * (d - 1) + k;
  }

  lemma MulAtMost(k: int, d: int)
    requires k >= 1 && d <= -1
    ensures k * d <= -k
  {
    assert k * d == k * (d + 1) - k;
  }

  /** Euclidean division is determined by quotient and remainder. */
  lemma DivUnique(n: int, k: int, q: int, r: int)
    requires k >= 1 && 0 <= r < k && n == k * q + r
    ensures n / k == q && n % k == r
  {
    var d := n / k - q;
    assert k * (n / k) == k * q + k * d;
    if d >= 1 { MulAtLeast(k, d); }
    if d <= -1 { MulAtMost(k, d); }
  }

  lemma DivStep(n: int, k: int)
    requires n >= 1 && k >= 1
    ensures n / k - (n - 1) / k == if n % k == 0 then 1 else 0
  {
    var q, r := (n - 1) / k, (n - 1) % k;
    if r == k - 1 {
      DivUnique(n, k, q + 1, 0);
    } else {
      DivUnique(n, k, q, r + 1);
    }
  }

  lemma DivisibleBy400(y: int)
    requires y % 400 == 0
    ensures y % 100 == 0 && y % 4 == 0
  {
    var q := y / 400;
    assert y == 100 * (4 * q);
    assert y == 4 * (100 * q);
  }

  lemma DivisibleBy100(y: int)
    requires y % 100 == 0
    ensures y % 4 == 0
  {
    var q := y / 100;
    assert y == 4 * (25 * q);
  }

  /** A year contributes its own length to the days before the next one. */
  lemma {:induction false} DaysBeforeYearStep(y: int)
    requires y >= 1
    ensures DaysBeforeYear(y + 1) == DaysBeforeYear(y) + DaysInYear(y)
  {
    DivStep(y, 4);
    DivStep(y, 100);
    DivStep(y, 400);
    if y % 400 == 0 { DivisibleBy400(y); }
    if y % 100 == 0 { DivisibleBy100(y); }
  }

  lemma DaysBeforeMonthStep(m: int, y: int)
    requires 1 <= m < 12
    ensures DaysBeforeMonth(m + 1, y) == DaysBeforeMonth(m, y) + DaysInMonth(m, y)
  {
  }

  /** Moving to the next calendar day adds exactly one to the ordinal, across
      month ends, year ends and leap days: this is what
      `date + timedelta(days=1)` computes. */
  lemma NextDayOrdinal(d: Date)
    requires IsValidDate(d)
    ensures ToOrdinal(NextDay(d)) == ToOrdinal(d) + 1
  {
    if d.day < DaysInMonth(d.month, d.year) {
    } else if d.month < 12 {
      DaysBeforeMonthStep(d.month, d.year);
    } else {
      DaysBeforeYearStep(d.year);
    }
  }

  lemma {:induction false} DaysBeforeMonthMonotone(m: int, m': int, y: int)
    requires 1 <= m < m' <= 12
    ensures DaysBeforeMonth(m, y) + DaysInMonth(m, y) <= DaysBeforeMonth(m', y)
    decreases m' - m
  {
    DaysBeforeMonthStep(m, y);
    if m + 1 < m' {
      DaysBeforeMonthMonotone(m + 1, m', y);
    }
  }

  lemma {:induction false} DaysBeforeYearMonotone(y: int, y': int)
    requires 1 <= y < y'
    ensures DaysBeforeYear(y) + DaysInYear(y) <= DaysBeforeYear(y')
    decreases y' - y
  {
    DaysBeforeYearStep(y);
    if y + 1 < y' {
      DaysBeforeYearMonotone(y + 1, y');
    }
  }

  /** Lexicographic order on (year, month, day). */
  predicate Before(d: Date, e: Date) {
    d.year < e.year ||
    (d.year == e.year && (d.month < e.month || (d.month == e.month && d.day < e.day)))
  }

  lemma OrdinalWithinYear(d: Date)
    requires IsValidDate(d)
    ensures DaysBeforeYear(d.year) < ToOrdinal(d) <= DaysBeforeYear(d.year) + DaysInYear(d.year)
  {
    if d.month < 12 {
      DaysBeforeMonthMonotone(d.month, 12, d.year);
    }
  }

  /** Ordinals follow calendar order. */
  lemma ToOrdinalMonotone(d: Date, e: Date)
    requires IsValidDate(d) && IsValidDate(e) && Before(d, e)
    ensures ToOrdinal(d) < ToOrdinal(e)
  {
    if d.year < e.year {
      OrdinalWithinYear(d);
      OrdinalWithinYear(e);
      DaysBeforeYearMonotone(d.year, e.year);
    } else if d.month < e.month {
      DaysBeforeMonthMonotone(d.month, e.month, d.year);
    }
  }

  /** Distinct valid dates have distinct ordinals, so comparing two dates'
      ordinals decides whether they are the same calendar day. */
  lemma ToOrdinalInjective(d: Date, e: Date)
    requires IsValidDate(d) && IsValidDate(e)
    ensures ToOrdinal(d) == ToOrdinal(e) <==> d == e
  {
    if Before(d, e) {
      ToOrdinalMonotone(d, e);
    } else if Before(e, d) {
      ToOrdinalMonotone(e, d);
    }
  }

  // ---- The text form MM/DD/YYYY ----

  predicate IsDigit(c: char) {
    '0' <= c <= '9'
  }

  predicate AllDigits(s: string) {
    forall i :: 0 <= i < |s| ==> IsDigit(s[i])
  }

  function DigitValue(c: char): int
    requires IsDigit(c)
  {
    c as int - '0' as int
  }

  /** The value of a string of decimal digits. */
  function NumberValue(s: string): (n: int)
    requires AllDigits(s)
    ensures n >= 0
    ensures |s| <= 4 ==> n < [1, 10, 100, 1000, 10000][|s|]
  {
    if s == [] then 0 else NumberValue(s[..|s| - 1]) * 10 + DigitValue(s[|s| - 1])
  }

  /** `%m`: `1[0-2]|0[1-9]|[1-9]`, that is one or two digits worth 1 to 12. */
  function MonthField(t: string): Option<int> {
    if 1 <= |t| <= 2 && AllDigits(t) && 1 <= NumberValue(t) <= 12
    then Some(NumberValue(t)) else None
  }

  /** `%d`: `3[01]|[12]\d|0[1-9]|[1-9]| [1-9]`, that is one or two digits
      worth 1 to 31, or a space followed by a non-zero digit. */
  function DayField(t: string): Option<int> {
    if |t| == 2 && t[0] == ' ' && '1' <= t[1] <= '9' then Some(DigitValue(t[1]))
    else if 1 <= |t| <= 2 && AllDigits(t) && 1 <= NumberValue(t) <= 31
    then Some(NumberValue(t)) else None
  }

  /** `%Y`: exactly four digits. */
  function YearField(t: string): Option<int> {
    if |t| == 4 && AllDigits(t) then Some(NumberValue(t)) else None
  }

  /** Splits off a field of one or two characters ended by '/'. None of the
      three field patterns admits a '/', so the field is everything before
      the next slash. */
  function SplitField(s: string): Option<(string, string)> {
    if |s| >= 2 && s[1] == '/' then Some((s[..1], s[2..]))
    else if |s| >= 3 && s[2] == '/' then Some((s[..2], s[3..]))
    else None
  }

  /** `datetime.strptime(s, '%m/%d/%Y')`: the whole text must match the
      pattern, and the date must exist (year 0, 02/30 or 02/29 of a common
      year raise ValueError). */
  function ParseDate(s: string): (r: Option<Date>)
    ensures r.Some? ==> IsValidDate(r.value)
  {
    match SplitField(s)
    case None => None
    case Some((mt, rest)) =>
      match SplitField(rest)
      case None => None
      case Some((dt, yt)) =>
        match (MonthField(mt), DayField(dt), YearField(yt))
        case (Some(m), Some(d), Some(y)) =>
          if MinYear <= y && d <= DaysInMonth(m, y) then Some(Date(m, d, y)) else None
        case _ => None
  }

  function Digit(n: int): (c: char)
    requires 0 <= n <= 9
    ensures IsDigit(c) && DigitValue(c) == n
  {
    ('0' as int + n) as char
  }

  function Pad2(n: int): string
    requires 0 <= n <= 99
  {
    [Digit(n / 10), Digit(n % 10)]
  }

  function Pad4(n: int): string
    requires 0 <= n <= 9999
  {
    [Digit(n / 1000), Digit(n / 100 % 10), Digit(n / 10 % 10), Digit(n % 10)]
  }

  /** `strftime('%m/%d/%Y')`: zero-padded month, day and four-digit year. */
  function Format(d: Date): string
    requires IsValidDate(d)
  {
    Pad2(d.month) + "/" + Pad2(d.day) + "/" + Pad4(d.year)
  }

  lemma Pad2Value(n: int)
    requires 0 <= n <= 99
    ensures AllDigits(Pad2(n)) && NumberValue(Pad2(n)) == n
  {
    var s := Pad2(n);
    assert s[..1] == [Digit(n / 10)];
    assert [Digit(n / 10)][..0] == [];
  }

  lemma Pad4Value(n: int)
    requires 0 <= n <= 9999
    ensures AllDigits(Pad4(n)) && NumberValue(Pad4(n)) == n
  {
    var s := Pad4(n);
    var q1, e := n / 10, n % 10;
    var q2, c := q1 / 10, q1 % 10;
    var a, b := q2 / 10, q2 % 10;
    DivUnique(n, 100, q2, 10 * c + e);
    DivUnique(n, 1000, a, 100 * b + 10 * c + e);
    assert s == [Digit(a), Digit(b), Digit(c), Digit(e)];
    assert s[..3][..2][..1] == [Digit(a)];
    assert [Digit(a)][..0] == [];
    assert NumberValue(s[..3][..2]) == a * 10 + b;
    assert NumberValue(s[..3]) == (a * 10 + b) * 10 + c;
  }

  /** Reading back what Format writes gives the same date, so Format is
      one-to-one: two dates print alike exactly when they are equal. */
  lemma ParseFormat(d: Date)
    requires IsValidDate(d)
    ensures ParseDate(Format(d)) == Some(d)
  {
    var s := Format(d);
    Pad2Value(d.month);
    Pad2Value(d.day);
    Pad4Value(d.year);
    assert s[1] != '/' && s[2] == '/' && s[..2] == Pad2(d.month);
    var rest := s[3..];
    assert rest == Pad2(d.day) + "/" + Pad4(d.year);
    assert rest[1] != '/' && rest[2] == '/' && rest[..2] == Pad2(d.day) && rest[3..] == Pad4(d.year);
    assert Pad2(d.day)[0] != ' ';
  }

  lemma FormatInjective(d: Date, e: Date)
    requires IsValidDate(d) && IsValidDate(e)
    ensures Format(d) == Format(e) <==> d == e
  {
    ParseFormat(d);
    ParseFormat(e);
  }
}
