/**
 * The proleptic Gregorian calendar of Python's `datetime.date`: day numbers
 * (`toordinal`, `fromordinal`), weekdays, `strptime(s, "%Y-%m-%d")` and the
 * `strftime` directives the two scripts print (`%Y %m %d %b %a`, C locale).
 */
module Calendar {
  import opened Wrappers

  datatype Date = Date(year: int, month: int, day: int)

  predicate IsLeap(y: int) {
    y % 4 == 0 && (y % 100 != 0 || y % 400 == 0)
  }

  function DaysInYear(y: int): nat {
    if IsLeap(y) then 366 else 365
  }

  /** `calendar.mdays`, with February lengthened in leap years. */
  function DaysInMonth(y: int, m: int): nat
    requires 1 <= m <= 12
  {
    if m == 2 && IsLeap(y) then 29 else [31, 28, 31, 30, 31, 30, 31, 31, 30, 31, 30, 31][m - 1]
  }

  /** `datetime.MINYEAR <= year <= datetime.MAXYEAR` and a day that exists in its month. */
  predicate Valid(d: Date) {
    1 <= d.year <= 9999 && 1 <= d.month <= 12 && 1 <= d.day <= DaysInMonth(d.year, d.month)
  }

  /** Days in the years before `y`, counted from year 1. */
  function DaysBeforeYear(y: int): nat
    requires y >= 1
    decreases y
  {
    if y == 1 then 0 else DaysBeforeYear(y - 1) + DaysInYear(y - 1)
  }

  /** Days in the months of year `y` before month `m` (CPython's `_DAYS_BEFORE_MONTH` table). */
  function DaysBeforeMonth(y: int, m: int): nat
    requires 1 <= m <= 13
  {
    [0, 31, 59, 90, 120, 151, 181, 212, 243, 273, 304, 334, 365][m - 1] + (if m > 2 && IsLeap(y) then 1 else 0)
  }

  lemma MonthStep(y: int, m: int)
    requires 1 <= m <= 12
    ensures DaysBeforeMonth(y, m + 1) == DaysBeforeMonth(y, m) + DaysInMonth(y, m)
  {
  }

  lemma YearIsTwelveMonths(y: int)
    ensures DaysBeforeMonth(y, 13) == DaysInYear(y)
  {
  }

  lemma {:induction false} DaysBeforeMonthMonotone(y: int, a: int, b: int)
    requires 1 <= a <= b <= 13
    ensures DaysBeforeMonth(y, a) <= DaysBeforeMonth(y, b)
    decreases b - a
  {
    if a < b {
      MonthStep(y, b - 1);
      DaysBeforeMonthMonotone(y, a, b - 1);
    }
  }

  lemma {:induction false} DaysBeforeYearMonotone(a: int, b: int)
    requires 1 <= a <= b
    ensures DaysBeforeYear(a) <= DaysBeforeYear(b)
    decreases b - a
  {
    if a < b {
      DaysBeforeYearMonotone(a, b - 1);
    }
  }

  lemma DivStep4(z: int)
    requires z >= 1
    ensures z / 4 - (z - 1) / 4 == if z % 4 == 0 then 1 else 0
  {
  }

  lemma DivStep100(z: int)
    requires z >= 1
    ensures z / 100 - (z - 1) / 100 == if z % 100 == 0 then 1 else 0
  {
  }

  lemma DivStep400(z: int)
    requires z >= 1
    ensures z / 400 - (z - 1) / 400 == if z % 400 == 0 then 1 else 0
  {
  }

  lemma DivisibilityChain(z: int)
    ensures z % 400 == 0 ==> z % 100 == 0
    ensures z % 100 == 0 ==> z % 4 == 0
  {
  }

  lemma LeapStep(z: int)
    requires z >= 1
    ensures DaysInYear(z) == 365 + (z / 4 - (z - 1) / 4) - (z / 100 - (z - 1) / 100) + (z / 400 - (z - 1) / 400)
  {
    DivStep4(z);
    DivStep100(z);
    DivStep400(z);
    DivisibilityChain(z);
  }

  /** The closed form CPython's `_days_before_year` uses. */
  lemma {:induction false} DaysBeforeYearClosedForm(y: int)
    requires y >= 1
    ensures DaysBeforeYear(y) == 365 * (y - 1) + (y - 1) / 4 - (y - 1) / 100 + (y - 1) / 400
    decreases y
  {
    if y > 1 {
      DaysBeforeYearClosedForm(y - 1);
      LeapStep(y - 1);
    }
  }

  /** Python's `date.toordinal()`: 0001-01-01 is day 1. */
  function Ordinal(d: Date): int
    requires d.year >= 1 && 1 <= d.month <= 12
  {
    DaysBeforeYear(d.year) + DaysBeforeMonth(d.year, d.month) + d.day
  }

  /** The ordinal of 9999-12-31, the last date Python can represent. */
  const MaxOrdinal: int := 3652059

  function DateInMonth(y: int, m: int, n: int): Date
    requires y >= 1 && 1 <= m <= 12 && 1 <= n <= DaysInYear(y) - DaysBeforeMonth(y, m)
    decreases 12 - m
  {
    YearIsTwelveMonths(y);
    MonthStep(y, m);
    if n > DaysInMonth(y, m) then DateInMonth(y, m + 1, n - DaysInMonth(y, m)) else Date(y, m, n)
  }

  function DateInYear(y: int, n: int): Date
    requires y >= 1 && n >= 1
    decreases n
  {
    if n > DaysInYear(y) then DateInYear(y + 1, n - DaysInYear(y)) else DateInMonth(y, 1, n)
  }

  /** Python's `date.fromordinal(n)` (`today - timedelta(days=k)` goes through it). */
  function FromOrdinal(n: int): Date
    requires n >= 1
  {
    DateInYear(1, n)
  }

  lemma {:induction false} DateInMonthOrdinal(y: int, m: int, n: int)
    requires y >= 1 && 1 <= m <= 12 && 1 <= n <= DaysInYear(y) - DaysBeforeMonth(y, m)
    ensures var d := DateInMonth(y, m, n);
      d.year == y && m <= d.month <= 12 && 1 <= d.day <= DaysInMonth(y, d.month)
      && DaysBeforeMonth(y, d.month) + d.day == DaysBeforeMonth(y, m) + n
    decreases 12 - m
  {
    YearIsTwelveMonths(y);
    MonthStep(y, m);
    if n > DaysInMonth(y, m) {
      DateInMonthOrdinal(y, m + 1, n - DaysInMonth(y, m));
    }
  }

  lemma YearStep(y: int, n: int)
    requires y >= 1 && n > DaysInYear(y)
    ensures DateInYear(y, n) == DateInYear(y + 1, n - DaysInYear(y))
    ensures DaysBeforeYear(y + 1) == DaysBeforeYear(y) + DaysInYear(y)
  {
  }

  lemma YearStart(y: int, n: int)
    requires y >= 1 && 1 <= n <= DaysInYear(y)
    ensures DaysBeforeMonth(y, 1) == 0
    ensures DateInYear(y, n) == DateInMonth(y, 1, n)
  {
  }

  lemma {:induction false} DateInYearOrdinal(y: int, n: int)
    requires y >= 1 && n >= 1
    ensures var d := DateInYear(y, n);
      d.year >= y && 1 <= d.month <= 12 && 1 <= d.day <= DaysInMonth(d.year, d.month)
      && Ordinal(d) == DaysBeforeYear(y) + n
    decreases n
  {
    if n > DaysInYear(y) {
      DateInYearOrdinal(y + 1, n - DaysInYear(y));
      YearStep(y, n);
    } else {
      YearStart(y, n);
      DateInMonthOrdinal(y, 1, n);
    }
  }

  /** Day numbers 1 .. MaxOrdinal are exactly the representable dates: from a day number and back. */
  lemma OrdinalOfFromOrdinal(n: int)
    requires 1 <= n <= MaxOrdinal
    ensures Valid(FromOrdinal(n)) && Ordinal(FromOrdinal(n)) == n
  {
    DateInYearOrdinal(1, n);
    var d := FromOrdinal(n);
    if d.year > 9999 {
      DaysBeforeYearMonotone(10000, d.year);
      DaysBeforeYearClosedForm(10000);
    }
  }

  lemma {:induction false} DateInMonthOfOrdinal(d: Date, m: int)
    requires Valid(d) && 1 <= m <= d.month
    ensures DaysBeforeMonth(d.year, m) <= DaysBeforeMonth(d.year, d.month)
    ensures DaysBeforeMonth(d.year, d.month) - DaysBeforeMonth(d.year, m) + d.day
            <= DaysInYear(d.year) - DaysBeforeMonth(d.year, m)
    ensures DateInMonth(d.year, m, DaysBeforeMonth(d.year, d.month) - DaysBeforeMonth(d.year, m) + d.day) == d
    decreases d.month - m
  {
    YearIsTwelveMonths(d.year);
    MonthStep(d.year, d.month);
    MonthStep(d.year, m);
    DaysBeforeMonthMonotone(d.year, d.month + 1, 13);
    DaysBeforeMonthMonotone(d.year, m, d.month);
    if m < d.month {
      DaysBeforeMonthMonotone(d.year, m + 1, d.month);
      DateInMonthOfOrdinal(d, m + 1);
    }
  }

  lemma {:induction false} DateInYearOfOrdinal(d: Date, y: int)
    requires Valid(d) && 1 <= y <= d.year
    ensures DaysBeforeYear(y) < Ordinal(d)
    ensures DateInYear(y, Ordinal(d) - DaysBeforeYear(y)) == d
    decreases d.year - y
  {
    DaysBeforeYearMonotone(y, d.year);
    if y < d.year {
      DaysBeforeYearMonotone(y + 1, d.year);
      DateInYearOfOrdinal(d, y + 1);
    } else {
      DateInMonthOfOrdinal(d, 1);
    }
  }

  /** A representable date and back. */
  lemma FromOrdinalOfOrdinal(d: Date)
    requires Valid(d)
    ensures 1 <= Ordinal(d) <= MaxOrdinal && FromOrdinal(Ordinal(d)) == d
  {
    DateInYearOfOrdinal(d, 1);
    DaysBeforeYearMonotone(d.year + 1, 10000);
    DaysBeforeYearClosedForm(10000);
    MonthStep(d.year, d.month);
    DaysBeforeMonthMonotone(d.year, d.month + 1, 13);
    YearIsTwelveMonths(d.year);
  }

  /** Python's `date.weekday()`: 0 is Monday, 6 is Sunday. */
  function Weekday(d: Date): int
    requires d.year >= 1 && 1 <= d.month <= 12
  {
    (Ordinal(d) + 6) % 7
  }

  predicate IsDigit(c: char) {
    '0' <= c <= '9'
  }

  function DigitValue(c: char): int
    requires IsDigit(c)
  {
    c as int - '0' as int
  }

  function DigitChar(n: int): char
    requires 0 <= n <= 9
  {
    (n + '0' as int) as char
  }

  /** The `%m` directive, `1[0-2]|0[1-9]|[1-9]`, with the `-` that must follow it: (month, characters used). */
  function MatchMonth(t: string): Option<(int, nat)> {
    if |t| >= 3 && t[0] == '1' && '0' <= t[1] <= '2' && t[2] == '-' then Some((10 + DigitValue(t[1]), 3))
    else if |t| >= 3 && t[0] == '0' && '1' <= t[1] <= '9' && t[2] == '-' then Some((DigitValue(t[1]), 3))
    else if |t| >= 2 && '1' <= t[0] <= '9' && t[1] == '-' then Some((DigitValue(t[0]), 2))
    else None
  }

  /**
   * The `%d` directive, `3[01]|[12]\d|0[1-9]|[1-9]| [1-9]`: the first alternative that matches
   * wins, since nothing in the format follows it: (day, characters used).
   */
  function MatchDay(t: string): Option<(int, nat)> {
    if |t| >= 2 && t[0] == '3' && '0' <= t[1] <= '1' then Some((30 + DigitValue(t[1]), 2))
    else if |t| >= 2 && '1' <= t[0] <= '2' && IsDigit(t[1]) then Some((10 * DigitValue(t[0]) + DigitValue(t[1]), 2))
    else if |t| >= 2 && t[0] == '0' && '1' <= t[1] <= '9' then Some((DigitValue(t[1]), 2))
    else if |t| >= 1 && '1' <= t[0] <= '9' then Some((DigitValue(t[0]), 1))
    else if |t| >= 2 && t[0] == ' ' && '1' <= t[1] <= '9' then Some((DigitValue(t[1]), 2))
    else None
  }

  /**
   * `datetime.strptime(s, "%Y-%m-%d")`, None where it raises ValueError: no match,
   * "unconverted data remains", year 0, or a day the month does not have.
   */
  function ParseIso(s: string): (r: Option<Date>)
  {
    if |s| < 5 || !(IsDigit(s[0]) && IsDigit(s[1]) && IsDigit(s[2]) && IsDigit(s[3])) || s[4] != '-' then None
    else
      var year := 1000 * DigitValue(s[0]) + 100 * DigitValue(s[1]) + 10 * DigitValue(s[2]) + DigitValue(s[3]);
      match MatchMonth(s[5..])
      case None => None
      case Some((month, used)) =>
        match MatchDay(s[5 + used..])
        case None => None
        case Some((day, dayUsed)) =>
          if 5 + used + dayUsed != |s| then None
          else if year < 1 || day > DaysInMonth(year, month) then None
          else Some(Date(year, month, day))
  }

  /** A successful parse is a representable date. */
  lemma ParseIsoValid(s: string)
    requires ParseIso(s).Some?
    ensures Valid(ParseIso(s).value)
  {
    var d := ParseIso(s).value;
    assert 1 <= d.month <= 12;
    assert 1 <= d.day;
  }

  /** Zero-padded two-digit `%m` / `%d`. */
  function Pad2(n: int): string
    requires 0 <= n <= 99
  {
    [DigitChar(n / 10), DigitChar(n % 10)]
  }

  /** Zero-padded four-digit `%Y`. */
  function Pad4(n: int): string
    requires 0 <= n <= 9999
  {
    Pad2(n / 100) + Pad2(n % 100)
  }

  /** `strftime('%Y-%m-%d')`. */
  function IsoString(d: Date): string
    requires Valid(d)
  {
    Pad4(d.year) + "-" + Pad2(d.month) + "-" + Pad2(d.day)
  }

  lemma DigitRoundTrip(n: int)
    requires 0 <= n <= 9
    ensures IsDigit(DigitChar(n)) && DigitValue(DigitChar(n)) == n
  {
  }

  lemma Pad2Digits(n: int)
    requires 0 <= n <= 99
    ensures var p := Pad2(n);
      |p| == 2 && IsDigit(p[0]) && IsDigit(p[1]) && 10 * DigitValue(p[0]) + DigitValue(p[1]) == n
  {
    DigitRoundTrip(n / 10);
    DigitRoundTrip(n % 10);
  }

  lemma Pad4Digits(n: int)
    requires 0 <= n <= 9999
    ensures var p := Pad4(n);
      |p| == 4 && IsDigit(p[0]) && IsDigit(p[1]) && IsDigit(p[2]) && IsDigit(p[3])
      && 1000 * DigitValue(p[0]) + 100 * DigitValue(p[1]) + 10 * DigitValue(p[2]) + DigitValue(p[3]) == n
  {
    Pad2Digits(n / 100);
    Pad2Digits(n % 100);
    var p := Pad4(n);
    assert p[..2] == Pad2(n / 100) && p[2..] == Pad2(n % 100);
  }

  lemma MatchMonthPad2(m: int, rest: string)
    requires 1 <= m <= 12
    ensures MatchMonth(Pad2(m) + "-" + rest) == Some((m, 3))
  {
    var t := Pad2(m) + "-" + rest;
    DigitRoundTrip(m / 10);
    DigitRoundTrip(m % 10);
    assert t[0] == DigitChar(m / 10) && t[1] == DigitChar(m % 10) && t[2] == '-';
  }

  lemma MatchDayPad2(d: int)
    requires 1 <= d <= 31
    ensures MatchDay(Pad2(d)) == Some((d, 2))
  {
    DigitRoundTrip(d / 10);
    DigitRoundTrip(d % 10);
  }

  /** Printing a date and parsing it back gives the date: the two agree on every representable date. */
  lemma IsoRoundTrip(d: Date)
    requires Valid(d)
    ensures ParseIso(IsoString(d)) == Some(d)
  {
    var s := IsoString(d);
    Pad4Digits(d.year);
    assert s[..4] == Pad4(d.year);
    assert s[5..] == Pad2(d.month) + "-" + Pad2(d.day);
    MatchMonthPad2(d.month, Pad2(d.day));
    assert s[8..] == Pad2(d.day);
    MatchDayPad2(d.day);
  }

  lemma IsoStringInjective(d: Date, e: Date)
    requires Valid(d) && Valid(e) && IsoString(d) == IsoString(e)
    ensures d == e
  {
    IsoRoundTrip(d);
    IsoRoundTrip(e);
  }

  /** `%b` in the C locale. */
  function MonthAbbr(m: int): string
    requires 1 <= m <= 12
  {
    ["Jan", "Feb", "Mar", "Apr", "May", "Jun", "Jul", "Aug", "Sep", "Oct", "Nov", "Dec"][m - 1]
  }

  /** `%a` in the C locale, indexed by `Weekday`. */
  function WeekdayAbbr(w: int): string
    requires 0 <= w <= 6
  {
    ["Mon", "Tue", "Wed", "Thu", "Fri", "Sat", "Sun"][w]
  }
}
