/**
 * The part of the date-fns calendar that `calcExpiry` uses: `parseISO` on a calendar date
 * `yyyy-MM-dd`, `addMonths`, `addYears` and `format(…, "yyyy-MM-dd")`. Dates are proleptic
 * Gregorian calendar days; time of day and time zones play no part in these functions.
 */
module DateFns {
  import opened Wrappers
  import opened JsBuiltins

  datatype Date = Date(year: int, month: int, day: int)

  predicate IsLeapYear(y: int) {
    y % 4 == 0 && (y % 100 != 0 || y % 400 == 0)
  }

  function DaysInMonth(y: int, m: int): (n: int)
    requires 1 <= m <= 12
    ensures 28 <= n <= 31
    ensures m == 2 ==> (n == 29 <==> IsLeapYear(y))
  {
    if m == 2 then (if IsLeapYear(y) then 29 else 28)
    else if m == 4 || m == 6 || m == 9 || m == 11 then 30
    else 31
  }

  /** A calendar day that exists. */
  predicate ValidDate(d: Date) {
    1 <= d.month <= 12 && 1 <= d.day <= DaysInMonth(d.year, d.month)
  }

  /** Months elapsed since January of year 0. */
  function MonthIndex(d: Date): int {
    d.year * 12 + (d.month - 1)
  }

  function Min(a: int, b: int): int {
    if a <= b then a else b
  }

  /**
   * `addMonths(date, n)`: the same day `n` months later, clamped to the last day of the target
   * month when that month is shorter.
   */
  function AddMonths(d: Date, n: int): (r: Date)
    requires ValidDate(d)
    ensures ValidDate(r)
    ensures MonthIndex(r) == MonthIndex(d) + n
    ensures r.day == Min(d.day, DaysInMonth(r.year, r.month))
  {
    var total := MonthIndex(d) + n;
    var y := total / 12;
    var m := total % 12 + 1;
    Date(y, m, Min(d.day, DaysInMonth(y, m)))
  }

  /** `addYears(date, n)`, which date-fns defines as `addMonths(date, 12 * n)`. */
  function AddYears(d: Date, n: int): (r: Date)
    requires ValidDate(d)
    ensures ValidDate(r)
  {
    AddMonths(d, 12 * n)
  }

  /** Adding years keeps the month, and the day unless it is 29 February of a year that becomes common. */
  lemma AddYearsKeepsDay(d: Date, n: int)
    requires ValidDate(d)
    ensures AddYears(d, n).year == d.year + n && AddYears(d, n).month == d.month
    ensures AddYears(d, n).day == (if d.month == 2 && d.day == 29 && !IsLeapYear(d.year + n) then 28 else d.day)
  {
    var r := AddYears(d, n);
    assert MonthIndex(r) == (d.year + n) * 12 + (d.month - 1);
    assert r.year == d.year + n && r.month == d.month;
  }

  /** A day that exists in every month is kept by `addMonths`. */
  lemma AddMonthsKeepsEarlyDay(d: Date, n: int)
    requires ValidDate(d) && d.day <= 28
    ensures AddMonths(d, n).day == d.day
  {
  }

  // ---------------------------------------------------------------- text

  function DigitValue(c: char): int {
    c as int - '0' as int
  }

  /** Two decimal digits, with a leading zero. */
  function Digits2(n: int): (s: string)
    requires 0 <= n < 100
    ensures |s| == 2 && IsDigit(s[0]) && IsDigit(s[1])
    ensures Value2(s) == n
  {
    [DigitChar(n / 10), DigitChar(n % 10)]
  }

  function Value2(s: string): int
    requires |s| == 2
  {
    10 * DigitValue(s[0]) + DigitValue(s[1])
  }

  /** The year as `yyyy` renders it: at least four digits; a year before 1 shows as its era year `1 - y`. */
  function YearText(y: int): (s: string)
    ensures 1 <= y < 10000 ==> |s| == 4 && (forall k :: 0 <= k < 4 ==> IsDigit(s[k])) && Value4(s) == y
  {
    var era := if y > 0 then y else 1 - y;
    if era < 10000 then
      var s := Digits2(era / 100) + Digits2(era % 100);
      assert s[..2] == Digits2(era / 100) && s[2..] == Digits2(era % 100);
      s
    else NatToString(era)
  }

  function Value4(s: string): int
    requires |s| == 4
  {
    100 * Value2(s[..2]) + Value2(s[2..])
  }

  /** `format(date, "yyyy-MM-dd")`. */
  function Format(d: Date): (s: string)
    requires ValidDate(d)
    ensures 1 <= d.year < 10000 ==> |s| == 10
  {
    YearText(d.year) + "-" + Digits2(d.month) + "-" + Digits2(d.day)
  }

  /** The text has the shape `dddd-dd-dd`. */
  predicate DateShaped(s: string) {
    |s| == 10 && s[4] == '-' && s[7] == '-'
    && IsDigit(s[0]) && IsDigit(s[1]) && IsDigit(s[2]) && IsDigit(s[3])
    && IsDigit(s[5]) && IsDigit(s[6]) && IsDigit(s[8]) && IsDigit(s[9])
  }

  /**
   * `parseISO(s)` for a calendar date `yyyy-MM-dd`: the day it names when that day exists,
   * None (an Invalid Date) otherwise.
   */
  function ParseDate(s: string): (r: Option<Date>)
    ensures r.Some? ==> ValidDate(r.value) && 0 <= r.value.year < 10000
    ensures r.Some? ==> DateShaped(s)
  {
    if !DateShaped(s) then None
    else
      var d := Date(Value4(s[..4]), Value2(s[5..7]), Value2(s[8..]));
      if ValidDate(d) then Some(d) else None
  }

  /** Formatting a day of years 1 to 9999 and parsing the text gives the day back. */
  lemma ParseFormat(d: Date)
    requires ValidDate(d) && 1 <= d.year < 10000
    ensures ParseDate(Format(d)) == Some(d)
  {
    var y, m, dd := YearText(d.year), Digits2(d.month), Digits2(d.day);
    var s := y + "-" + m + "-" + dd;
    assert s[..4] == y;
    assert s[5..7] == m;
    assert s[8..] == dd;
    assert s[4] == '-' && s[7] == '-';
  }

  /** Parsing and formatting again gives the text back: the parse keeps all of its information. */
  lemma FormatParse(s: string)
    requires ParseDate(s).Some? && ParseDate(s).value.year >= 1
    ensures Format(ParseDate(s).value) == s
  {
    var d := ParseDate(s).value;
    var y := Digits2(d.year / 100) + Digits2(d.year % 100);
    assert YearText(d.year) == y;
    Digits2Of(s[..2]);
    Digits2Of(s[2..4]);
    assert s[..4][..2] == s[..2] && s[..4][2..] == s[2..4];
    assert Digits2(d.year / 100) == s[..2] by {
      assert d.year / 100 == Value2(s[..2]);
    }
    assert Digits2(d.year % 100) == s[2..4] by {
      assert d.year % 100 == Value2(s[2..4]);
    }
    Digits2Of(s[5..7]);
    Digits2Of(s[8..]);
    assert s == s[..2] + s[2..4] + "-" + s[5..7] + "-" + s[8..];
  }

  lemma Digits2Of(t: string)
    requires |t| == 2 && IsDigit(t[0]) && IsDigit(t[1])
    ensures 0 <= Value2(t) < 100 && Digits2(Value2(t)) == t
  {
    var n := Value2(t);
    assert n / 10 == DigitValue(t[0]) && n % 10 == DigitValue(t[1]);
    assert DigitChar(n / 10) == t[0];
    assert DigitChar(n % 10) == t[1];
  }
}
