/**
 * Local calendar dates as the visit query sees them: the proleptic Gregorian calendar
 * of JavaScript's `Date`, the normalisation its `new Date(year, monthIndex, day)`
 * constructor applies to out-of-range months and days, and the `YYYY-MM-DD` text
 * `formatLocalDate` produces (src/redux/slices/actions/getVisits.ts).
 */
module Calendar {

  import opened Wrappers
  import opened Text

  /** A calendar date; `month` is 1..12 (what `getMonth() + 1` yields). */
  datatype Date = Date(year: int, month: int, day: int)

  predicate IsLeapYear(y: int) {
    (y % 4 == 0 && y % 100 != 0) || y % 400 == 0
  }

  function DaysInMonth(y: int, m: int): (n: int)
    requires 1 <= m <= 12
    ensures 28 <= n <= 31
  {
    if m == 2 then (if IsLeapYear(y) then 29 else 28)
    else if m == 4 || m == 6 || m == 9 || m == 11 then 30
    else 31
  }

  predicate ValidDate(d: Date) {
    1 <= d.month <= 12 && 1 <= d.day <= DaysInMonth(d.year, d.month)
  }

  /** A month of a year; `month` is 1..12. */
  datatype YearMonth = YearMonth(year: int, month: int)

  function PrevMonth(y: int, m: int): (ym: YearMonth)
    requires 1 <= m <= 12
    ensures 1 <= ym.month <= 12
  {
    if m == 1 then YearMonth(y - 1, 12) else YearMonth(y, m - 1)
  }

  function NextMonth(y: int, m: int): (ym: YearMonth)
    requires 1 <= m <= 12
    ensures 1 <= ym.month <= 12
  {
    if m == 12 then YearMonth(y + 1, 1) else YearMonth(y, m + 1)
  }

  /**
   * Moves a day number that lies outside month (y, m) into the neighbouring months,
   * one month at a time, as the `Date` constructor does with day 0, day 32, ...
   */
  function ShiftDays(y: int, m: int, day: int): (d: Date)
    requires 1 <= m <= 12
    ensures ValidDate(d)
    decreases if day < 1 then 1 - day else 0, if day < 1 then 0 else day
  {
    if day < 1 then
      var ym := PrevMonth(y, m);
      ShiftDays(ym.year, ym.month, day + DaysInMonth(ym.year, ym.month))
    else if day > DaysInMonth(y, m) then
      var ym := NextMonth(y, m);
      ShiftDays(ym.year, ym.month, day - DaysInMonth(y, m))
    else
      Date(y, m, day)
  }

  /** Years 0 through 99 passed to the `Date` constructor stand for 1900 through 1999. */
  predicate IsTwoDigitYear(year: int) {
    0 <= year <= 99
  }

  /** The year the constructor actually uses for a year argument. */
  function FullYear(year: int): (y: int)
    ensures IsTwoDigitYear(year) ==> 1900 <= y <= 1999 && y % 100 == year
    ensures !IsTwoDigitYear(year) ==> y == year
    ensures !IsTwoDigitYear(y)
  {
    if IsTwoDigitYear(year) then 1900 + year else year
  }

  /**
   * `new Date(year, monthIndex, day)` read back through getFullYear / getMonth()+1 /
   * getDate: a year 0..99 is read as 1900..1999, month indexes outside 0..11 then carry
   * into the year, and the day carries into neighbouring months.
   */
  function MakeLocalDate(year: int, monthIndex: int, day: int): (d: Date)
    ensures ValidDate(d)
  {
    ShiftDays(FullYear(year) + monthIndex / 12, monthIndex % 12 + 1, day)
  }

  /**
   * A date that is in range once its year is read as the constructor reads it is
   * left alone; for years outside 0..99 that is the date itself.
   */
  lemma MakeValidDate(d: Date)
    requires ValidDate(Date(FullYear(d.year), d.month, d.day))
    ensures MakeLocalDate(d.year, d.month - 1, d.day) == Date(FullYear(d.year), d.month, d.day)
    ensures ValidDate(d) && !IsTwoDigitYear(d.year) ==> MakeLocalDate(d.year, d.month - 1, d.day) == d
  {
  }

  /**
   * Day 0 of the following month is the last day of the month, in the same year
   * as the constructor reads it.
   */
  lemma {:induction false} DayZeroIsLastDay(y: int, m: int)
    requires 1 <= m <= 12
    ensures MakeLocalDate(y, m, 0) == Date(FullYear(y), m, DaysInMonth(FullYear(y), m))
  {
    var fy := FullYear(y);
    if m == 12 {
      assert m / 12 == 1 && m % 12 == 0;
      assert ShiftDays(fy + 1, 1, 0) == ShiftDays(fy, 12, 31);
    } else {
      assert m / 12 == 0 && m % 12 == m;
      assert ShiftDays(fy, m + 1, 0) == ShiftDays(fy, m, DaysInMonth(fy, m));
    }
  }

  /** A month or day number as two characters: tens digit, then units digit. */
  function TwoDigits(n: nat): (t: string)
    requires n < 100
    ensures |t| == 2 && AllDigits(t)
  {
    [DigitChar(n / 10), DigitChar(n % 10)]
  }

  /** The two characters are what `String(n).padStart(2, "0")` produces. */
  lemma TwoDigitsIsPadStart(n: nat)
    requires n < 100
    ensures TwoDigits(n) == PadStart(NatToString(n), 2, '0')
  {
    PadTwoDigits(n);
  }

  /** `formatLocalDate`: `${year}-${month}-${day}` with month and day padded to two digits. */
  function FormatLocalDate(d: Date): string
    requires ValidDate(d)
  {
    IntToString(d.year) + "-" + TwoDigits(d.month) + "-" + TwoDigits(d.day)
  }

  /** Reads `Y-MM-DD` text back into a date; anything else gives None. */
  function ParseLocalDate(s: string): Option<Date>
  {
    if |s| < 7 then None
    else
      var yearText := s[..|s| - 6];
      var monthText := s[|s| - 5..|s| - 3];
      var dayText := s[|s| - 2..];
      if s[|s| - 6] == '-' && s[|s| - 3] == '-' && IsIntText(yearText)
         && AllDigits(monthText) && AllDigits(dayText)
      then
        var d := Date(ParseInt(yearText), ParseNat(monthText), ParseNat(dayText));
        if ValidDate(d) then Some(d) else None
      else None
  }

  lemma ParseTwoDigits(n: nat)
    requires n < 100
    ensures AllDigits(TwoDigits(n))
    ensures ParseNat(TwoDigits(n)) == n
  {
    var t := TwoDigits(n);
    assert t[..1] == [t[0]];
    assert [t[0]][..0] == [];
    assert DigitValue(t[0]) == n / 10;
    assert DigitValue(t[1]) == n % 10;
    assert ParseNat(t[..1]) == n / 10;
  }

  /** Where the pieces of `Y-MM-DD` text sit, counted from its end. */
  lemma DateTextLayout(y: string, mm: string, dd: string)
    requires |mm| == 2 && |dd| == 2
    ensures var s := y + "-" + mm + "-" + dd;
      && |s| == |y| + 6
      && s[..|s| - 6] == y
      && s[|s| - 6] == '-'
      && s[|s| - 5..|s| - 3] == mm
      && s[|s| - 3] == '-'
      && s[|s| - 2..] == dd
  {
  }

  /** The formatted text determines the date: parsing it gives the date back. */
  lemma FormatParseRoundTrip(d: Date)
    requires ValidDate(d)
    ensures ParseLocalDate(FormatLocalDate(d)) == Some(d)
  {
    ParseTwoDigits(d.month);
    ParseTwoDigits(d.day);
    ParseIntToString(d.year);
    DateTextLayout(IntToString(d.year), TwoDigits(d.month), TwoDigits(d.day));
  }

  /** Formatting keeps the calendar order of two days of the same month. */
  lemma FormatMonotoneInMonth(y: int, m: int, a: int, b: int)
    requires ValidDate(Date(y, m, a)) && ValidDate(Date(y, m, b))
    requires a <= b
    ensures LexLe(FormatLocalDate(Date(y, m, a)), FormatLocalDate(Date(y, m, b)))
  {
    var p := IntToString(y) + "-" + TwoDigits(m) + "-";
    assert FormatLocalDate(Date(y, m, a)) == p + TwoDigits(a);
    assert FormatLocalDate(Date(y, m, b)) == p + TwoDigits(b);
    LexLeCommonPrefix(p, TwoDigits(a), TwoDigits(b));
    TwoDigitOrder(a, b);
  }

  lemma TwoDigitOrder(a: nat, b: nat)
    requires a <= b < 100
    ensures LexLe(TwoDigits(a), TwoDigits(b))
  {
    var ta := TwoDigits(a);
    var tb := TwoDigits(b);
    assert ta[1..] == [DigitChar(a % 10)];
    assert tb[1..] == [DigitChar(b % 10)];
  }
}
