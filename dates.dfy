/** Proleptic Gregorian calendar dates as Python's `datetime.date` has them, their
    `strftime('%Y-%m-%d')` text, the `strptime` fields `%Y`, `%m`, `%d`, and day ordinals. */
module Dates {
  import opened Strings

  datatype Date = Date(year: int, month: int, day: int)

  predicate IsLeap(y: int) {
    y % 4 == 0 && (y % 100 != 0 || y % 400 == 0)
  }

  function DaysInMonth(y: int, m: int): (n: int)
    requires 1 <= m <= 12
    ensures 28 <= n <= 31
    ensures n == 29 <==> m == 2 && IsLeap(y)
  {
    if m == 2 then (if IsLeap(y) then 29 else 28)
    else if m == 4 || m == 6 || m == 9 || m == 11 then 30
    else 31
  }

  /** What `datetime.date(year, month, day)` accepts (MINYEAR 1, MAXYEAR 9999). */
  predicate ValidDate(d: Date) {
    1 <= d.year <= 9999 && 1 <= d.month <= 12 && 1 <= d.day <= DaysInMonth(d.year, d.month)
  }

  /** `datetime(year, month, day)`: None where Python raises ValueError. */
  function MakeDate(year: int, month: int, day: int): (r: Option<Date>)
    ensures r.Some? <==> ValidDate(Date(year, month, day))
    ensures r.Some? ==> r.value == Date(year, month, day)
  {
    var d := Date(year, month, day);
    if ValidDate(d) then Some(d) else None
  }

  /** Two-digit zero-padded number, as `%m`, `%d`, `%H`, `%M`, `%S` print it. */
  function Pad2(n: nat): (s: string)
    requires n < 100
    ensures |s| == 2 && IsDigits(s) && DigitsToNat(s) == n
  {
    var s := [DigitChar(n / 10), DigitChar(n % 10)];
    assert s[..1] == [DigitChar(n / 10)];
    assert [DigitChar(n / 10)][..0] == [];
    assert DigitsToNat(s[..1]) == n / 10;
    assert DigitsToNat(s) == (n / 10) * 10 + n % 10;
    s
  }

  /** Four-digit zero-padded year, as `%Y` prints it. */
  function Pad4(n: nat): (s: string)
    requires n < 10000
    ensures |s| == 4 && IsDigits(s) && DigitsToNat(s) == n
  {
    var s := Pad2(n / 100) + Pad2(n % 100);
    PadConcat(Pad2(n / 100), Pad2(n % 100));
    s
  }

  lemma PadConcat(a: string, b: string)
    requires |b| == 2 && IsDigits(a) && IsDigits(b)
    ensures IsDigits(a + b) && DigitsToNat(a + b) == DigitsToNat(a) * 100 + DigitsToNat(b)
  {
    var s := a + b;
    var t := a + b[..1];
    assert s[..|s| - 1] == t;
    assert t[..|t| - 1] == a;
    assert b[..1][..0] == [];
    var x, b0, b1 := DigitsToNat(a), DigitValue(b[0]), DigitValue(b[1]);
    assert DigitsToNat(t) == x * 10 + b0;
    assert DigitsToNat(s) == (x * 10 + b0) * 10 + b1;
    assert DigitsToNat(b[..1]) == b0;
    assert DigitsToNat(b) == b0 * 10 + b1;
  }

  /** `date.strftime('%Y-%m-%d')`. */
  function FormatDate(d: Date): (s: string)
    requires ValidDate(d)
    ensures |s| == 10 && s[4] == '-' && s[7] == '-'
  {
    Pad4(d.year) + "-" + Pad2(d.month) + "-" + Pad2(d.day)
  }

  /** A `%Y` field of `strptime`: exactly four digits. */
  predicate YearField(t: string) {
    |t| == 4 && IsDigits(t)
  }

  /** A `%m` field (`1[0-2]|0[1-9]|[1-9]`): one or two digits worth 1..12. */
  predicate MonthField(t: string) {
    1 <= |t| <= 2 && IsDigits(t) && 1 <= DigitsToNat(t) <= 12
  }

  /** A `%d` field (`3[01]|[12]\d|0[1-9]|[1-9]| [1-9]`): one or two digits worth 1..31,
      or a space followed by a non-zero digit. */
  predicate DayField(t: string) {
    (1 <= |t| <= 2 && IsDigits(t) && 1 <= DigitsToNat(t) <= 31)
    || (|t| == 2 && t[0] == ' ' && '1' <= t[1] <= '9')
  }

  function FieldValue(t: string): (n: nat)
    requires IsDigits(t) || (|t| == 2 && t[0] == ' ' && IsDigit(t[1]))
  {
    if t[0] == ' ' then DigitValue(t[1]) else DigitsToNat(t)
  }

  /** `datetime.strptime(s, '%Y-%m-%d').date()`: None where Python raises ValueError. */
  function ParseIsoDate(s: string): (r: Option<Date>)
    ensures r.Some? ==> ValidDate(r.value)
  {
    var parts := SplitOn(s, '-');
    if |parts| == 3 && YearField(parts[0]) && MonthField(parts[1]) && DayField(parts[2]) then
      MakeDate(FieldValue(parts[0]), FieldValue(parts[1]), FieldValue(parts[2]))
    else None
  }

  /** Printing a date and parsing it back gives the same date. */
  lemma ParseFormatDate(d: Date)
    requires ValidDate(d)
    ensures ParseIsoDate(FormatDate(d)) == Some(d)
  {
    var y, m, dd := Pad4(d.year), Pad2(d.month), Pad2(d.day);
    assert '-' !in y by { assert forall i :: 0 <= i < |y| ==> IsDigit(y[i]); }
    assert '-' !in m by { assert forall i :: 0 <= i < |m| ==> IsDigit(m[i]); }
    assert '-' !in dd by { assert forall i :: 0 <= i < |dd| ==> IsDigit(dd[i]); }
    SplitOnThree(y, m, dd, '-');
  }

  /** Chronological order of dates (what `<` does on `date`). */
  predicate DateLess(a: Date, b: Date) {
    a.year < b.year
    || (a.year == b.year && (a.month < b.month || (a.month == b.month && a.day < b.day)))
  }

  function YearLength(y: int): int {
    if IsLeap(y) then 366 else 365
  }

  /** Days in the years before y, counted from year 1. */
  function DaysBeforeYear(y: int): nat
    requires y >= 1
  {
    if y == 1 then 0 else DaysBeforeYear(y - 1) + YearLength(y - 1)
  }

  /** Days in the months of year y before month m. */
  function DaysBeforeMonth(y: int, m: int): nat
    requires 1 <= m <= 13
  {
    if m == 1 then 0 else DaysBeforeMonth(y, m - 1) + DaysInMonth(y, m - 1)
  }

  /** `date.toordinal()`: 0001-01-01 is day 1. */
  function Ordinal(d: Date): int
    requires ValidDate(d)
  {
    DaysBeforeYear(d.year) + DaysBeforeMonth(d.year, d.month) + d.day
  }

  /** `(b - a).days`. */
  function DaysBetween(a: Date, b: Date): int
    requires ValidDate(a) && ValidDate(b)
  {
    Ordinal(b) - Ordinal(a)
  }

  lemma YearLengthMonths(y: int)
    ensures DaysBeforeMonth(y, 13) == YearLength(y)
  {
    assert DaysBeforeMonth(y, 2) == 31;
    assert DaysBeforeMonth(y, 3) == 31 + DaysInMonth(y, 2);
    assert DaysBeforeMonth(y, 4) == DaysBeforeMonth(y, 3) + 31;
    assert DaysBeforeMonth(y, 5) == DaysBeforeMonth(y, 4) + 30;
    assert DaysBeforeMonth(y, 6) == DaysBeforeMonth(y, 5) + 31;
    assert DaysBeforeMonth(y, 7) == DaysBeforeMonth(y, 6) + 30;
    assert DaysBeforeMonth(y, 8) == DaysBeforeMonth(y, 7) + 31;
    assert DaysBeforeMonth(y, 9) == DaysBeforeMonth(y, 8) + 31;
    assert DaysBeforeMonth(y, 10) == DaysBeforeMonth(y, 9) + 30;
    assert DaysBeforeMonth(y, 11) == DaysBeforeMonth(y, 10) + 31;
    assert DaysBeforeMonth(y, 12) == DaysBeforeMonth(y, 11) + 30;
  }

  lemma {:induction false} DaysBeforeMonthGrows(y: int, m1: int, m2: int)
    requires 1 <= m1 < m2 <= 13
    ensures DaysBeforeMonth(y, m1) + DaysInMonth(y, m1) <= DaysBeforeMonth(y, m2)
    decreases m2
  {
    if m1 < m2 - 1 { DaysBeforeMonthGrows(y, m1, m2 - 1); }
  }

  lemma {:induction false} DaysBeforeYearGrows(y1: int, y2: int)
    requires 1 <= y1 < y2
    ensures DaysBeforeYear(y1) + YearLength(y1) <= DaysBeforeYear(y2)
    decreases y2
  {
    if y1 < y2 - 1 { DaysBeforeYearGrows(y1, y2 - 1); }
  }

  /** A date's day of the year stays inside its year. */
  lemma DayOfYearBound(d: Date)
    requires ValidDate(d)
    ensures Ordinal(d) <= DaysBeforeYear(d.year) + YearLength(d.year)
  {
    YearLengthMonths(d.year);
    if d.month < 12 { DaysBeforeMonthGrows(d.year, d.month, 13); }
  }

  /** Ordinals follow the calendar: a is earlier than b iff its ordinal is smaller. */
  lemma OrdinalOrder(a: Date, b: Date)
    requires ValidDate(a) && ValidDate(b)
    ensures DateLess(a, b) <==> Ordinal(a) < Ordinal(b)
    ensures a == b <==> Ordinal(a) == Ordinal(b)
  {
    if DateLess(a, b) {
      OrdinalIncreasing(a, b);
    } else if DateLess(b, a) {
      OrdinalIncreasing(b, a);
    }
  }

  lemma OrdinalIncreasing(a: Date, b: Date)
    requires ValidDate(a) && ValidDate(b) && DateLess(a, b)
    ensures Ordinal(a) < Ordinal(b)
  {
    if a.year < b.year {
      DayOfYearBound(a);
      DaysBeforeYearGrows(a.year, b.year);
    } else if a.month < b.month {
      DaysBeforeMonthGrows(a.year, a.month, b.month);
    }
  }
}
