/**
 * Calendar arithmetic behind the promotion rules: dates as (year, month, day)
 * triples with JavaScript's zero-based months, `Date.setMonth` month shifting,
 * whole-month differences, strict `YYYY-MM-DD` parsing, and the quarter
 * calendar used for below-the-zone board timing.
 */
module Calendar {
  import opened Maybe

  /** A calendar date without time of day; `month` counts from 0 (January) to 11. */
  datatype Date = Date(year: int, month: int, day: int)

  predicate IsLeapYear(year: int) {
    (year % 4 == 0 && year % 100 != 0) || year % 400 == 0
  }

  function DaysInMonth(year: int, month: int): (n: int)
    ensures 28 <= n <= 31
    ensures month == 1 ==> (n == 29 <==> IsLeapYear(year))
  {
    if month == 1 then (if IsLeapYear(year) then 29 else 28)
    else if month == 3 || month == 5 || month == 8 || month == 10 then 30
    else 31
  }

  predicate ValidDate(d: Date) {
    0 <= d.month < 12 && 1 <= d.day <= DaysInMonth(d.year, d.month)
  }

  /** The number of months from January of year 0 to the month of `d`. */
  function MonthIndex(d: Date): int {
    d.year * 12 + d.month
  }

  /** Chronological order on dates: the comparison of two midnight timestamps. */
  predicate Before(a: Date, b: Date) {
    a.year < b.year
    || (a.year == b.year && (a.month < b.month || (a.month == b.month && a.day < b.day)))
  }

  /** `a >= b` on two midnight timestamps. */
  predicate OnOrAfter(a: Date, b: Date) {
    !Before(a, b)
  }

  /** The earlier of two dates; the second one when they are equal. */
  function Earlier(a: Date, b: Date): (r: Date)
    ensures r == a || r == b
    ensures !Before(a, r) && !Before(b, r)
  {
    if Before(a, b) then a else b
  }

  /**
   * `d.setMonth(d.getMonth() + k)`: the month moves by `k` with carry into the
   * year, the day of month is kept, and a day past the end of the target month
   * spills over into the following month (31 January plus one month is
   * 2 or 3 March).
   */
  function AddMonths(d: Date, k: int): (r: Date)
    ensures ValidDate(d) ==> ValidDate(r)
    ensures ValidDate(d) ==>
      var target := MonthIndex(d) + k;
      if d.day <= DaysInMonth(target / 12, target % 12)
      then MonthIndex(r) == target && r.day == d.day
      else MonthIndex(r) == target + 1 && r.day == d.day - DaysInMonth(target / 12, target % 12)
  {
    var target := MonthIndex(d) + k;
    var year, month := target / 12, target % 12;
    var length := DaysInMonth(year, month);
    if d.day <= length then Date(year, month, d.day)
    else if month == 11 then Date(year + 1, 0, d.day - length)
    else Date(year, month + 1, d.day - length)
  }

  /**
   * Whole calendar months from `d1` to `d2`, ignoring the day of month;
   * 0 when either date is absent.
   */
  function MonthsDifference(d1: Option<Date>, d2: Option<Date>): (r: int)
    ensures d1.None? || d2.None? ==> r == 0
  {
    if d1.None? || d2.None? then 0
    else (d2.value.year - d1.value.year) * 12 + (d2.value.month - d1.value.month)
  }

  lemma MonthsDifferenceIsIndexDistance(d1: Date, d2: Date)
    ensures MonthsDifference(Some(d1), Some(d2)) == MonthIndex(d2) - MonthIndex(d1)
  {}

  lemma MonthsDifferenceAntisymmetric(d1: Option<Date>, d2: Option<Date>)
    ensures MonthsDifference(d1, d2) == -MonthsDifference(d2, d1)
  {}

  lemma MonthsDifferenceIgnoresDay(d1: Date, d2: Date, day1: int, day2: int)
    ensures MonthsDifference(Some(d1), Some(d2))
         == MonthsDifference(Some(d1.(day := day1)), Some(d2.(day := day2)))
  {}

  /**
   * Shifting by `k` months moves the whole-month difference by `k`, or by
   * `k + 1` exactly when the day of month overflows the target month.
   */
  lemma AddMonthsDifference(d: Date, k: int)
    requires ValidDate(d)
    ensures var target := MonthIndex(d) + k;
      MonthsDifference(Some(d), Some(AddMonths(d, k)))
        == if d.day <= DaysInMonth(target / 12, target % 12) then k else k + 1
  {}

  /**
   * Reaching the date `k` months after `d` means at least `k` whole months
   * have passed by `MonthsDifference`.
   */
  lemma {:induction false} ReachedAddMonths(d: Date, k: int, today: Date)
    requires ValidDate(d) && ValidDate(today)
    requires OnOrAfter(today, AddMonths(d, k))
    ensures MonthsDifference(Some(d), Some(today)) >= k
  {
    var r := AddMonths(d, k);
    assert MonthIndex(r) >= MonthIndex(d) + k;
    assert MonthIndex(today) >= MonthIndex(r) by {
      if today.year > r.year {
        assert today.year * 12 >= r.year * 12 + 12;
      }
    }
  }

  // ---- Strict `^\d{4}-\d{2}-\d{2}$` dates ----

  predicate IsDigit(c: char) {
    '0' <= c <= '9'
  }

  function DigitValue(c: char): (v: int)
    requires IsDigit(c)
    ensures 0 <= v <= 9
  {
    c as int - '0' as int
  }

  /** The test `/^\d{4}-\d{2}-\d{2}$/`: four, two and two ASCII digits joined by dashes. */
  predicate MatchesIsoDateShape(s: string) {
    |s| == 10 && s[4] == '-' && s[7] == '-'
    && forall i :: 0 <= i < 10 && i != 4 && i != 7 ==> IsDigit(s[i])
  }

  /**
   * Reads a `YYYY-MM-DD` string as a calendar date. Strings of another shape,
   * and months or days outside the calendar, are not dates.
   */
  function ParseIsoDate(s: string): (r: Option<Date>)
    ensures r.Some? ==> MatchesIsoDateShape(s) && ValidDate(r.value) && 0 <= r.value.year <= 9999
    ensures !MatchesIsoDateShape(s) ==> r.None?
  {
    if !MatchesIsoDateShape(s) then None
    else
      var year := DigitValue(s[0]) * 1000 + DigitValue(s[1]) * 100 + DigitValue(s[2]) * 10 + DigitValue(s[3]);
      var month := DigitValue(s[5]) * 10 + DigitValue(s[6]);
      var day := DigitValue(s[8]) * 10 + DigitValue(s[9]);
      if 1 <= month <= 12 && 1 <= day <= DaysInMonth(year, month - 1)
      then Some(Date(year, month - 1, day))
      else None
  }

  function DigitChar(v: int): (c: char)
    requires 0 <= v <= 9
    ensures IsDigit(c) && DigitValue(c) == v
  {
    ('0' as int + v) as char
  }

  /** `date.toISOString().slice(0, 10)` for a date whose year has four digits. */
  function FormatIsoDate(d: Date): (s: string)
    requires ValidDate(d) && 0 <= d.year <= 9999
    ensures MatchesIsoDateShape(s)
  {
    [DigitChar(d.year / 1000), DigitChar(d.year / 100 % 10), DigitChar(d.year / 10 % 10), DigitChar(d.year % 10),
     '-', DigitChar((d.month + 1) / 10), DigitChar((d.month + 1) % 10),
     '-', DigitChar(d.day / 10), DigitChar(d.day % 10)]
  }

  lemma FourDigits(y: int)
    requires 0 <= y <= 9999
    ensures y / 1000 * 1000 + y / 100 % 10 * 100 + y / 10 % 10 * 10 + y % 10 == y
  {
    assert y == y / 10 * 10 + y % 10;
    assert y / 10 == y / 100 * 10 + y / 10 % 10;
    assert y / 100 == y / 1000 * 10 + y / 100 % 10;
  }

  /** Writing a date out and reading it back gives the same date. */
  lemma ParseFormatRoundTrip(d: Date)
    requires ValidDate(d) && 0 <= d.year <= 9999
    ensures ParseIsoDate(FormatIsoDate(d)) == Some(d)
  {
    var s := FormatIsoDate(d);
    FourDigits(d.year);
    assert DigitValue(s[0]) * 1000 + DigitValue(s[1]) * 100 + DigitValue(s[2]) * 10 + DigitValue(s[3]) == d.year;
    assert DigitValue(s[5]) * 10 + DigitValue(s[6]) == d.month + 1;
    assert DigitValue(s[8]) * 10 + DigitValue(s[9]) == d.day;
  }

  // ---- Quarters ----

  /** A calendar quarter; `quarter` is 1 to 4 for quarters built from dates. */
  datatype Quarter = Quarter(year: int, quarter: int)

  predicate ValidQuarter(q: Quarter) {
    1 <= q.quarter <= 4
  }

  /** The total order on quarters used for comparisons: `year * 4 + quarter`. */
  function Ordinal(q: Quarter): int {
    q.year * 4 + q.quarter
  }

  /** Months 0-2, 3-5, 6-8 and 9-11 fall in quarters 1, 2, 3 and 4 of the same year. */
  function QuarterOf(d: Date): (q: Quarter)
    ensures ValidQuarter(q) && q.year == d.year
    ensures 0 <= d.month < 12 ==> q.quarter == d.month / 3 + 1
  {
    if d.month < 3 then Quarter(d.year, 1)
    else if d.month < 6 then Quarter(d.year, 2)
    else if d.month < 9 then Quarter(d.year, 3)
    else Quarter(d.year, 4)
  }

  function PreviousQuarter(q: Quarter): (r: Quarter)
    ensures Ordinal(r) == Ordinal(q) - 1
    ensures ValidQuarter(q) ==> ValidQuarter(r)
  {
    if q.quarter == 1 then Quarter(q.year - 1, 4) else Quarter(q.year, q.quarter - 1)
  }

  function NextQuarter(q: Quarter): (r: Quarter)
    ensures Ordinal(r) == Ordinal(q) + 1
    ensures ValidQuarter(q) ==> ValidQuarter(r)
  {
    if q.quarter == 4 then Quarter(q.year + 1, 1) else Quarter(q.year, q.quarter + 1)
  }

  lemma PreviousNextInverse(q: Quarter)
    requires ValidQuarter(q)
    ensures PreviousQuarter(NextQuarter(q)) == q
    ensures NextQuarter(PreviousQuarter(q)) == q
  {}

  /** On quarters numbered 1 to 4 the ordinal determines the quarter. */
  lemma OrdinalInjective(a: Quarter, b: Quarter)
    requires ValidQuarter(a) && ValidQuarter(b)
    ensures Ordinal(a) == Ordinal(b) <==> a == b
  {}
}
