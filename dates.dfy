/**
 * Calendar dates as the engine stores them (`YYYY-MM-DD` text), the time value a
 * JavaScript `Date` gives them, and the calendar months used by the dashboard.
 *
 * `new Date('YYYY-MM-DD')` is midnight UTC of that day; its time value is
 * `MakeDay(year, month, day) * msPerDay` as defined by the Date objects chapter of
 * ECMA-262 (DayFromYear, DaysInYear, InLeapYear), which is what `TimeValue` computes.
 */
module Dates {
  import opened Wrappers

  const MsPerDay: int := 86400000

  datatype Date = Date(year: int, month: int, day: int)

  predicate IsLeapYear(y: int) {
    y % 4 == 0 && (y % 100 != 0 || y % 400 == 0)
  }

  function DaysInYear(y: int): int {
    if IsLeapYear(y) then 366 else 365
  }

  function DaysInMonth(y: int, m: int): int {
    if m == 2 then (if IsLeapYear(y) then 29 else 28)
    else if m == 4 || m == 6 || m == 9 || m == 11 then 30
    else 31
  }

  /** A date an ISO-8601 `YYYY-MM-DD` field can hold: a four-digit year and a real day. */
  predicate ValidDate(d: Date) {
    0 <= d.year <= 9999 && 1 <= d.month <= 12 && 1 <= d.day <= DaysInMonth(d.year, d.month)
  }

  /** Days from 1970-01-01 to the first day of year `y` (ECMA-262 DayFromYear). */
  function DayFromYear(y: int): int {
    365 * (y - 1970) + LeapDaysBefore(y)
  }

  /** The floor quotients of DayFromYear: leap days between 1970 and year `y`. */
  function LeapDaysBefore(y: int): int {
    (y - 1969) / 4 - (y - 1901) / 100 + (y - 1601) / 400
  }

  /** Days in year `y` before the first day of month `m`. */
  function DaysBeforeMonth(y: int, m: int): (r: int)
    requires 1 <= m <= 12
    ensures 0 <= r < DaysInYear(y)
  {
    var leap := if m > 2 && IsLeapYear(y) then 1 else 0;
    [0, 31, 59, 90, 120, 151, 181, 212, 243, 273, 304, 334][m - 1] + leap
  }

  /** Days since 1970-01-01 (negative before it). */
  function DayNumber(d: Date): int
    requires 1 <= d.month <= 12
  {
    DayFromYear(d.year) + DaysBeforeMonth(d.year, d.month) + d.day - 1
  }

  /** Milliseconds since the epoch of `new Date('YYYY-MM-DD')`: midnight UTC of the day. */
  function TimeValue(d: Date): int
    requires 1 <= d.month <= 12
  {
    DayNumber(d) * MsPerDay
  }

  /**
   * `a` comes strictly before `b` in the order of their `YYYY-MM-DD` texts: with
   * four-digit years and two-digit months and days, that text order is the
   * lexicographic order on (year, month, day).
   */
  predicate Before(a: Date, b: Date) {
    a.year < b.year || (a.year == b.year && (a.month < b.month || (a.month == b.month && a.day < b.day)))
  }

  /**
   * The descending order of `txForPerson`'s comparator on date fields: `a` sorts
   * ahead of `b` when it is later; a missing date (`''`) is earlier than any date.
   */
  predicate Later(a: Option<Date>, b: Option<Date>) {
    a.Some? && (b.None? || Before(b.value, a.value))
  }

  lemma LaterIrreflexive(a: Option<Date>)
    ensures !Later(a, a)
  {
  }

  lemma LaterTransitive(a: Option<Date>, b: Option<Date>, c: Option<Date>)
    requires Later(a, b) && Later(b, c)
    ensures Later(a, c)
  {
  }

  /** Any two distinct date fields are ordered one way or the other. */
  lemma LaterTotal(a: Option<Date>, b: Option<Date>)
    ensures a == b || Later(a, b) || Later(b, a)
  {
  }

  /** Consecutive months of one year follow each other without a gap. */
  lemma DaysBeforeMonthStep(y: int, m: int)
    requires 1 <= m <= 12
    ensures m < 12 ==> DaysBeforeMonth(y, m + 1) == DaysBeforeMonth(y, m) + DaysInMonth(y, m)
    ensures m == 12 ==> DaysBeforeMonth(y, m) + DaysInMonth(y, m) == DaysInYear(y)
  {
  }

  /** Consecutive years follow each other without a gap. */
  lemma DayFromYearStep(y: int)
    ensures DayFromYear(y + 1) == DayFromYear(y) + DaysInYear(y)
  {
    LeapDaysStep(y);
  }

  /** Year `y` adds a leap day to the count exactly when it is a leap year. */
  lemma LeapDaysStep(y: int)
    ensures LeapDaysBefore(y + 1) == LeapDaysBefore(y) + (if IsLeapYear(y) then 1 else 0)
  {
    QuadrennialStep(y);
    CenturyStep(y);
    QuadricentennialStep(y);
    CenturiesAreQuadrennial(y);
  }

  lemma CenturiesAreQuadrennial(y: int)
    ensures y % 400 == 0 ==> y % 100 == 0
    ensures y % 100 == 0 ==> y % 4 == 0
  {
  }

  /** One more leap day counted from 1969 on exactly when `y` is a multiple of 4. */
  lemma QuadrennialStep(y: int)
    ensures (y - 1968) / 4 == (y - 1969) / 4 + (if y % 4 == 0 then 1 else 0)
  {
  }

  lemma CenturyStep(y: int)
    ensures (y - 1900) / 100 == (y - 1901) / 100 + (if y % 100 == 0 then 1 else 0)
  {
  }

  lemma QuadricentennialStep(y: int)
    ensures (y - 1600) / 400 == (y - 1601) / 400 + (if y % 400 == 0 then 1 else 0)
  {
  }

  lemma {:induction false} DayFromYearMonotone(y: int, z: int)
    requires y <= z
    ensures DayFromYear(y) <= DayFromYear(z)
    decreases z - y
  {
    if y < z {
      DayFromYearStep(y);
      DayFromYearMonotone(y + 1, z);
    }
  }

  lemma {:induction false} DaysBeforeMonthMonotone(y: int, m: int, n: int)
    requires 1 <= m < n <= 12
    ensures DaysBeforeMonth(y, m) + DaysInMonth(y, m) <= DaysBeforeMonth(y, n)
    decreases n - m
  {
    DaysBeforeMonthStep(y, m);
    if m + 1 < n {
      DaysBeforeMonthMonotone(y, m + 1, n);
    }
  }

  /** The day of the year of a valid date is less than the length of its year. */
  lemma DayOfYearBound(d: Date)
    requires ValidDate(d)
    ensures DaysBeforeMonth(d.year, d.month) + d.day - 1 < DaysInYear(d.year)
  {
    DaysBeforeMonthStep(d.year, 12);
    if d.month < 12 {
      DaysBeforeMonthMonotone(d.year, d.month, 12);
    }
  }

  lemma DayNumberMonotone(a: Date, b: Date)
    requires ValidDate(a) && ValidDate(b) && Before(a, b)
    ensures DayNumber(a) < DayNumber(b)
  {
    if a.year < b.year {
      DayOfYearBound(a);
      DayFromYearStep(a.year);
      DayFromYearMonotone(a.year + 1, b.year);
    } else if a.month < b.month {
      DaysBeforeMonthMonotone(a.year, a.month, b.month);
    }
  }

  /**
   * For valid dates, comparing the `Date` objects (time values) and comparing the
   * `YYYY-MM-DD` texts give the same answer, so the statement filter and the
   * statement sort agree on what "earlier" means.
   */
  lemma TimeValueOrder(a: Date, b: Date)
    requires ValidDate(a) && ValidDate(b)
    ensures TimeValue(a) < TimeValue(b) <==> Before(a, b)
    ensures TimeValue(a) == TimeValue(b) <==> a == b
  {
    if Before(a, b) {
      DayNumberMonotone(a, b);
    } else if Before(b, a) {
      DayNumberMonotone(b, a);
    } else {
      assert a == b;
    }
  }

  /**
   * The time value of `new Date(text)` for the `YYYY-MM-DD` text of `d`; `None` is
   * the NaN of an Invalid Date, which the model gives every date that is not valid.
   */
  function JsTime(d: Date): (r: Option<int>)
    ensures r.Some? <==> ValidDate(d)
  {
    if ValidDate(d) then Some(TimeValue(d)) else None
  }

  /** JavaScript's `<` on two time values: false whenever either is NaN. */
  predicate JsLess(a: Option<int>, b: Option<int>) {
    a.Some? && b.Some? && a.value < b.value
  }

  /** On valid dates, `new Date(a) < new Date(b)` is the text order of `a` and `b`. */
  lemma JsLessIsBefore(a: Date, b: Date)
    requires ValidDate(a) && ValidDate(b)
    ensures JsLess(JsTime(a), JsTime(b)) <==> Before(a, b)
  {
    TimeValueOrder(a, b);
  }

  /** A calendar month, as in the dashboard's `YYYY-MM` labels. */
  datatype Month = Month(year: int, month: int)

  /** Months counted from January of year 0. */
  function MonthIndex(m: Month): int {
    m.year * 12 + m.month - 1
  }

  /**
   * The month `k` months after January of year 0; what `new Date(year, month0, 1)`
   * normalises an out-of-range month number to.
   */
  function MonthAt(k: int): (m: Month)
    ensures 1 <= m.month <= 12
    ensures MonthIndex(m) == k
  {
    Month(k / 12, k % 12 + 1)
  }

  /** A month is determined by its index. */
  lemma MonthAtIndex(m: Month)
    requires 1 <= m.month <= 12
    ensures MonthAt(MonthIndex(m)) == m
  {
    var k := MonthIndex(m);
    assert k == m.year * 12 + (m.month - 1);
    assert k / 12 == m.year && k % 12 == m.month - 1;
  }

  /** The character of a decimal digit. */
  function DigitChar(d: nat): (c: char)
    requires d < 10
    ensures '0' <= c <= '9'
  {
    ('0' as int + d) as char
  }

  /** `String(n)` for a whole number: its decimal digits, most significant first. */
  function DecimalText(n: nat): (r: string)
    ensures |r| >= 1
    ensures forall i :: 0 <= i < |r| ==> '0' <= r[i] <= '9'
    ensures n >= 10 <==> |r| >= 2
  {
    if n < 10 then [DigitChar(n)] else DecimalText(n / 10) + [DigitChar(n % 10)]
  }

  /** Different numbers have different decimal texts. */
  lemma {:induction false} DecimalTextInjective(a: nat, b: nat)
    requires DecimalText(a) == DecimalText(b)
    ensures a == b
  {
    var ta, tb := DecimalText(a), DecimalText(b);
    if a >= 10 && b >= 10 {
      assert ta[..|ta| - 1] == DecimalText(a / 10);
      assert tb[..|tb| - 1] == DecimalText(b / 10);
      DecimalTextInjective(a / 10, b / 10);
      assert DigitChar(a % 10) == ta[|ta| - 1] == DigitChar(b % 10);
    } else {
      assert ta[0] == tb[0];
    }
  }

  /** `String(m).padStart(2, '0')` for a month number 1 to 12. */
  function MonthText(m: int): (r: string)
    requires 1 <= m <= 12
    ensures |r| == 2
  {
    if m < 10 then ['0', DigitChar(m)] else ['1', DigitChar(m - 10)]
  }

  /**
   * The dashboard's `YYYY-MM` label of a month: `${year}-${month padded to two}`,
   * for the years a `Date` of this era has (not negative).
   */
  function MonthLabel(m: Month): (r: string)
    requires m.year >= 0 && 1 <= m.month <= 12
    ensures |r| >= 4 && r[|r| - 3] == '-'
  {
    DecimalText(m.year) + "-" + MonthText(m.month)
  }

  /**
   * Two months have the same label exactly when they are the same month, so
   * `labels.indexOf(bucketMonth(date))` on label texts finds the equal month.
   */
  lemma MonthLabelInjective(a: Month, b: Month)
    requires a.year >= 0 && 1 <= a.month <= 12
    requires b.year >= 0 && 1 <= b.month <= 12
    ensures MonthLabel(a) == MonthLabel(b) <==> a == b
  {
    if MonthLabel(a) == MonthLabel(b) {
      var ya, yb := DecimalText(a.year), DecimalText(b.year);
      var l := MonthLabel(a);
      assert l == ya + "-" + MonthText(a.month) == yb + "-" + MonthText(b.month);
      assert |ya| == |yb| by {
        assert l[|ya|] == '-' && l[|yb|] == '-';
      }
      assert ya == l[..|ya|] == yb;
      DecimalTextInjective(a.year, b.year);
      assert MonthText(a.month) == l[|ya| + 1..] == MonthText(b.month);
      assert MonthText(a.month)[0] == MonthText(b.month)[0];
      assert MonthText(a.month)[1] == MonthText(b.month)[1];
    }
  }

  /** The month of a date: `bucketMonth` of its text. */
  function MonthOf(d: Date): Month {
    Month(d.year, d.month)
  }
}
