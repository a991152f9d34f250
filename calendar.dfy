/** The proleptic Gregorian calendar of Python's `datetime.date`, as far as the report
    ranges of `app/main.py` use it: day ordinals (`date.toordinal()`, day 1 being
    0001-01-01), `weekday()` (Monday is 0), the first day of a month and of the next
    month, and the last representable day. */
module Calendar {

  datatype Date = Date(year: int, month: int, day: int)

  predicate IsLeap(y: int) {
    y % 4 == 0 && (y % 100 != 0 || y % 400 == 0)
  }

  function DaysInMonth(y: int, m: int): (n: int)
    requires 1 <= m <= 12
    ensures 28 <= n <= 31
  {
    if m == 2 then (if IsLeap(y) then 29 else 28)
    else if m == 4 || m == 6 || m == 9 || m == 11 then 30
    else 31
  }

  /** A date `datetime.date` accepts: years 1 to 9999. */
  predicate ValidDate(d: Date) {
    1 <= d.year <= 9999 && 1 <= d.month <= 12 && 1 <= d.day <= DaysInMonth(d.year, d.month)
  }

  /** Days in the years before `y`. */
  function DaysBeforeYear(y: int): int
    requires y >= 1
  {
    var p := y - 1;
    p * 365 + p / 4 - p / 100 + p / 400
  }

  /** Days in the months of year `y` before month `m`. */
  function DaysBeforeMonth(y: int, m: int): (n: int)
    requires 1 <= m <= 12
    ensures n >= 0
  {
    if m == 1 then 0 else DaysBeforeMonth(y, m - 1) + DaysInMonth(y, m - 1)
  }

  /** `date.toordinal()`. */
  function Ordinal(d: Date): int
    requires ValidDate(d)
  {
    DaysBeforeYear(d.year) + DaysBeforeMonth(d.year, d.month) + d.day
  }

  /** The ordinal of 9999-12-31, the last day `datetime` can represent. */
  const MaxOrdinal: int := 3652059

  lemma LastDayIsMaxOrdinal()
    ensures ValidDate(Date(9999, 12, 31)) && Ordinal(Date(9999, 12, 31)) == MaxOrdinal
  {
    assert DaysBeforeMonth(9999, 12) == 334;
  }

  /** Euclidean division is determined by its quotient-remainder decomposition. */
  lemma DivUnique(y: int, k: int, a: int, b: int)
    requires k > 0 && 0 <= b < k && y == k * a + b
    ensures y / k == a && y % k == b
  {
    var q, r := y / k, y % k;
    assert k * q + r == k * a + b;
    assert k * (q - a) == b - r;
    MulBound(k, q - a);
  }

  lemma MulBound(k: int, c: int)
    requires k > 0
    ensures c >= 1 ==> k * c >= k
    ensures c <= -1 ==> k * c <= -k
  {
    if c >= 1 {
      assert k * c == k + k * (c - 1);
    } else if c <= -1 {
      assert k * c == -k + k * (c + 1);
    }
  }

  lemma DivStep(y: int, k: int)
    requires y >= 1 && k > 0
    ensures y / k - (y - 1) / k == if y % k == 0 then 1 else 0
  {
    var q := (y - 1) / k;
    var r := (y - 1) % k;
    assert y - 1 == k * q + r && 0 <= r < k;
    if r == k - 1 {
      DivUnique(y, k, q + 1, 0);
    } else {
      DivUnique(y, k, q, r + 1);
    }
  }

  /** A multiple of 400 is a multiple of 100 and of 4. */
  lemma Multiple400(y: int)
    requires y % 400 == 0
    ensures y % 100 == 0 && y % 4 == 0
  {
    var q := y / 400;
    assert y == 400 * q;
    DivUnique(y, 100, 4 * q, 0);
    DivUnique(y, 4, 100 * q, 0);
  }

  /** A multiple of 100 is a multiple of 4. */
  lemma Multiple100(y: int)
    requires y % 100 == 0
    ensures y % 4 == 0
  {
    var q := y / 100;
    assert y == 100 * q;
    DivUnique(y, 4, 25 * q, 0);
  }

  /** A year has 365 days, one more in a leap year. */
  lemma YearLength(y: int)
    requires y >= 1
    ensures DaysBeforeYear(y + 1) - DaysBeforeYear(y) == if IsLeap(y) then 366 else 365
  {
    DivStep(y, 4);
    DivStep(y, 100);
    DivStep(y, 400);
    if y % 400 == 0 {
      Multiple400(y);
    } else if y % 100 == 0 {
      Multiple100(y);
    }
  }

  /** The months of a year add up to the year's length. */
  lemma MonthsFillYear(y: int)
    ensures DaysBeforeMonth(y, 12) + DaysInMonth(y, 12) == if IsLeap(y) then 366 else 365
  {
    var feb := DaysInMonth(y, 2);
    assert DaysBeforeMonth(y, 2) == 31;
    assert DaysBeforeMonth(y, 3) == 31 + feb;
    assert DaysBeforeMonth(y, 4) == 62 + feb;
    assert DaysBeforeMonth(y, 5) == 92 + feb;
    assert DaysBeforeMonth(y, 6) == 123 + feb;
    assert DaysBeforeMonth(y, 7) == 153 + feb;
    assert DaysBeforeMonth(y, 8) == 184 + feb;
    assert DaysBeforeMonth(y, 9) == 215 + feb;
    assert DaysBeforeMonth(y, 10) == 245 + feb;
    assert DaysBeforeMonth(y, 11) == 276 + feb;
    assert DaysBeforeMonth(y, 12) == 306 + feb;
  }

  lemma DaysBeforeYearNonNegative(y: int)
    requires y >= 1
    ensures DaysBeforeYear(y) >= 0
  {
    var p := y - 1;
    assert 100 * (p / 100) <= p < 4 * (p / 4) + 4;
  }

  /** The years up to 9999 end no later than the last representable day. */
  lemma {:induction false} YearsEndBy9999(y: int)
    requires 1 <= y <= 9999
    ensures DaysBeforeYear(y + 1) <= MaxOrdinal
    decreases 9999 - y
  {
    if y < 9999 {
      YearsEndBy9999(y + 1);
      YearLength(y + 1);
    }
  }

  /** A month ends no later than the year does. */
  lemma {:induction false} MonthEndsByYearEnd(y: int, m: int)
    requires 1 <= m <= 12
    ensures DaysBeforeMonth(y, m) + DaysInMonth(y, m) <= DaysBeforeMonth(y, 12) + DaysInMonth(y, 12)
    decreases 12 - m
  {
    if m < 12 {
      MonthEndsByYearEnd(y, m + 1);
    }
  }

  /** Every valid date has an ordinal between 1 and the last representable day. */
  lemma OrdinalBounds(d: Date)
    requires ValidDate(d)
    ensures 1 <= Ordinal(d) <= MaxOrdinal
  {
    DaysBeforeYearNonNegative(d.year);
    YearsEndBy9999(d.year);
    MonthEndsByYearEnd(d.year, d.month);
    MonthsFillYear(d.year);
    YearLength(d.year);
  }

  /** `weekday()` of the date with ordinal `ord`. */
  function Weekday(ord: int): (w: int)
    ensures 0 <= w < 7
  {
    (ord + 6) % 7
  }

  /** `anchor - timedelta(days=anchor.weekday())`: the Monday of the week of `ord`. */
  function WeekStart(ord: int): (s: int)
    ensures Weekday(s) == 0
    ensures s <= ord < s + 7
    ensures ord >= 1 ==> s >= 1
  {
    ord - Weekday(ord)
  }

  /** `anchor.replace(day=1)`. */
  function MonthStart(d: Date): (r: Date)
    requires ValidDate(d)
    ensures ValidDate(r) && r.day == 1
    ensures Ordinal(r) <= Ordinal(d) < Ordinal(r) + DaysInMonth(d.year, d.month)
  {
    Date(d.year, d.month, 1)
  }

  /** The first day of the following month, rolling December over to January of the next
      year. The result may lie past 9999-12-31, where `replace` raises. */
  function NextMonthStart(d: Date): (r: Date)
    requires 1 <= d.month <= 12
    ensures r.day == 1 && 1 <= r.month <= 12
    ensures d.month == 12 ==> r.year == d.year + 1 && r.month == 1
    ensures d.month < 12 ==> r.year == d.year && r.month == d.month + 1
  {
    if d.month == 12 then Date(d.year + 1, 1, 1) else Date(d.year, d.month + 1, 1)
  }

  /** A month's range is exactly as long as the month: the next month starts
      `DaysInMonth` days after this one. */
  lemma MonthSpan(d: Date)
    requires ValidDate(d) && ValidDate(NextMonthStart(d))
    ensures Ordinal(NextMonthStart(d)) - Ordinal(MonthStart(d)) == DaysInMonth(d.year, d.month)
  {
    if d.month == 12 {
      YearLength(d.year);
      MonthsFillYear(d.year);
    }
  }
}
