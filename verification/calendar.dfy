/**
 * Python's `datetime.date`: proleptic Gregorian calendar dates in years 1..9999,
 * their ordinal numbering (0001-01-01 is day 1), date + timedelta, which goes through
 * the ordinal and raises OverflowError outside the supported range, and date
 * comparison, which compares (year, month, day) lexicographically.
 */
module Calendar {
  import opened Wrappers

  const MinYear: int := 1
  const MaxYear: int := 9999
  /** The ordinal of 9999-12-31. */
  const MaxOrdinal: int := 3652059

  datatype Date = Date(year: int, month: int, day: int)

  predicate IsLeap(year: int) {
    year % 4 == 0 && (year % 100 != 0 || year % 400 == 0)
  }

  function DaysInYear(year: int): int {
    if IsLeap(year) then 366 else 365
  }

  function DaysInMonth(year: int, month: int): int
    requires 1 <= month <= 12
  {
    if month == 2 then (if IsLeap(year) then 29 else 28)
    else if month == 4 || month == 6 || month == 9 || month == 11 then 30
    else 31
  }

  /** A date the standard library can represent. */
  predicate Valid(d: Date) {
    && MinYear <= d.year <= MaxYear
    && 1 <= d.month <= 12
    && 1 <= d.day <= DaysInMonth(d.year, d.month)
  }

  /** Days in the years before `year`, counting from year 1: `y*365 + y//4 - y//100 + y//400` with `y = year - 1`. */
  function DaysBeforeYear(year: int): int {
    var y := year - 1;
    y * 365 + y / 4 - y / 100 + y / 400
  }

  /** Days in the months of `year` before `month`. */
  function DaysBeforeMonth(year: int, month: int): int
    requires 1 <= month <= 12
  {
    var common :=
      if month == 1 then 0 else if month == 2 then 31 else if month == 3 then 59
      else if month == 4 then 90 else if month == 5 then 120 else if month == 6 then 151
      else if month == 7 then 181 else if month == 8 then 212 else if month == 9 then 243
      else if month == 10 then 273 else if month == 11 then 304 else 334;
    common + (if month > 2 && IsLeap(year) then 1 else 0)
  }

  /** `date.toordinal()`. */
  function ToOrdinal(d: Date): (n: int)
    requires Valid(d)
    ensures 1 <= n <= MaxOrdinal
  {
    DayWithinYear(d.year, d.month, d.day);
    YearEndBound(d.year);
    DaysBeforeYear(d.year) + DaysBeforeMonth(d.year, d.month) + d.day
  }

  /** `a < b` on dates: lexicographic on (year, month, day). */
  predicate Before(a: Date, b: Date) {
    || a.year < b.year
    || (a.year == b.year && a.month < b.month)
    || (a.year == b.year && a.month == b.month && a.day < b.day)
  }

  /** `a <= b` on dates. */
  predicate AtMost(a: Date, b: Date) {
    a == b || Before(a, b)
  }

  lemma LeapCountStep(year: int)
    requires year >= 1
    ensures year / 4 - (year - 1) / 4 == (if year % 4 == 0 then 1 else 0)
    ensures year / 100 - (year - 1) / 100 == (if year % 100 == 0 then 1 else 0)
    ensures year / 400 - (year - 1) / 400 == (if year % 400 == 0 then 1 else 0)
  {
  }

  lemma Multiple400(year: int)
    requires year % 400 == 0
    ensures year % 100 == 0
  {
    var k := year / 400;
    assert year == 100 * (4 * k);
  }

  lemma Multiple100(year: int)
    requires year % 100 == 0
    ensures year % 4 == 0
  {
    var k := year / 100;
    assert year == 4 * (25 * k);
  }

  /** Consecutive years are `DaysInYear` apart. */
  lemma DaysBeforeYearStep(year: int)
    requires year >= 1
    ensures DaysBeforeYear(year + 1) == DaysBeforeYear(year) + DaysInYear(year)
  {
    LeapCountStep(year);
    if year % 400 == 0 {
      Multiple400(year);
    }
    if year % 100 == 0 {
      Multiple100(year);
    }
  }

  lemma {:induction false} DaysBeforeYearMonotone(a: int, b: int)
    requires 1 <= a < b
    ensures DaysBeforeYear(a + 1) <= DaysBeforeYear(b)
  {
    if a + 1 < b {
      DaysBeforeYearMonotone(a, b - 1);
      DaysBeforeYearStep(b - 1);
    }
  }

  /** No supported year ends after MaxOrdinal. */
  lemma YearEndBound(year: int)
    requires MinYear <= year <= MaxYear
    ensures DaysBeforeYear(year + 1) <= MaxOrdinal
  {
    if year < MaxYear {
      DaysBeforeYearMonotone(year, MaxYear + 1);
    }
  }

  lemma DaysBeforeMonthStep(year: int, month: int)
    requires 1 <= month <= 12
    ensures month < 12 ==> DaysBeforeMonth(year, month + 1) == DaysBeforeMonth(year, month) + DaysInMonth(year, month)
    ensures month == 12 ==> DaysBeforeMonth(year, month) + DaysInMonth(year, month) == DaysInYear(year)
  {
  }

  lemma {:induction false} DaysBeforeMonthMonotone(year: int, a: int, b: int)
    requires 1 <= a < b <= 12
    ensures DaysBeforeMonth(year, a) + DaysInMonth(year, a) <= DaysBeforeMonth(year, b)
    decreases b - a
  {
    DaysBeforeMonthStep(year, a);
    if a + 1 < b {
      DaysBeforeMonthMonotone(year, a + 1, b);
    }
  }

  /** A valid date's ordinal falls inside its year. */
  lemma OrdinalWithinYear(d: Date)
    requires Valid(d)
    ensures DaysBeforeYear(d.year) < ToOrdinal(d) <= DaysBeforeYear(d.year + 1)
  {
    DayWithinYear(d.year, d.month, d.day);
  }

  lemma DayWithinYear(year: int, month: int, day: int)
    requires Valid(Date(year, month, day))
    ensures DaysBeforeYear(year) < DaysBeforeYear(year) + DaysBeforeMonth(year, month) + day <= DaysBeforeYear(year + 1)
  {
    DaysBeforeYearStep(year);
    if month < 12 {
      DaysBeforeMonthMonotone(year, month, 12);
    }
    DaysBeforeMonthStep(year, 12);
  }

  /** Python's lexicographic date order is the order of ordinals. */
  lemma OrdinalOrder(a: Date, b: Date)
    requires Valid(a) && Valid(b)
    ensures Before(a, b) <==> ToOrdinal(a) < ToOrdinal(b)
    ensures a == b <==> ToOrdinal(a) == ToOrdinal(b)
    ensures AtMost(a, b) <==> ToOrdinal(a) <= ToOrdinal(b)
  {
    if Before(a, b) {
      OrderedPair(a, b);
    } else if Before(b, a) {
      OrderedPair(b, a);
    }
  }

  lemma OrderedPair(a: Date, b: Date)
    requires Valid(a) && Valid(b)
    requires Before(a, b)
    ensures ToOrdinal(a) < ToOrdinal(b)
  {
    OrdinalWithinYear(a);
    OrdinalWithinYear(b);
    if a.year < b.year {
      DaysBeforeYearMonotone(a.year, b.year);
    } else if a.month < b.month {
      DaysBeforeMonthMonotone(a.year, a.month, b.month);
    }
  }

  /** The year holding ordinal `n`, searched upwards from `year`. */
  function YearContaining(n: int, year: int): (r: int)
    requires MinYear <= year <= MaxYear
    requires DaysBeforeYear(year) < n <= MaxOrdinal
    ensures year <= r <= MaxYear
    ensures DaysBeforeYear(r) < n <= DaysBeforeYear(r + 1)
    decreases MaxYear - year
  {
    if n <= DaysBeforeYear(year + 1) then year
    else YearContaining(n, year + 1)
  }

  /** The month holding day `dayOfYear` (1-based) of `year`, searched upwards from `month`. */
  function MonthContaining(year: int, dayOfYear: int, month: int): (r: int)
    requires 1 <= month <= 12
    requires DaysBeforeMonth(year, month) < dayOfYear <= DaysInYear(year)
    ensures month <= r <= 12
    ensures DaysBeforeMonth(year, r) < dayOfYear <= DaysBeforeMonth(year, r) + DaysInMonth(year, r)
    decreases 12 - month
  {
    DaysBeforeMonthStep(year, month);
    if dayOfYear <= DaysBeforeMonth(year, month) + DaysInMonth(year, month) then month
    else MonthContaining(year, dayOfYear, month + 1)
  }

  /** `date.fromordinal(n)`: the valid date whose ordinal is `n`. */
  function FromOrdinal(n: int): (d: Date)
    requires 1 <= n <= MaxOrdinal
    ensures Valid(d) && ToOrdinal(d) == n
  {
    var year := YearContaining(n, MinYear);
    DaysBeforeYearStep(year);
    var dayOfYear := n - DaysBeforeYear(year);
    var month := MonthContaining(year, dayOfYear, 1);
    Date(year, month, dayOfYear - DaysBeforeMonth(year, month))
  }

  /** Ordinals number the valid dates one-to-one. */
  lemma FromToOrdinal(d: Date)
    requires Valid(d)
    ensures 1 <= ToOrdinal(d) <= MaxOrdinal
    ensures FromOrdinal(ToOrdinal(d)) == d
  {
    OrdinalOrder(d, FromOrdinal(ToOrdinal(d)));
  }

  /**
   * `d + timedelta(days=k)`: None where the standard library raises OverflowError,
   * that is, when the resulting ordinal leaves 1..MaxOrdinal.
   */
  function AddDays(d: Date, k: int): (r: Option<Date>)
    requires Valid(d)
    ensures r.Some? <==> 1 <= ToOrdinal(d) + k <= MaxOrdinal
    ensures r.Some? ==> Valid(r.value) && ToOrdinal(r.value) == ToOrdinal(d) + k
  {
    var n := ToOrdinal(d) + k;
    if 1 <= n <= MaxOrdinal then Some(FromOrdinal(n)) else None
  }
}
