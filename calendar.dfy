/** The proleptic Gregorian calendar of Python's `datetime.date`: years 1 to 9999,
    comparison field by field, and day differences through day ordinals. */
module Calendar {

  datatype Date = Date(year: int, month: int, day: int)

  const MinYear: int := 1
  const MaxYear: int := 9999

  predicate IsLeap(y: int) {
    y % 4 == 0 && (y % 100 != 0 || y % 400 == 0)
  }

  function DaysInMonth(y: int, m: int): int
    requires 1 <= m <= 12
  {
    if m == 2 then (if IsLeap(y) then 29 else 28)
    else if m == 4 || m == 6 || m == 9 || m == 11 then 30
    else 31
  }

  /** The dates `datetime.date(y, m, d)` accepts; any other triple raises `ValueError`. */
  predicate IsValidDate(y: int, m: int, d: int) {
    MinYear <= y <= MaxYear && 1 <= m <= 12 && 1 <= d <= DaysInMonth(y, m)
  }

  type CalendarDate = d: Date | IsValidDate(d.year, d.month, d.day) witness Date(1, 1, 1)

  /** Python's `a < b` on dates. */
  predicate Before(a: Date, b: Date) {
    || a.year < b.year
    || (a.year == b.year && a.month < b.month)
    || (a.year == b.year && a.month == b.month && a.day < b.day)
  }

  function DaysInYear(y: int): int {
    if IsLeap(y) then 366 else 365
  }

  /** The number of days in the years before year `y`. */
  function DaysBeforeYear(y: int): int
    requires y >= 1
  {
    var p := y - 1;
    365 * p + p / 4 - p / 100 + p / 400
  }

  /** The number of days in year `y` before the first of month `m` (13 stands for the year's end). */
  function DaysBeforeMonth(y: int, m: int): (n: int)
    requires 1 <= m <= 13
    ensures n >= 0
  {
    if m == 1 then 0 else DaysBeforeMonth(y, m - 1) + DaysInMonth(y, m - 1)
  }

  /** Python's `d.toordinal()`: 1 for 0001-01-01, and one more for each later day. */
  function Ordinal(d: CalendarDate): int {
    DaysBeforeYear(d.year) + DaysBeforeMonth(d.year, d.month) + d.day
  }

  /** Python's `(b - a).days`. */
  function DaysBetween(a: CalendarDate, b: CalendarDate): int {
    Ordinal(b) - Ordinal(a)
  }

  lemma YearStep(y: int)
    requires y >= 1
    ensures DaysBeforeYear(y + 1) == DaysBeforeYear(y) + DaysInYear(y)
  {
    var p := y - 1;
    StepBy4(p);
    StepBy100(p);
    StepBy400(p);
    DivisorChain(y);
    assert DaysBeforeYear(y + 1) == 365 * y + y / 4 - y / 100 + y / 400;
    assert DaysBeforeYear(y) == 365 * p + p / 4 - p / 100 + p / 400;
  }

  /** A multiple of 400 is one of 100, and a multiple of 100 is one of 4. */
  lemma DivisorChain(y: int)
    ensures y % 400 == 0 ==> y % 100 == 0
    ensures y % 100 == 0 ==> y % 4 == 0
  {
    if y % 400 == 0 {
      var q := y / 400;
      assert y == 400 * q;
      assert y == 100 * (4 * q);
    }
    if y % 100 == 0 {
      var q := y / 100;
      assert y == 100 * q;
      assert y == 4 * (25 * q);
    }
  }

  /** One more year adds one to the count of multiples of 4 exactly when it is one. */
  lemma StepBy4(p: nat)
    ensures (p + 1) / 4 == p / 4 + (if (p + 1) % 4 == 0 then 1 else 0)
  {
    assert p == 4 * (p / 4) + p % 4;
  }

  lemma StepBy100(p: nat)
    ensures (p + 1) / 100 == p / 100 + (if (p + 1) % 100 == 0 then 1 else 0)
  {
    assert p == 100 * (p / 100) + p % 100;
  }

  lemma StepBy400(p: nat)
    ensures (p + 1) / 400 == p / 400 + (if (p + 1) % 400 == 0 then 1 else 0)
  {
    assert p == 400 * (p / 400) + p % 400;
  }

  lemma {:induction false} YearsMonotone(y1: int, y2: int)
    requires 1 <= y1 <= y2
    ensures DaysBeforeYear(y1) + 365 * (y2 - y1) <= DaysBeforeYear(y2)
    decreases y2 - y1
  {
    if y1 < y2 {
      YearsMonotone(y1, y2 - 1);
      YearStep(y2 - 1);
    }
  }

  /** The twelve months add up to the year. */
  lemma MonthsMakeYear(y: int)
    ensures DaysBeforeMonth(y, 13) == DaysInYear(y)
  {
    LeapShift(y, 13);
    assert DaysBeforeMonth(1, 3) == 59;
    assert DaysBeforeMonth(1, 6) == 151;
    assert DaysBeforeMonth(1, 9) == 243;
    assert DaysBeforeMonth(1, 13) == 365;
  }

  /** A leap year has one day more than a common year before every month after February. */
  lemma {:induction false} LeapShift(y: int, m: int)
    requires 1 <= m <= 13
    ensures DaysBeforeMonth(y, m) == DaysBeforeMonth(1, m) + (if m > 2 && IsLeap(y) then 1 else 0)
    decreases m
  {
    if m > 1 {
      LeapShift(y, m - 1);
    }
  }

  lemma {:induction false} MonthsMonotone(y: int, m1: int, m2: int)
    requires 1 <= m1 <= m2 <= 13
    ensures DaysBeforeMonth(y, m1) <= DaysBeforeMonth(y, m2)
    decreases m2 - m1
  {
    if m1 < m2 {
      MonthsMonotone(y, m1, m2 - 1);
    }
  }

  /** The day ordinal orders dates as Python's date comparison does. */
  lemma OrdinalOrder(a: CalendarDate, b: CalendarDate)
    ensures Before(a, b) <==> Ordinal(a) < Ordinal(b)
    ensures a == b <==> Ordinal(a) == Ordinal(b)
  {
    forall x: CalendarDate, z: CalendarDate | Before(x, z) ensures Ordinal(x) < Ordinal(z) {
      OrdinalIncreases(x, z);
    }
  }

  lemma OrdinalIncreases(a: CalendarDate, b: CalendarDate)
    requires Before(a, b)
    ensures Ordinal(a) < Ordinal(b)
  {
    if a.year < b.year {
      MonthsMonotone(a.year, a.month + 1, 13);
      MonthsMakeYear(a.year);
      YearStep(a.year);
      YearsMonotone(a.year + 1, b.year);
    } else if a.month < b.month {
      MonthsMonotone(a.year, a.month + 1, b.month);
    }
  }
}
