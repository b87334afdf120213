/**
 The proleptic Gregorian calendar that Python's `datetime` counts in: civil dates,
 day ordinals (1 January of year 1 is day 1, a Monday) and weekdays.

 Two definitions of the calendar live here. `Ordinal` is the closed arithmetic form.
 `CivilOf` knows no arithmetic: it starts at day 1 and steps with `NextDate`. The lemmas show
 that they are inverse to each other, so either one may be used to say what a date is.
 */
module Calendar {

  const MAX_YEAR := 9999

  datatype Date = Date(year: int, month: int, day: int)

  predicate IsLeap(year: int) {
    year % 4 == 0 && (year % 100 != 0 || year % 400 == 0)
  }

  function DaysInMonth(year: int, month: int): int {
    if month == 2 then (if IsLeap(year) then 29 else 28)
    else if month in {4, 6, 9, 11} then 30
    else 31
  }

  predicate ValidDate(d: Date) {
    1 <= d.year && 1 <= d.month <= 12 && 1 <= d.day <= DaysInMonth(d.year, d.month)
  }

  function DaysBeforeYear(year: int): int {
    var y := year - 1;
    365 * y + y / 4 - y / 100 + y / 400
  }

  /** Days of `year` that precede its month `month`; month 13 stands for the whole year. */
  function DaysBeforeMonth(year: int, month: int): int
    requires 1 <= month <= 13
  {
    if month == 1 then 0 else DaysBeforeMonth(year, month - 1) + DaysInMonth(year, month - 1)
  }

  function Ordinal(d: Date): int
    requires 1 <= d.month <= 12
  {
    DaysBeforeYear(d.year) + DaysBeforeMonth(d.year, d.month) + d.day
  }

  /** Monday is 0. */
  function Weekday(ordinal: int): int {
    (ordinal + 6) % 7
  }

  /** The calendar's own successor: the civil day after `d`. */
  function NextDate(d: Date): Date {
    if d.day < DaysInMonth(d.year, d.month) then d.(day := d.day + 1)
    else if d.month < 12 then Date(d.year, d.month + 1, 1)
    else Date(d.year + 1, 1, 1)
  }

  /** The civil date of day `n`, found by counting days from 1 January of year 1. */
  function CivilOf(n: int): (d: Date)
    requires n >= 1
    ensures ValidDate(d)
    decreases n
  {
    if n == 1 then Date(1, 1, 1) else NextDate(CivilOf(n - 1))
  }

  ghost predicate DateBefore(a: Date, b: Date) {
    || a.year < b.year
    || (a.year == b.year && a.month < b.month)
    || (a.year == b.year && a.month == b.month && a.day < b.day)
  }

  lemma HalfYears(year: int)
    ensures DaysBeforeMonth(year, 7) == if IsLeap(year) then 182 else 181
    ensures DaysBeforeMonth(year, 13) == DaysBeforeMonth(year, 7) + 184
  {
    assert DaysBeforeMonth(year, 2) == 31;
    assert DaysBeforeMonth(year, 5) == DaysBeforeMonth(year, 4) + 30 == DaysBeforeMonth(year, 3) + 61;
    assert DaysBeforeMonth(year, 7) == DaysBeforeMonth(year, 6) + 30 == DaysBeforeMonth(year, 5) + 61;
    assert DaysBeforeMonth(year, 9) == DaysBeforeMonth(year, 8) + 31 == DaysBeforeMonth(year, 7) + 62;
    assert DaysBeforeMonth(year, 11) == DaysBeforeMonth(year, 10) + 31 == DaysBeforeMonth(year, 9) + 61;
    assert DaysBeforeMonth(year, 13) == DaysBeforeMonth(year, 12) + 31 == DaysBeforeMonth(year, 11) + 61;
  }

  lemma Multiple(d: int, k: int)
    requires k > 0
    ensures d >= 1 ==> d * k >= k
    ensures d <= -1 ==> d * k <= -k
  {
  }

  lemma Quotient(n: int, k: int, q: int, r: int)
    requires k > 1 && n == q * k + r && 0 <= r < k
    ensures n / k == q && n % k == r
  {
    var d := n / k - q;
    assert n == (n / k) * k + n % k;
    assert d * k == r - n % k;
    Multiple(d, k);
  }

  lemma QuotientStep(n: int, k: int)
    requires k > 1
    ensures n / k == (n - 1) / k + if n % k == 0 then 1 else 0
  {
    var q, r := (n - 1) / k, (n - 1) % k;
    assert n - 1 == q * k + r;
    if r == k - 1 {
      assert n == (q + 1) * k;
      Quotient(n, k, q + 1, 0);
    } else {
      Quotient(n, k, q, r + 1);
    }
  }

  lemma Divides(year: int)
    ensures year % 400 == 0 ==> year % 100 == 0
    ensures year % 100 == 0 ==> year % 4 == 0
  {
  }

  lemma YearStep(year: int)
    ensures DaysBeforeYear(year + 1) == DaysBeforeYear(year) + if IsLeap(year) then 366 else 365
  {
    QuotientStep(year, 4);
    QuotientStep(year, 100);
    QuotientStep(year, 400);
    Divides(year);
  }

  lemma YearLength(year: int)
    ensures DaysBeforeMonth(year, 13) == if IsLeap(year) then 366 else 365
    ensures DaysBeforeYear(year + 1) == DaysBeforeYear(year) + DaysBeforeMonth(year, 13)
  {
    HalfYears(year);
    YearStep(year);
  }

  lemma {:induction false} MonthsInOrder(year: int, m: int, n: int)
    requires 1 <= m < n <= 13
    ensures DaysBeforeMonth(year, m) + DaysInMonth(year, m) <= DaysBeforeMonth(year, n)
    decreases n - m
  {
    if m + 1 < n {
      MonthsInOrder(year, m, n - 1);
    }
  }

  lemma {:induction false} YearsInOrder(x: int, y: int)
    requires 1 <= x < y
    ensures DaysBeforeYear(x) + DaysBeforeMonth(x, 13) <= DaysBeforeYear(y)
    decreases y - x
  {
    YearLength(x);
    if x + 1 < y {
      YearLength(x + 1);
      YearsInOrder(x + 1, y);
    }
  }

  lemma OrdinalGrows(a: Date, b: Date)
    requires ValidDate(a) && ValidDate(b) && DateBefore(a, b)
    ensures Ordinal(a) < Ordinal(b)
  {
    MonthsInOrder(a.year, a.month, 13);
    if a.year < b.year {
      YearsInOrder(a.year, b.year);
      if b.month > 1 {
        MonthsInOrder(b.year, 1, b.month);
      }
    } else if a.month < b.month {
      MonthsInOrder(a.year, a.month, b.month);
    }
  }

  /** A later date has a larger ordinal, and only a later date does. */
  lemma OrdinalIsMonotone(a: Date, b: Date)
    requires ValidDate(a) && ValidDate(b)
    ensures DateBefore(a, b) <==> Ordinal(a) < Ordinal(b)
    ensures Ordinal(a) == Ordinal(b) ==> a == b
  {
    if DateBefore(a, b) {
      OrdinalGrows(a, b);
    } else if DateBefore(b, a) {
      OrdinalGrows(b, a);
    }
  }

  lemma NextDateIsNextOrdinal(d: Date)
    requires ValidDate(d)
    ensures ValidDate(NextDate(d)) && Ordinal(NextDate(d)) == Ordinal(d) + 1
  {
    if d.day == DaysInMonth(d.year, d.month) && d.month == 12 {
      YearLength(d.year);
    }
  }

  /** Counting days from day 1 reaches the date whose closed-form ordinal is `n`. */
  lemma {:induction false} OrdinalOfCivil(n: int)
    requires n >= 1
    ensures Ordinal(CivilOf(n)) == n
    decreases n
  {
    if n > 1 {
      OrdinalOfCivil(n - 1);
      NextDateIsNextOrdinal(CivilOf(n - 1));
    }
  }

  lemma OrdinalIsPositive(d: Date)
    requires ValidDate(d)
    ensures Ordinal(d) >= 1
  {
    if d != Date(1, 1, 1) {
      OrdinalIsMonotone(Date(1, 1, 1), d);
    }
  }

  /** ... and every date is reached. */
  lemma CivilOfOrdinal(d: Date)
    requires ValidDate(d)
    ensures Ordinal(d) >= 1 && CivilOf(Ordinal(d)) == d
  {
    OrdinalIsPositive(d);
    OrdinalOfCivil(Ordinal(d));
    OrdinalIsMonotone(CivilOf(Ordinal(d)), d);
  }

  /** Days of one month are consecutive: `k` days after a date, still inside its month. */
  lemma SameMonth(d: Date, n: int)
    requires ValidDate(d)
    requires 1 <= d.day + n - Ordinal(d) <= DaysInMonth(d.year, d.month)
    ensures n >= 1 && CivilOf(n) == d.(day := d.day + n - Ordinal(d))
  {
    CivilOfOrdinal(d.(day := d.day + n - Ordinal(d)));
  }
}
