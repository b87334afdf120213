/**
 `portal/scheduler.py`: the arithmetic that finds a schedule's next run.

 Instants are microseconds on an absolute day timeline (`Instant`). What it means for an instant
 to match a cadence is said on that timeline alone (`Matches`), without the candidate arithmetic.
 */
module NextRuns {
  import opened Calendar

  const MICROS_PER_DAY := 86_400_000_000
  const FREQUENCIES: set<string> := {"daily", "weekly", "monthly"}

  datatype DateTime = DateTime(date: Date, hour: int, minute: int, second: int, micro: int)

  /** What Python's `datetime` can represent. */
  predicate ValidDateTime(t: DateTime) {
    && ValidDate(t.date) && t.date.year <= MAX_YEAR
    && 0 <= t.hour < 24 && 0 <= t.minute < 60 && 0 <= t.second < 60 && 0 <= t.micro < 1_000_000
  }

  function MicroOfDay(t: DateTime): int {
    ((t.hour * 60 + t.minute) * 60 + t.second) * 1_000_000 + t.micro
  }

  function Instant(t: DateTime): int
    requires ValidDateTime(t)
  {
    Ordinal(t.date) * MICROS_PER_DAY + MicroOfDay(t)
  }

  /** The last instant a `datetime` can hold. */
  const MAX_INSTANT := Instant(DateTime(Date(MAX_YEAR, 12, 31), 23, 59, 59, 999_999))

  datatype Cadence = Cadence(frequency: string, hour: int, minute: int, dayOfWeek: int, dayOfMonth: int)

  /** ValueError on an unknown frequency; OverflowError / ValueError past year 9999. */
  datatype NextRun = Next(at: DateTime) | UnknownFrequency | OutOfRange {
    predicate IsFailure() { !Next? }
    function PropagateFailure(): NextRun requires !Next? { this }
    function Extract(): DateTime requires Next? { at }
  }

  function Clamp(x: int, lo: int, hi: int): int {
    if x < lo then lo else if x > hi then hi else x
  }

  function Min(x: int, y: int): int {
    if x <= y then x else y
  }

  /** `a <= b` as Python compares datetimes: field by field. */
  predicate AtMost(a: DateTime, b: DateTime) {
    if a.date.year != b.date.year then a.date.year < b.date.year
    else if a.date.month != b.date.month then a.date.month < b.date.month
    else if a.date.day != b.date.day then a.date.day < b.date.day
    else if a.hour != b.hour then a.hour < b.hour
    else if a.minute != b.minute then a.minute < b.minute
    else if a.second != b.second then a.second < b.second
    else a.micro <= b.micro
  }

  /** `t + timedelta(days=k)`. */
  function AddDays(t: DateTime, k: nat): NextRun
    requires ValidDate(t.date)
  {
    OrdinalIsPositive(t.date);
    var d := CivilOf(Ordinal(t.date) + k);
    if d.year > MAX_YEAR then OutOfRange else Next(t.(date := d))
  }

  /** `after.replace(hour=…, minute=…, second=0, microsecond=0)` with the clamped time of day. */
  function Base(c: Cadence, after: DateTime): DateTime {
    after.(hour := Clamp(c.hour, 0, 23), minute := Clamp(c.minute, 0, 59), second := 0, micro := 0)
  }

  /** Day of month `dom` in a month, or that month's last day. */
  function ClampedDay(c: Cadence, year: int, month: int): int {
    Min(Clamp(c.dayOfMonth, 1, 31), DaysInMonth(year, month))
  }

  /** `(dow - base.weekday()) % 7`. */
  function WeekdayGap(c: Cadence, ordinal: int): nat {
    (Clamp(c.dayOfWeek, 0, 6) - Weekday(ordinal)) % 7
  }

  /** The candidate `gap` days ahead, or a week later if it has passed. */
  function WeeklyRun(gap: nat, base: DateTime, after: DateTime): NextRun
    requires ValidDateTime(base)
  {
    var candidate :- AddDays(base, gap);
    if AtMost(candidate, after) then AddDays(candidate, 7) else Next(candidate)
  }

  function InMonth(c: Cadence, year: int, month: int): Date {
    Date(year, month, ClampedDay(c, year, month))
  }

  /** The cadence's day in the month after that of `d`. */
  function InNextMonth(c: Cadence, d: Date): Date {
    var month := if d.month == 12 then 1 else d.month + 1;
    var year := d.year + if d.month == 12 then 1 else 0;
    InMonth(c, year, month)
  }

  function MonthlyRun(c: Cadence, base: DateTime, after: DateTime): NextRun {
    var candidate := base.(date := InMonth(c, base.date.year, base.date.month));
    if !AtMost(candidate, after) then Next(candidate)
    else if InNextMonth(c, base.date).year > MAX_YEAR then OutOfRange
    else Next(base.(date := InNextMonth(c, base.date)))
  }

  function DailyRun(base: DateTime, after: DateTime): NextRun
    requires ValidDateTime(base)
  {
    if AtMost(base, after) then AddDays(base, 1) else Next(base)
  }

  function ComputeNextRun(c: Cadence, after: DateTime): NextRun
    requires ValidDateTime(after)
  {
    if c.frequency !in FREQUENCIES then UnknownFrequency else
    var base := Base(c, after);
    if c.frequency == "weekly" then WeeklyRun(WeekdayGap(c, Ordinal(base.date)), base, after)
    else if c.frequency == "monthly" then MonthlyRun(c, base, after)
    else DailyRun(base, after)
  }

  // ----- what a cadence promises, on the timeline -----

  /** The cadence's time of day. */
  function TimeOfDay(c: Cadence): int {
    (Clamp(c.hour, 0, 23) * 60 + Clamp(c.minute, 0, 59)) * 60_000_000
  }

  /** Day number `n` is one of the cadence's days; a day of month past the month's end means its last day. */
  predicate DayMatches(c: Cadence, n: int)
    requires n >= 1
  {
    if c.frequency == "weekly" then Weekday(n) == Clamp(c.dayOfWeek, 0, 6)
    else if c.frequency == "monthly" then
      var d := CivilOf(n);
      d.day == ClampedDay(c, d.year, d.month)
    else true
  }

  predicate Matches(c: Cadence, t: int) {
    t >= MICROS_PER_DAY && t % MICROS_PER_DAY == TimeOfDay(c) && DayMatches(c, t / MICROS_PER_DAY)
  }

  /** No occurrence in the half-open interval (lo, hi]. */
  ghost predicate NoneWithin(c: Cadence, lo: int, hi: int) {
    forall t :: lo < t <= hi ==> !Matches(c, t)
  }

  ghost predicate IsFirstAfter(c: Cadence, after: int, at: int) {
    after < at && Matches(c, at) && NoneWithin(c, after, at - 1)
  }

  /** The promise of `compute_next_run`, in full. */
  ghost predicate NextRunCorrect(c: Cadence, after: DateTime)
    requires ValidDateTime(after)
  {
    match ComputeNextRun(c, after)
    case Next(at) => ValidDateTime(at) && IsFirstAfter(c, Instant(after), Instant(at))
    case UnknownFrequency => c.frequency !in FREQUENCIES
    case OutOfRange => c.frequency in FREQUENCIES && NoneWithin(c, Instant(after), MAX_INSTANT)
  }

  // ----- proofs -----

  lemma InstantSplits(t: DateTime)
    requires ValidDateTime(t)
    ensures 0 <= MicroOfDay(t) < MICROS_PER_DAY
    ensures Instant(t) / MICROS_PER_DAY == Ordinal(t.date) && Instant(t) % MICROS_PER_DAY == MicroOfDay(t)
    ensures Ordinal(t.date) >= 1
  {
    OrdinalIsPositive(t.date);
  }

  /** Python's field-by-field order is the order of the timeline. */
  lemma AtMostIsInstantOrder(a: DateTime, b: DateTime)
    requires ValidDateTime(a) && ValidDateTime(b)
    ensures AtMost(a, b) <==> Instant(a) <= Instant(b)
  {
    OrdinalIsMonotone(a.date, b.date);
    OrdinalIsMonotone(b.date, a.date);
    InstantSplits(a);
    InstantSplits(b);
  }

  /** A first day, at the cadence's time, that is the cadence's first instant. */
  lemma FirstDayIsFirstInstant(c: Cadence, after: DateTime, at: DateTime, lo: int)
    requires ValidDateTime(after) && ValidDateTime(at) && MicroOfDay(at) == TimeOfDay(c)
    requires lo == Ordinal(after.date) + if TimeOfDay(c) > MicroOfDay(after) then 0 else 1
    requires 1 <= lo <= Ordinal(at.date) && DayMatches(c, Ordinal(at.date))
    requires forall n :: lo <= n < Ordinal(at.date) ==> !DayMatches(c, n)
    ensures IsFirstAfter(c, Instant(after), Instant(at))
  {
    InstantSplits(after);
    InstantSplits(at);
    forall t | Instant(after) < t <= Instant(at) - 1
      ensures !Matches(c, t)
    {
      assert t % MICROS_PER_DAY == TimeOfDay(c) ==> lo <= t / MICROS_PER_DAY < Ordinal(at.date);
    }
  }

  /** No matching day up to the last one: nothing left on the timeline. */
  lemma NoDayIsNoInstant(c: Cadence, after: DateTime, lo: int)
    requires ValidDateTime(after)
    requires lo == Ordinal(after.date) + if TimeOfDay(c) > MicroOfDay(after) then 0 else 1
    requires lo >= 1
    requires forall n :: lo <= n <= Ordinal(Date(MAX_YEAR, 12, 31)) ==> !DayMatches(c, n)
    ensures NoneWithin(c, Instant(after), MAX_INSTANT)
  {
    InstantSplits(after);
    InstantSplits(DateTime(Date(MAX_YEAR, 12, 31), 23, 59, 59, 999_999));
    forall t | Instant(after) < t <= MAX_INSTANT
      ensures !Matches(c, t)
    {
      assert t % MICROS_PER_DAY == TimeOfDay(c) ==> lo <= t / MICROS_PER_DAY <= Ordinal(Date(MAX_YEAR, 12, 31));
    }
  }

  lemma YearBound(n: int)
    requires n >= 1
    ensures CivilOf(n).year > MAX_YEAR <==> n > Ordinal(Date(MAX_YEAR, 12, 31))
  {
    OrdinalOfCivil(n);
    OrdinalIsMonotone(Date(MAX_YEAR, 12, 31), CivilOf(n));
  }

  /** The daily and weekly candidates: day `target` if it is in range. */
  lemma StepToDay(c: Cadence, after: DateTime, base: DateTime, k: nat, lo: int)
    requires ValidDateTime(after) && ValidDateTime(base) && MicroOfDay(base) == TimeOfDay(c)
    requires lo == Ordinal(after.date) + if TimeOfDay(c) > MicroOfDay(after) then 0 else 1
    requires 1 <= lo <= Ordinal(base.date) + k && DayMatches(c, Ordinal(base.date) + k)
    requires forall n :: lo <= n < Ordinal(base.date) + k ==> !DayMatches(c, n)
    ensures AddDays(base, k).Next? ==>
              ValidDateTime(AddDays(base, k).at) && IsFirstAfter(c, Instant(after), Instant(AddDays(base, k).at))
    ensures !AddDays(base, k).Next? ==> NoneWithin(c, Instant(after), MAX_INSTANT)
  {
    var n := Ordinal(base.date) + k;
    OrdinalOfCivil(n);
    YearBound(n);
    if AddDays(base, k).Next? {
      FirstDayIsFirstInstant(c, after, AddDays(base, k).at, lo);
    } else {
      NoDayIsNoInstant(c, after, lo);
    }
  }

  lemma BaseTime(c: Cadence, after: DateTime, base: DateTime)
    requires ValidDateTime(after)
    requires base == Base(c, after)
    ensures ValidDateTime(base) && MicroOfDay(base) == TimeOfDay(c)
    ensures Ordinal(after.date) >= 1
  {
    OrdinalIsPositive(after.date);
  }

  lemma DailyIsFirst(c: Cadence, after: DateTime)
    requires ValidDateTime(after) && c.frequency == "daily"
    ensures NextRunCorrect(c, after)
  {
    var base := Base(c, after);
    BaseTime(c, after, base);
    AtMostIsInstantOrder(base, after);
    var late := AtMost(base, after);
    CivilOfOrdinal(base.date);
    StepToDay(c, after, base, if late then 1 else 0, Ordinal(after.date) + if late then 1 else 0);
  }

  /** The gap leads to the first day with that weekday; the one after comes a week later. */
  lemma GapToWeekday(c: Cadence, n0: int, n: int)
    requires n0 <= n
    ensures n < n0 + WeekdayGap(c, n0) ==> Weekday(n) != Clamp(c.dayOfWeek, 0, 6)
    ensures n == n0 + WeekdayGap(c, n0) ==> Weekday(n) == Clamp(c.dayOfWeek, 0, 6)
    ensures WeekdayGap(c, n0) == 0 && n0 < n <= n0 + 7 ==> (Weekday(n) == Clamp(c.dayOfWeek, 0, 6) <==> n == n0 + 7)
    ensures WeekdayGap(c, n0) < 7
  {
  }

  lemma WeeklyDays(c: Cadence, n0: int)
    requires c.frequency == "weekly" && n0 >= 1
    ensures var k := WeekdayGap(c, n0);
            && k < 7 && DayMatches(c, n0 + k) && (forall n :: n0 <= n < n0 + k ==> !DayMatches(c, n))
            && (k == 0 ==> DayMatches(c, n0 + 7) && forall n :: n0 < n < n0 + 7 ==> !DayMatches(c, n))
  {
    var k := WeekdayGap(c, n0);
    GapToWeekday(c, n0, n0 + k);
    GapToWeekday(c, n0, n0 + 7);
    forall n | n0 <= n < n0 + k ensures !DayMatches(c, n) {
      GapToWeekday(c, n0, n);
    }
    if k == 0 {
      forall n | n0 < n < n0 + 7 ensures !DayMatches(c, n) {
        GapToWeekday(c, n0, n);
      }
    }
  }

  lemma LaterDayIsLater(after: DateTime, base: DateTime, k: nat)
    requires ValidDate(base.date) && base.date == after.date && k > 0 && AddDays(base, k).Next?
    ensures !AtMost(AddDays(base, k).at, after)
  {
    OrdinalIsPositive(base.date);
    OrdinalOfCivil(Ordinal(base.date) + k);
    OrdinalIsMonotone(base.date, AddDays(base, k).at.date);
  }

  /** The weekly branch moves on a week only when the candidate is today and has passed. */
  lemma WeeklyCandidate(after: DateTime, base: DateTime, gap: nat)
    requires ValidDateTime(after) && ValidDateTime(base) && base.date == after.date
    ensures WeeklyRun(gap, base, after) == AddDays(base, if gap == 0 && AtMost(base, after) then 7 else gap)
  {
    if gap == 0 {
      CivilOfOrdinal(base.date);
      assert AddDays(base, 0) == Next(base);
    } else if AddDays(base, gap).Next? {
      LaterDayIsLater(after, base, gap);
    }
  }

  /** How many days ahead the weekly branch ends up, from which day on that is the first match. */
  lemma WeeklySteps(c: Cadence, after: DateTime, base: DateTime) returns (k: nat, lo: int)
    requires ValidDateTime(after) && c.frequency == "weekly" && base == Base(c, after)
    ensures k <= 7 && ComputeNextRun(c, after) == AddDays(base, k)
    ensures lo == Ordinal(after.date) + if AtMost(base, after) then 1 else 0
    ensures 1 <= lo <= Ordinal(base.date) + k && DayMatches(c, Ordinal(base.date) + k)
    ensures forall n :: lo <= n < Ordinal(base.date) + k ==> !DayMatches(c, n)
  {
    BaseTime(c, after, base);
    var gap := WeekdayGap(c, Ordinal(base.date));
    WeeklyDays(c, Ordinal(base.date));
    WeeklyCandidate(after, base, gap);
    k := if gap == 0 && AtMost(base, after) then 7 else gap;
    lo := Ordinal(after.date) + if AtMost(base, after) then 1 else 0;
  }

  lemma WeeklyIsFirst(c: Cadence, after: DateTime)
    requires ValidDateTime(after) && c.frequency == "weekly"
    ensures NextRunCorrect(c, after)
  {
    var base := Base(c, after);
    BaseTime(c, after, base);
    var k, lo := WeeklySteps(c, after, base);
    AtMostIsInstantOrder(base, after);
    StepToDay(c, after, base, k, lo);
  }

  /** The month's one matching day, and the days of that month that are not. */
  lemma MonthlyDay(c: Cadence, d: Date, n: int)
    requires ValidDate(d) && c.frequency == "monthly"
    requires d.day == ClampedDay(c, d.year, d.month)
    requires 1 <= d.day + n - Ordinal(d) <= DaysInMonth(d.year, d.month)
    ensures n >= 1 && (DayMatches(c, n) <==> n == Ordinal(d))
  {
    SameMonth(d, n);
  }

  /** From `lo` in month (y, m) there is no match between that month's day `x`, if passed, and next month's day `z`. */
  lemma NoDayBetweenMonths(c: Cadence, x: Date, z: Date, lo: int)
    requires c.frequency == "monthly" && ValidDate(x) && ValidDate(z)
    requires x.day == ClampedDay(c, x.year, x.month)
    requires z.day == ClampedDay(c, z.year, z.month)
    requires z.(day := 1) == NextDate(x.(day := DaysInMonth(x.year, x.month)))
    requires Ordinal(x) < lo && lo >= 1
    ensures forall n :: lo <= n < Ordinal(z) ==> !DayMatches(c, n)
  {
    var last := x.(day := DaysInMonth(x.year, x.month));
    NextDateIsNextOrdinal(last);
    forall n | lo <= n < Ordinal(z)
      ensures !DayMatches(c, n)
    {
      if n <= Ordinal(last) {
        MonthlyDay(c, x, n);
      } else {
        MonthlyDay(c, z, n);
      }
    }
  }

  lemma InMonthIsValid(c: Cadence, d: Date)
    requires ValidDate(d)
    ensures ValidDate(InMonth(c, d.year, d.month)) && ValidDate(InNextMonth(c, d))
    ensures InNextMonth(c, d).(day := 1) == NextDate(InMonth(c, d.year, d.month).(day := DaysInMonth(d.year, d.month)))
  {
  }

  /** This month's day has not passed: it is the first. */
  lemma ThisMonthIsFirst(c: Cadence, after: DateTime, at: DateTime)
    requires ValidDateTime(after) && ValidDateTime(at) && c.frequency == "monthly"
    requires MicroOfDay(at) == TimeOfDay(c) && Instant(after) < Instant(at)
    requires at.date == InMonth(c, after.date.year, after.date.month)
    ensures IsFirstAfter(c, Instant(after), Instant(at))
  {
    InstantSplits(after);
    InstantSplits(at);
    var lo := Ordinal(after.date) + if TimeOfDay(c) > MicroOfDay(after) then 0 else 1;
    forall n | lo <= n <= Ordinal(at.date)
      ensures n < Ordinal(at.date) <==> !DayMatches(c, n)
    {
      MonthlyDay(c, at.date, n);
    }
    FirstDayIsFirstInstant(c, after, at, lo);
  }

  /** This month's day has passed: next month's day is the first, or nothing is left. */
  lemma NextMonthIsFirst(c: Cadence, after: DateTime, passed: DateTime)
    requires ValidDateTime(after) && ValidDateTime(passed) && c.frequency == "monthly"
    requires MicroOfDay(passed) == TimeOfDay(c) && Instant(passed) <= Instant(after)
    requires passed.date == InMonth(c, after.date.year, after.date.month)
    ensures var z := InNextMonth(c, after.date);
            if z.year <= MAX_YEAR
            then ValidDateTime(passed.(date := z)) && IsFirstAfter(c, Instant(after), Instant(passed.(date := z)))
            else NoneWithin(c, Instant(after), MAX_INSTANT)
  {
    var z := InNextMonth(c, after.date);
    InMonthIsValid(c, after.date);
    InstantSplits(after);
    InstantSplits(passed);
    var lo := Ordinal(after.date) + if TimeOfDay(c) > MicroOfDay(after) then 0 else 1;
    NoDayBetweenMonths(c, passed.date, z, lo);
    OrdinalIsMonotone(after.date, z);
    if z.year > MAX_YEAR {
      OrdinalIsMonotone(Date(MAX_YEAR, 12, 31), z);
      NoDayIsNoInstant(c, after, lo);
    } else {
      MonthlyDay(c, z, Ordinal(z));
      FirstDayIsFirstInstant(c, after, passed.(date := z), lo);
    }
  }

  lemma MonthlyIsFirst(c: Cadence, after: DateTime)
    requires ValidDateTime(after) && c.frequency == "monthly"
    ensures NextRunCorrect(c, after)
  {
    var base := Base(c, after);
    BaseTime(c, after, base);
    InMonthIsValid(c, base.date);
    var candidate := base.(date := InMonth(c, base.date.year, base.date.month));
    AtMostIsInstantOrder(candidate, after);
    if AtMost(candidate, after) {
      NextMonthIsFirst(c, after, candidate);
    } else {
      ThisMonthIsFirst(c, after, candidate);
    }
  }

  /**
   The returned time is strictly later than `after`, matches the cadence, and no matching time
   lies strictly between; without one, the frequency is unknown or nothing matches up to the
   last representable time.
   */
  lemma NextRunIsFirst(c: Cadence, after: DateTime)
    requires ValidDateTime(after)
    ensures NextRunCorrect(c, after)
  {
    if c.frequency == "daily" {
      DailyIsFirst(c, after);
    } else if c.frequency == "weekly" {
      WeeklyIsFirst(c, after);
    } else if c.frequency == "monthly" {
      MonthlyIsFirst(c, after);
    }
  }

  // ----- the same in the cadence's own fields -----

  /** The field itself if it is in range, the nearest bound otherwise. */
  predicate Nearest(value: int, field: int, lo: int, hi: int) {
    && lo <= value <= hi
    && (lo <= field <= hi ==> value == field)
    && (field < lo ==> value == lo)
    && (field > hi ==> value == hi)
  }

  /** Days since 1 January of year 1, a Monday, modulo the week. */
  function DayOfWeek(d: Date): int
    requires ValidDate(d)
  {
    (Ordinal(d) - 1) % 7
  }

  /** A time the cadence names: its hour and minute on the dot, on its weekday or its day of the month, or the last. */
  predicate Named(c: Cadence, t: DateTime)
    requires ValidDateTime(t)
  {
    && Nearest(t.hour, c.hour, 0, 23) && Nearest(t.minute, c.minute, 0, 59) && t.second == 0 && t.micro == 0
    && (c.frequency == "weekly" ==> Nearest(DayOfWeek(t.date), c.dayOfWeek, 0, 6))
    && (c.frequency == "monthly" ==> Nearest(t.date.day, c.dayOfMonth, 1, DaysInMonth(t.date.year, t.date.month)))
  }

  lemma ClampIsNearest(x: int, lo: int, hi: int, value: int)
    requires lo <= hi
    ensures value == Clamp(x, lo, hi) <==> Nearest(value, x, lo, hi)
  {
  }

  lemma TimeIsNamed(c: Cadence, t: DateTime)
    requires ValidDateTime(t)
    ensures MicroOfDay(t) == TimeOfDay(c) <==>
            Nearest(t.hour, c.hour, 0, 23) && Nearest(t.minute, c.minute, 0, 59) && t.second == 0 && t.micro == 0
  {
    ClampIsNearest(c.hour, 0, 23, t.hour);
    ClampIsNearest(c.minute, 0, 59, t.minute);
  }

  lemma WeekdayIsDayOfWeek(n: int)
    ensures Weekday(n) == (n - 1) % 7
  {
  }

  lemma ClampedIsNearest(c: Cadence, d: Date)
    requires ValidDate(d)
    ensures d.day == ClampedDay(c, d.year, d.month) <==> Nearest(d.day, c.dayOfMonth, 1, DaysInMonth(d.year, d.month))
  {
  }

  lemma DayIsNamed(c: Cadence, d: Date)
    requires ValidDate(d)
    ensures Ordinal(d) >= 1
    ensures DayMatches(c, Ordinal(d)) <==>
            if c.frequency == "weekly" then Nearest(DayOfWeek(d), c.dayOfWeek, 0, 6)
            else c.frequency == "monthly" ==> Nearest(d.day, c.dayOfMonth, 1, DaysInMonth(d.year, d.month))
  {
    CivilOfOrdinal(d);
    if c.frequency == "weekly" {
      WeekdayIsDayOfWeek(Ordinal(d));
      ClampIsNearest(c.dayOfWeek, 0, 6, DayOfWeek(d));
    } else if c.frequency == "monthly" {
      ClampedIsNearest(c, d);
    }
  }

  /** An instant matches exactly if the cadence's own fields name it. */
  lemma MatchesIff(c: Cadence, t: DateTime)
    requires ValidDateTime(t)
    ensures Matches(c, Instant(t)) <==> Named(c, t)
  {
    InstantSplits(t);
    TimeIsNamed(c, t);
    DayIsNamed(c, t.date);
  }

  /**
   What a caller gets, in the fields it gave: hour and minute are the given ones, or the nearest possible; so
   is the weekday of a weekly run and the day of a monthly one, in a month as long as it is; seconds are zero. No
   such time lies between `after` and the result, or after `after` at all if the result is past year 9999.
   */
  lemma NextRunIsNamed(c: Cadence, after: DateTime, other: DateTime)
    requires ValidDateTime(after) && ValidDateTime(other)
    ensures var r := ComputeNextRun(c, after);
            && (r.UnknownFrequency? <==> c.frequency != "daily" && c.frequency != "weekly" && c.frequency != "monthly")
            && (r.Next? ==>
                  && ValidDateTime(r.at) && Named(c, r.at) && Instant(after) < Instant(r.at)
                  && (Instant(after) < Instant(other) < Instant(r.at) ==> !Named(c, other)))
            && (r.OutOfRange? && Instant(after) < Instant(other) ==> !Named(c, other))
  {
    NextRunIsFirst(c, after);
    MatchesIff(c, other);
    if ComputeNextRun(c, after).Next? {
      MatchesIff(c, ComputeNextRun(c, after).at);
    } else if ComputeNextRun(c, after).OutOfRange? {
      InstantSplits(other);
      OrdinalIsMonotone(Date(MAX_YEAR, 12, 31), other.date);
    }
  }
}
