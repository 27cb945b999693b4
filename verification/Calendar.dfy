/**
  The proleptic Gregorian calendar as JavaScript dates use it, section 21.4.1 of ECMA-262. A day is the number of whole
  days since 1970-01-01; a month is numbered from January of year 0.
 */
module Calendar {
  import opened Options

  /** The year before the first day of `y`, in days. */
  function DayFromYear(y: int): int {
    365 * (y - 1970) + (y - 1969) / 4 - (y - 1901) / 100 + (y - 1601) / 400
  }

  predicate IsLeap(y: int) {
    y % 4 == 0 && (y % 100 != 0 || y % 400 == 0)
  }

  function DaysInYear(y: int): int {
    if IsLeap(y) then 366 else 365
  }

  function MonthLength(y: int, m: int): (length: int)
    requires 0 <= m < 12
    ensures 28 <= length <= 31
  {
    if m == 1 then if IsLeap(y) then 29 else 28
    else if m == 3 || m == 5 || m == 8 || m == 10 then 30
    else 31
  }

  /** Days of the year before month `m`. */
  function MonthStart(y: int, m: int): int
    requires 0 <= m < 12
  {
    var leap := if IsLeap(y) then 1 else 0;
    if m == 0 then 0 else if m == 1 then 31 else if m == 2 then 59 + leap else if m == 3 then 90 + leap
    else if m == 4 then 120 + leap else if m == 5 then 151 + leap else if m == 6 then 181 + leap
    else if m == 7 then 212 + leap else if m == 8 then 243 + leap else if m == 9 then 273 + leap
    else if m == 10 then 304 + leap else 334 + leap
  }

  lemma YearLength(y: int)
    ensures DayFromYear(y + 1) == DayFromYear(y) + DaysInYear(y)
  {
    StepOfQuotient(y - 1969, 4);
    StepOfQuotient(y - 1901, 100);
    StepOfQuotient(y - 1601, 400);
    assert (y - 1969 + 1) % 4 == 0 <==> y % 4 == 0;
    assert (y - 1901 + 1) % 100 == 0 <==> y % 100 == 0;
    assert (y - 1601 + 1) % 400 == 0 <==> y % 400 == 0;
  }

  lemma StepOfQuotient(a: int, k: int)
    requires k == 4 || k == 100 || k == 400
    ensures (a + 1) / k == a / k + if (a + 1) % k == 0 then 1 else 0
  {
  }

  // ------------------------------------------------------------------------------------------ months

  function MonthNumber(y: int, m: int): int {
    12 * y + m
  }

  /** The first day of a month. */
  function FirstDay(s: int): int {
    DayFromYear(s / 12) + MonthStart(s / 12, s % 12)
  }

  function LengthOf(s: int): (length: int)
    ensures 28 <= length <= 31
  {
    MonthLength(s / 12, s % 12)
  }

  /** Months follow one another without gap. */
  lemma NextMonth(s: int)
    ensures FirstDay(s + 1) == FirstDay(s) + LengthOf(s)
  {
    hide DayFromYear, IsLeap;
    if s % 12 == 11 {
      assert (s + 1) / 12 == s / 12 + 1 && (s + 1) % 12 == 0;
      YearLength(s / 12);
    } else {
      assert (s + 1) / 12 == s / 12 && (s + 1) % 12 == s % 12 + 1;
    }
  }

  lemma {:induction false} MonthsApart(s: int, t: int)
    requires s <= t
    ensures 28 * (t - s) <= FirstDay(t) - FirstDay(s) <= 31 * (t - s)
    decreases t - s
  {
    hide FirstDay, LengthOf;
    if s < t {
      MonthsApart(s, t - 1);
      NextMonth(t - 1);
    }
  }

  // ------------------------------------------------------------------------------------------- dates

  /** A day of a month: months count from January of year 0, days from 1. */
  datatype Date = Date(month: int, day: int)

  function YearOf(d: Date): int {
    d.month / 12
  }

  /** Zero is January, as in `getUTCMonth`. */
  function MonthOf(d: Date): (m: int)
    ensures 0 <= m < 12
  {
    d.month % 12
  }

  predicate IsCivil(d: Date) {
    1 <= d.day <= LengthOf(d.month)
  }

  function DayNumber(d: Date): int {
    FirstDay(d.month) + d.day - 1
  }

  predicate Earlier(a: Date, b: Date) {
    a.month < b.month || (a.month == b.month && a.day < b.day)
  }

  /** Later dates have larger day numbers, so no two dates share one. */
  lemma DayNumberIsMonotone(a: Date, b: Date)
    requires IsCivil(a) && IsCivil(b)
    ensures DayNumber(a) < DayNumber(b) <==> Earlier(a, b)
    ensures DayNumber(a) == DayNumber(b) <==> a == b
  {
    hide FirstDay, LengthOf;
    if a.month < b.month {
      NextMonth(a.month);
      MonthsApart(a.month + 1, b.month);
    } else if b.month < a.month {
      NextMonth(b.month);
      MonthsApart(b.month + 1, a.month);
    }
  }

  ghost predicate StepsUp(start: int -> int, s: int) {
    start(s) < start(s + 1)
  }

  /** The largest argument whose start is no later than `n`, sought upwards from `s`. */
  function Seek(start: int -> int, n: int, s: int): (t: int)
    requires (forall s :: StepsUp(start, s)) && start(s) <= n
    ensures start(t) <= n < start(t + 1)
    decreases n - start(s)
  {
    assert StepsUp(start, s);
    if n < start(s + 1) then s else Seek(start, n, s + 1)
  }

  lemma MonthsStepUp()
    ensures forall s :: StepsUp(FirstDay, s)
  {
    hide FirstDay;
    forall s
      ensures StepsUp(FirstDay, s)
    {
      NextMonth(s);
    }
  }

  /** A month certainly not after day `n`. */
  function EarlyMonth(n: int): int {
    if n >= 0 then MonthNumber(1970, 0) else MonthNumber(1970, 0) + n / 28
  }

  lemma EarlyMonthIsEarly(n: int)
    ensures FirstDay(EarlyMonth(n)) <= n
  {
    var s := MonthNumber(1970, 0);
    assert FirstDay(s) == 0;
    hide FirstDay;
    if n < 0 {
      MonthsApart(EarlyMonth(n), s);
    }
  }

  /** The month that holds day `n`. */
  function MonthHolding(n: int): int {
    EarlyMonthIsEarly(n);
    MonthsStepUp();
    Seek(FirstDay, n, EarlyMonth(n))
  }

  lemma MonthHolds(n: int)
    ensures FirstDay(MonthHolding(n)) <= n < FirstDay(MonthHolding(n) + 1)
  {
    hide FirstDay;
    EarlyMonthIsEarly(n);
    MonthsStepUp();
  }

  /** The date of a day number: the largest month that starts no later, and the days into it. */
  function CivilOf(n: int): Date {
    Date(MonthHolding(n), n - FirstDay(MonthHolding(n)) + 1)
  }

  /** Every day number is that of a civil date. */
  lemma CivilExists(n: int)
    ensures IsCivil(CivilOf(n)) && DayNumber(CivilOf(n)) == n
  {
    hide FirstDay, LengthOf, MonthHolding;
    MonthHolds(n);
    NextMonth(MonthHolding(n));
  }

  /** Day numbers and civil dates correspond one to one. */
  lemma CivilIsUnique(d: Date)
    requires IsCivil(d)
    ensures CivilOf(DayNumber(d)) == d
  {
    hide CivilOf, DayNumber, IsCivil;
    CivilExists(DayNumber(d));
    DayNumberIsMonotone(CivilOf(DayNumber(d)), d);
  }

  // ---------------------------------------------------------------------------------------- Date.UTC

  const MAX_DAY := 100_000_000
  const DAY_MS := 86_400_000

  /** TimeClip at midnight: a hundred million days either way of 1970. */
  predicate IsInRange(n: int) {
    -MAX_DAY <= n <= MAX_DAY
  }

  /** A day is in range exactly when its midnight is a time value: section 21.4.1.1 of ECMA-262. */
  lemma RangeIsThatOfTimeValues(n: int)
    ensures IsInRange(n) <==> -8_640_000_000_000_000 <= n * DAY_MS <= 8_640_000_000_000_000
    ensures forall ms | n * DAY_MS <= ms < (n + 1) * DAY_MS :: DayOf(ms) == n
  {
  }

  /** `Date.UTC(year, month, day)` with integral arguments; years 0 to 99 mean 1900 to 1999. */
  function DateUTC(year: int, month: int, day: int): Option<int> {
    var n := DayNumber(Date(MonthNumber(if 0 <= year <= 99 then 1900 + year else year, 0) + month, day));
    if IsInRange(n) then Some(n) else None
  }

  predicate IsTwoDigit(year: int) {
    0 <= year <= 99
  }

  /** The day of an instant in milliseconds. */
  function DayOf(ms: int): int {
    ms / DAY_MS
  }
}
