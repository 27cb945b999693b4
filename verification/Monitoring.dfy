/**
  Clamped month arithmetic and the warning windows of collateral monitoring (src/utils/collateral-monitoring.js). A date
  value is its day number, or nothing when it is missing or invalid.
 */
module Monitoring {
  import opened Options
  import opened Calendar

  /** `toUtcDateOnly` of a valid date on day `n`: the parts go through `Date.UTC`. */
  function OnDay(n: int): Option<int> {
    var d := CivilOf(n);
    DateUTC(YearOf(d), MonthOf(d), d.day)
  }

  /** `toUtcDateOnly` of an instant. */
  function ToUtcDateOnly(ms: Option<int>): Option<int> {
    if ms.None? then None else OnDay(DayOf(ms.value))
  }

  /** `addMonthsClamped`: an invalid last day of the month makes the whole result invalid. */
  function AddMonthsClamped(value: Option<int>, months: int): Option<int> {
    if value.None? || OnDay(value.value).None? then None
    else
      var date := CivilOf(OnDay(value.value).value);
      var targetMonth := MonthOf(date) + months;
      ClampedUTC(YearOf(date) + targetMonth / 12, targetMonth % 12, date.day)
  }

  function ClampedUTC(targetYear: int, normalizedMonth: int, day: int): Option<int> {
    match DateUTC(targetYear, normalizedMonth + 1, 0)
    case None => None
    case Some(last) =>
      var lastDay := CivilOf(last).day;
      DateUTC(targetYear, normalizedMonth, if day < lastDay then day else lastDay)
  }

  /** The same day of the month `months` later, or that month's last day if it is shorter. */
  function Clamped(d: Date, months: int): Date {
    var length := LengthOf(d.month + months);
    Date(d.month + months, if d.day < length then d.day else length)
  }

  // ------------------------------------------------------------------------ the code against the ideal

  predicate IsTwoDigitMonth(s: int) {
    IsTwoDigit(s / 12)
  }

  lemma OnDayIsIdentity(n: int)
    requires !IsTwoDigitMonth(CivilOf(n).month) && IsInRange(n)
    ensures OnDay(n) == Some(n)
  {
    hide CivilOf, FirstDay, LengthOf;
    CivilExists(n);
  }

  /** Years 0 to 99 move 1900 years ahead; the 29th of February of year 0 becomes a 1st of March. */
  lemma OnDayMovesTwoDigits(n: int)
    requires IsTwoDigitMonth(CivilOf(n).month)
    ensures OnDay(n).Some? ==>
      CivilOf(n).month + 22800 <= CivilOf(OnDay(n).value).month && !IsTwoDigitMonth(CivilOf(OnDay(n).value).month)
  {
    hide CivilOf, FirstDay, LengthOf;
    CivilExists(n);
    var d := CivilOf(n);
    var moved := Date(d.month + 22800, d.day);
    if OnDay(n).Some? {
      assert OnDay(n).value == DayNumber(moved);
      CivilExists(DayNumber(moved));
      NextMonth(moved.month);
      NotBefore(DayNumber(moved), moved.month);
      NotAfter(DayNumber(moved), moved.month + 1);
    }
  }

  lemma NotBefore(n: int, s: int)
    requires FirstDay(s) <= n
    ensures s <= CivilOf(n).month
  {
    hide CivilOf, FirstDay, LengthOf;
    CivilExists(n);
    if CivilOf(n).month < s {
      NextMonth(CivilOf(n).month);
      MonthsApart(CivilOf(n).month + 1, s);
    }
  }

  lemma NotAfter(n: int, s: int)
    requires n < FirstDay(s) + 28
    ensures CivilOf(n).month <= s
  {
    hide CivilOf, FirstDay, LengthOf;
    CivilExists(n);
    if s < CivilOf(n).month {
      MonthsApart(s, CivilOf(n).month);
    }
  }

  lemma LastDayOfMonth(s: int)
    ensures DayNumber(Date(s + 1, 0)) == DayNumber(Date(s, LengthOf(s)))
      && CivilOf(DayNumber(Date(s + 1, 0))) == Date(s, LengthOf(s))
  {
    NextMonth(s);
    assert IsCivil(Date(s, LengthOf(s)));
    hide CivilOf, FirstDay, LengthOf;
    CivilIsUnique(Date(s, LengthOf(s)));
  }

  /** The month the code lands in: years 0 to 99 are taken for 1900 to 1999. */
  function Landed(s: int): int {
    if IsTwoDigitMonth(s) then s + 22800 else s
  }

  lemma ClampedUTCIs(year: int, month: int, day: int)
    requires 0 <= month < 12
    ensures var s := Landed(MonthNumber(year, month));
      var t := Date(s, if day < LengthOf(s) then day else LengthOf(s));
      ClampedUTC(year, month, day)
      == if IsInRange(DayNumber(Date(s, LengthOf(s)))) && IsInRange(DayNumber(t)) then Some(DayNumber(t)) else None
  {
    hide CivilOf, FirstDay, LengthOf;
    LastDayOfMonth(Landed(MonthNumber(year, month)));
  }

  /** What the code computes, for every start and every number of months. */
  lemma AddMonthsIs(n: int, months: int)
    requires OnDay(n).Some?
    ensures var start := CivilOf(OnDay(n).value);
      var s := Landed(start.month + months);
      var t := Date(s, if start.day < LengthOf(s) then start.day else LengthOf(s));
      AddMonthsClamped(Some(n), months)
      == if IsInRange(DayNumber(Date(s, LengthOf(s)))) && IsInRange(DayNumber(t)) then Some(DayNumber(t)) else None
  {
    hide CivilOf, LengthOf, OnDay, DayNumber, ClampedUTC, Landed;
    var start := CivilOf(OnDay(n).value);
    var targetMonth := MonthOf(start) + months;
    ClampedUTCIs(YearOf(start) + targetMonth / 12, targetMonth % 12, start.day);
    assert MonthNumber(YearOf(start) + targetMonth / 12, targetMonth % 12) == start.month + months;
  }

  /** The whole month is representable. */
  predicate FitsRange(t: Date) {
    IsInRange(DayNumber(t)) && IsInRange(DayNumber(Date(t.month, LengthOf(t.month))))
  }

  /**
    The code adds months as the calendar does exactly when neither the start nor the target lies in years 0 to 99 and
    the target month stays in the range of time values.
   */
  lemma AddsLikeTheCalendarExactly(n: int, months: int)
    requires IsInRange(n)
    ensures var d := CivilOf(n);
      AddMonthsClamped(Some(n), months) == Some(DayNumber(Clamped(d, months)))
      <==> !IsTwoDigitMonth(d.month) && !IsTwoDigitMonth(d.month + months) && FitsRange(Clamped(d, months))
  {
    hide CivilOf, FirstDay, LengthOf, AddMonthsClamped, DayNumber;
    var d := CivilOf(n);
    if IsTwoDigitMonth(d.month) {
      OnDayMovesTwoDigits(n);
      if OnDay(n).Some? {
        AddMonthsIs(n, months);
        CivilExists(n);
        CivilExists(OnDay(n).value);
        assert 1 <= d.day && 1 <= CivilOf(OnDay(n).value).day;
        MovedIsLater(CivilOf(OnDay(n).value), d, months);
      } else {
        NothingToAdd(n, months);
      }
    } else {
      OnDayIsIdentity(n);
      AddMonthsIs(n, months);
      hide OnDay;
      CivilExists(n);
      if IsTwoDigitMonth(d.month + months) {
        MovedIsLater(d, d, months);
      }
    }
  }

  lemma NothingToAdd(n: int, months: int)
    requires OnDay(n).None?
    ensures AddMonthsClamped(Some(n), months) == None
  {
  }

  /** Landing in a later month gives a later day. */
  lemma MovedIsLater(start: Date, d: Date, months: int)
    requires start.month >= d.month && start.day >= 1 && d.day >= 1
    requires Landed(start.month + months) > d.month + months
    ensures var s := Landed(start.month + months);
      DayNumber(Date(s, if start.day < LengthOf(s) then start.day else LengthOf(s))) != DayNumber(Clamped(d, months))
  {
    var s := Landed(start.month + months);
    NextMonth(d.month + months);
    hide FirstDay, LengthOf;
    MonthsApart(d.month + months + 1, s);
  }

  // ----------------------------------------------------------------------------- laws of month addition

  /** Where a date goes in the month the code lands in. */
  function Moved(d: Date, months: int): Date {
    var s := Landed(d.month + months);
    Date(s, if d.day < LengthOf(s) then d.day else LengthOf(s))
  }

  /** Whatever the years: what an addition that succeeds returns. */
  lemma AdditionLands(n: int, months: int, r: int)
    requires OnDay(n).Some? && AddMonthsClamped(Some(n), months) == Some(r)
    ensures var d := CivilOf(OnDay(n).value); IsCivil(d) && DayNumber(d) == OnDay(n).value && IsCivil(Moved(d, months))
    ensures var d := CivilOf(OnDay(n).value); r == DayNumber(Moved(d, months)) && CivilOf(r) == Moved(d, months)
    ensures IsInRange(r)
  {
    hide CivilOf, LengthOf, OnDay, AddMonthsClamped, DayNumber, Landed;
    AddMonthsIs(n, months);
    CivilExists(OnDay(n).value);
    CivilIsUnique(Moved(CivilOf(OnDay(n).value), months));
  }

  /**
    The target of `d` lies in years 0 to 99 and that of the later `e` after them, but `e` is less than 1900 years later;
    or exactly 1900 years, and on a day of that month before the day of `d`.
   */
  predicate JumpsAhead(d: Date, e: Date, months: int) {
    && IsTwoDigitMonth(d.month + months) && !IsTwoDigitMonth(e.month + months)
    && (|| e.month < d.month + 22800
        || (e.month == d.month + 22800 && e.day < d.day && e.day < LengthOf(e.month + months)))
  }

  /** The same addition keeps the order of two dates exactly unless one of them is taken for a date 1900 years later. */
  lemma AdditionIsMonotone(a: int, b: int, months: int, x: int, y: int)
    requires OnDay(a).Some? && OnDay(b).Some? && OnDay(a).value <= OnDay(b).value
    requires AddMonthsClamped(Some(a), months) == Some(x) && AddMonthsClamped(Some(b), months) == Some(y)
    ensures x <= y <==> !JumpsAhead(CivilOf(OnDay(a).value), CivilOf(OnDay(b).value), months)
  {
    hide CivilOf, LengthOf, OnDay, AddMonthsClamped, DayNumber;
    AdditionLands(a, months, x);
    AdditionLands(b, months, y);
    var d, e := CivilOf(OnDay(a).value), CivilOf(OnDay(b).value);
    DayNumberIsMonotone(e, d);
    DayNumberIsMonotone(Moved(e, months), Moved(d, months));
  }

  /**
    More months give a strictly later date exactly unless fewer lead into years 0 to 99 and more not past where those
    land.
   */
  lemma MoreMonthsAreLater(n: int, few: int, many: int, x: int, y: int)
    requires few < many && OnDay(n).Some?
    requires AddMonthsClamped(Some(n), few) == Some(x) && AddMonthsClamped(Some(n), many) == Some(y)
    ensures var month := CivilOf(OnDay(n).value).month;
      x < y <==> !(IsTwoDigitMonth(month + few) && !IsTwoDigitMonth(month + many) && many - few <= 22800)
  {
    hide CivilOf, LengthOf, OnDay, AddMonthsClamped, DayNumber;
    AdditionLands(n, few, x);
    AdditionLands(n, many, y);
    var d := CivilOf(OnDay(n).value);
    DayNumberIsMonotone(Moved(d, few), Moved(d, many));
  }

  /**
    There and back never ends after the start exactly when neither the start nor the target lies in years 0 to 99; it
    then ends on the start exactly when the day was not clamped.
   */
  lemma ThereAndBack(n: int, months: int, there: int, back: int)
    requires IsInRange(n) && AddMonthsClamped(Some(n), months) == Some(there)
      && AddMonthsClamped(Some(there), -months) == Some(back)
    ensures var d := CivilOf(n);
      && (back <= n <==> !IsTwoDigitMonth(d.month) && !IsTwoDigitMonth(d.month + months))
      && (back == n <==> back <= n && d.day <= LengthOf(d.month + months))
  {
    hide CivilOf, LengthOf, OnDay, AddMonthsClamped, DayNumber;
    SomethingToAdd(n, months);
    SomethingToAdd(there, -months);
    AdditionLands(n, months, there);
    CivilExists(n);
    var d, start := CivilOf(n), CivilOf(OnDay(n).value);
    var t := Moved(start, months);
    OnDayIsIdentity(there);
    AdditionLands(there, -months, back);
    if IsTwoDigitMonth(d.month) {
      OnDayMovesTwoDigits(n);
    } else {
      OnDayIsIdentity(n);
    }
    DayNumberIsMonotone(d, Moved(t, -months));
  }

  lemma SomethingToAdd(n: int, months: int)
    requires AddMonthsClamped(Some(n), months).Some?
    ensures OnDay(n).Some?
  {
    hide OnDay, ClampedUTC, CivilOf;
  }

  lemma Lengths(s: int)
    ensures 59 <= LengthOf(s - 2) + LengthOf(s - 1) <= 62
    ensures 89 <= LengthOf(s - 3) + LengthOf(s - 2) + LengthOf(s - 1) <= 92
    ensures LengthOf(s) > LengthOf(s - 2) ==>
      59 <= LengthOf(s - 1) + LengthOf(s - 2) && LengthOf(s - 1) + LengthOf(s) <= 62
    ensures LengthOf(s) > LengthOf(s - 3) ==>
      && 89 <= LengthOf(s - 3) + LengthOf(s - 2) + LengthOf(s - 1)
      && LengthOf(s - 2) + LengthOf(s - 1) + LengthOf(s) <= 92
  {
    var y, m := s / 12, s % 12;
    hide IsLeap;
    assert s == 12 * y + m;
    assert if m >= 1 then (s - 1) / 12 == y && (s - 1) % 12 == m - 1 else (s - 1) / 12 == y - 1 && (s - 1) % 12 == 11;
    assert if m >= 2 then (s - 2) / 12 == y && (s - 2) % 12 == m - 2
      else (s - 2) / 12 == y - 1 && (s - 2) % 12 == m + 10;
    assert if m >= 3 then (s - 3) / 12 == y && (s - 3) % 12 == m - 3
      else (s - 3) / 12 == y - 1 && (s - 3) % 12 == m + 9;
  }

  lemma DistanceBack(d: Date, months: int)
    requires months == 2 || months == 3
    ensures DayNumber(d) - DayNumber(Clamped(d, -months))
      == (if months == 3 then LengthOf(d.month - 3) else 0) + LengthOf(d.month - 2) + LengthOf(d.month - 1)
         + (if d.day < LengthOf(d.month - months) then 0 else d.day - LengthOf(d.month - months))
  {
    hide FirstDay, LengthOf;
    NextMonth(d.month - 3);
    NextMonth(d.month - 2);
    NextMonth(d.month - 1);
  }

  /**
    The warning of two months starts 59 to 62 days ahead, that of three months 89 to 92, exactly unless its month lies
    in years 0 to 99, when it starts after the date.
   */
  lemma WarningWindows(n: int, months: int, warning: int)
    requires months == 2 || months == 3
    requires OnDay(n) == Some(n) && AddMonthsClamped(Some(n), -months) == Some(warning)
    ensures (if months == 2 then 59 <= n - warning <= 62 else 89 <= n - warning <= 92)
      <==> !IsTwoDigitMonth(CivilOf(n).month - months)
    ensures IsTwoDigitMonth(CivilOf(n).month - months) ==> n < warning
  {
    hide CivilOf, LengthOf, OnDay, AddMonthsClamped, DayNumber;
    AdditionLands(n, -months, warning);
    var d := CivilOf(n);
    if IsTwoDigitMonth(d.month - months) {
      DayNumberIsMonotone(d, Moved(d, -months));
    } else {
      assert Moved(d, -months) == Clamped(d, -months);
      DistanceBack(d, months);
      Lengths(d.month);
    }
  }

  // -------------------------------------------------------------------------------------- monitoring

  datatype Status = Current | DueSoon | Overdue

  /** Missing dates give no status; the two families of labels differ only in their names. */
  function StatusByCalendarWindow(dueDate: Option<int>, warningStartDate: Option<int>,
                                  now: Option<int>): Option<Status> {
    var due := if dueDate.Some? then OnDay(dueDate.value) else None;
    var warningStart := if warningStartDate.Some? then OnDay(warningStartDate.value) else None;
    var today := ToUtcDateOnly(now);
    if due.None? || warningStart.None? || today.None? then None
    else if today.value >= due.value then Some(Overdue)
    else if today.value >= warningStart.value then Some(DueSoon)
    else Some(Current)
  }

  function DaysUntil(target: Option<int>, now: Option<int>): Option<int> {
    var targetDate := if target.Some? then OnDay(target.value) else None;
    var today := ToUtcDateOnly(now);
    if targetDate.None? || today.None? then None else Some(targetDate.value - today.value)
  }

  /** Appraisal: NOT_AVAILABLE without status, OVERDUE. Expiry: NOT_SET without status, EXPIRED. */
  datatype Monitored = Monitored(
    appraisalDue: Option<int>, appraisalWarning: Option<int>, appraisalStatus: Option<Status>,
    appraisalDays: Option<int>,
    expiry: Option<int>, expiryWarning: Option<int>, expiryStatus: Option<Status>, expiryDays: Option<int>)

  function BuildMonitoring(hasExpiryDate: bool, expiryDate: Option<int>, now: Option<int>): Monitored {
    var due := if hasExpiryDate then ToUtcDateOnly(expiryDate) else None;
    var appraisalWarning := AddMonthsClamped(due, -2);
    var expiryWarning := AddMonthsClamped(due, -3);
    Monitored(
      due, appraisalWarning,
      if hasExpiryDate then StatusByCalendarWindow(due, appraisalWarning, now) else None,
      DaysUntil(due, now),
      due, expiryWarning,
      if hasExpiryDate then StatusByCalendarWindow(due, expiryWarning, now) else None,
      if hasExpiryDate then DaysUntil(due, now) else None)
  }

  function Rank(status: Option<Status>): int {
    match status
    case None => -1
    case Some(Current) => 0
    case Some(DueSoon) => 1
    case Some(Overdue) => 2
  }

  lemma LeapDayAtMost(s: int)
    ensures LengthOf(s) <= LengthOf(s + 22800) + 1
  {
    assert (s + 22800) % 12 == s % 12;
  }

  /** Where the code puts a day of years 0 to 99. */
  lemma LandedDay(n: int)
    requires IsInRange(n) && IsTwoDigitMonth(CivilOf(n).month)
    ensures var d := CivilOf(n);
      IsCivil(d) && DayNumber(d) == n && OnDay(n) == Some(DayNumber(Date(d.month + 22800, d.day)))
  {
    hide CivilOf, FirstDay, LengthOf;
    CivilExists(n);
    TwentiethCentury(CivilOf(n).month + 22800, CivilOf(n).day);
  }

  /** The first day lies in years 0 to 99, and the second after them but before where the code puts the first. */
  predicate IsOvertaken(a: int, b: int)
    requires OnDay(a).Some?
  {
    IsTwoDigitMonth(CivilOf(a).month) && !IsTwoDigitMonth(CivilOf(b).month) && b < OnDay(a).value
  }

  /** Reading days keeps their order exactly unless the earlier is overtaken. */
  lemma DaysKeepOrder(a: int, b: int)
    requires IsInRange(a) && IsInRange(b) && a <= b
    ensures OnDay(a).Some? && OnDay(b).Some?
    ensures OnDay(a).value <= OnDay(b).value <==> !IsOvertaken(a, b)
  {
    hide CivilOf, FirstDay, LengthOf, OnDay;
    CivilExists(a);
    CivilExists(b);
    var d, e := CivilOf(a), CivilOf(b);
    DayNumberIsMonotone(e, d);
    if IsTwoDigitMonth(d.month) {
      LandedDay(a);
    } else {
      OnDayIsIdentity(a);
    }
    if IsTwoDigitMonth(e.month) {
      LandedDay(b);
      if IsTwoDigitMonth(d.month) {
        LeapDayAtMost(d.month);
        if d.month < e.month {
          NextMonth(d.month + 22800);
          MonthsApart(d.month + 22801, e.month + 22800);
        }
      } else {
        MonthsApart(e.month, e.month + 22800);
      }
    } else {
      OnDayIsIdentity(b);
    }
  }

  ghost predicate MoveForward(early: int, late: int) {
    forall hasExpiryDate, expiryDate ::
      StatusesAdvance(BuildMonitoring(hasExpiryDate, expiryDate, Some(early)),
                      BuildMonitoring(hasExpiryDate, expiryDate, Some(late)))
  }

  predicate StatusesAdvance(a: Monitored, b: Monitored) {
    Rank(a.appraisalStatus) <= Rank(b.appraisalStatus) && Rank(a.expiryStatus) <= Rank(b.expiryStatus)
  }

  /**
    From one moment to a later one both statuses of every record only move forward, exactly unless the earlier moment
    lies in years 0 to 99 and is taken for a day after the later one.
   */
  lemma StatusesMoveForward(early: int, late: int)
    requires early <= late && IsInRange(DayOf(early)) && IsInRange(DayOf(late))
    ensures OnDay(DayOf(early)).Some?
    ensures MoveForward(early, late) <==> !IsOvertaken(DayOf(early), DayOf(late))
  {
    hide CivilOf, OnDay, AddMonthsClamped, IsTwoDigitMonth, IsOvertaken;
    assert DayOf(early) <= DayOf(late);
    DaysKeepOrder(DayOf(early), DayOf(late));
    var t := OnDay(DayOf(early)).value;
    if IsOvertaken(DayOf(early), DayOf(late)) {
      Overtaking(DayOf(early), DayOf(late));
      assert DayOf(t * DAY_MS) == t;
      hide IsInRange;
      var a, b := BuildMonitoring(true, Some(t * DAY_MS), Some(early)),
        BuildMonitoring(true, Some(t * DAY_MS), Some(late));
      assert a.expiryStatus == Some(Overdue) && b.expiryStatus != Some(Overdue);
      assert !StatusesAdvance(a, b);
    } else {
      forall hasExpiryDate, expiryDate
        ensures StatusesAdvance(BuildMonitoring(hasExpiryDate, expiryDate, Some(early)),
                                BuildMonitoring(hasExpiryDate, expiryDate, Some(late)))
      {
        Advance(hasExpiryDate, expiryDate, early, late);
      }
    }
  }

  lemma Advance(hasExpiryDate: bool, expiryDate: Option<int>, early: int, late: int)
    requires OnDay(DayOf(early)).Some? && OnDay(DayOf(late)).Some?
      && OnDay(DayOf(early)).value <= OnDay(DayOf(late)).value
    ensures StatusesAdvance(BuildMonitoring(hasExpiryDate, expiryDate, Some(early)),
                            BuildMonitoring(hasExpiryDate, expiryDate, Some(late)))
  {
    hide OnDay, AddMonthsClamped;
  }

  /** The day the earlier moment is taken for: it is kept, and so is its expiry warning. */
  lemma Overtaking(a: int, b: int)
    requires IsInRange(a) && OnDay(a).Some? && IsOvertaken(a, b)
    ensures var t := OnDay(a).value;
      && IsInRange(t) && OnDay(t) == Some(t) && b < t && (IsInRange(b) ==> OnDay(b) == Some(b))
      && AddMonthsClamped(Some(t), -3).Some? && OnDay(AddMonthsClamped(Some(t), -3).value).Some?
  {
    hide CivilOf, FirstDay, LengthOf, OnDay, AddMonthsClamped;
    var t := OnDay(a).value;
    OnDayIsNeverTwoDigit(a);
    OnDayIsIdentity(t);
    LandedDay(a);
    var d := CivilOf(a);
    NotBefore(t, d.month + 22800);
    MarchAtMost(d.month, d.day, t);
    AddMonthsIs(t, -3);
    var s := CivilOf(t).month - 3;
    CivilExists(t);
    TwentiethCentury(s, LengthOf(s));
    TwentiethCentury(s, if CivilOf(t).day < LengthOf(s) then CivilOf(t).day else LengthOf(s));
    ShiftedIsKept(t, -3, AddMonthsClamped(Some(t), -3).value);
    if IsInRange(b) {
      OnDayIsIdentity(b);
    }
  }

  lemma MarchAtMost(month: int, day: int, t: int)
    requires 1 <= day <= LengthOf(month) && t == DayNumber(Date(month + 22800, day))
    ensures CivilOf(t).month <= month + 22801
  {
    hide CivilOf, FirstDay, LengthOf;
    LeapDayAtMost(month);
    NextMonth(month + 22800);
    NotAfter(t, month + 22801);
  }

  /** Where both statuses exist, overdue, expired and no days remaining are the same thing. */
  lemma OverdueIsExpired(hasExpiryDate: bool, expiryDate: Option<int>, now: Option<int>)
    ensures var m := BuildMonitoring(hasExpiryDate, expiryDate, now);
      m.appraisalStatus.Some? && m.expiryStatus.Some? ==>
        && (m.appraisalStatus == Some(Overdue) <==> m.expiryStatus == Some(Overdue))
        && m.expiryDays.Some? && m.appraisalDays == m.expiryDays
        && (m.expiryStatus == Some(Overdue) <==> m.expiryDays.value <= 0)
  {
    hide OnDay, AddMonthsClamped;
  }

  // --------------------------------------------------------------- which warning starts first, exactly

  lemma OnDayIsNeverTwoDigit(n: int)
    requires IsInRange(n)
    ensures OnDay(n).Some? ==> !IsTwoDigitMonth(CivilOf(OnDay(n).value).month) && IsInRange(OnDay(n).value)
  {
    hide CivilOf;
    if IsTwoDigitMonth(CivilOf(n).month) {
      OnDayMovesTwoDigits(n);
    } else {
      OnDayIsIdentity(n);
    }
  }

  /** A shifted date is a date `OnDay` keeps. */
  lemma ShiftedIsKept(n: int, months: int, r: int)
    requires AddMonthsClamped(Some(n), months) == Some(r) && IsInRange(n) && OnDay(n).Some?
    ensures OnDay(r) == Some(r)
  {
    hide CivilOf, LengthOf, OnDay, AddMonthsClamped, DayNumber;
    AddMonthsIs(n, months);
    var start := CivilOf(OnDay(n).value);
    CivilExists(OnDay(n).value);
    var s := Landed(start.month + months);
    var t := Date(s, if start.day < LengthOf(s) then start.day else LengthOf(s));
    CivilIsUnique(t);
    OnDayIsIdentity(DayNumber(t));
  }

  lemma EpochMonth()
    ensures FirstDay(23640) == 0
  {
  }

  /** Years 1900 to 1999, and months just around them, lie well inside the range of time values. */
  lemma TwentiethCentury(s: int, day: int)
    requires 22790 <= s <= 24000 && 1 <= day <= 31
    ensures IsInRange(DayNumber(Date(s, day)))
  {
    hide FirstDay, LengthOf;
    EpochMonth();
    if s <= 23640 {
      MonthsApart(s, 23640);
    } else {
      MonthsApart(23640, s);
    }
  }

  /** April of the year -271821, whose 20th day is the first there is. */
  const FIRST_MONTH := -3_261_849

  lemma FirstDays()
    ensures DayNumber(Date(FIRST_MONTH, 20)) == -MAX_DAY
    ensures DayNumber(Date(FIRST_MONTH + 2, 20)) == -MAX_DAY + 61
    ensures DayNumber(Date(FIRST_MONTH + 3, 20)) == -MAX_DAY + 91
  {
    var y := FIRST_MONTH / 12;
    assert y == -271821 && FIRST_MONTH % 12 == 3 && !IsLeap(y);
    assert DayFromYear(y) == -MAX_DAY - 109;
    assert MonthStart(y, 3) == 90;
    assert FirstDay(FIRST_MONTH) == -MAX_DAY - 19;
    assert (FIRST_MONTH + 1) / 12 == y && (FIRST_MONTH + 1) % 12 == 4;
    assert (FIRST_MONTH + 2) / 12 == y && (FIRST_MONTH + 2) % 12 == 5;
    assert LengthOf(FIRST_MONTH) == 30 && LengthOf(FIRST_MONTH + 1) == 31 && LengthOf(FIRST_MONTH + 2) == 30;
    hide FirstDay, LengthOf;
    NextMonth(FIRST_MONTH);
    NextMonth(FIRST_MONTH + 1);
    NextMonth(FIRST_MONTH + 2);
  }

  /** The first date whose warning of so many months exists. */
  function FirstWarned(months: int): int {
    -MAX_DAY + if months == 2 then 61 else 91
  }

  lemma FarFromTheEdge()
    ensures -MAX_DAY + 91 <= FirstDay(1200)
  {
    hide FirstDay, LengthOf;
    EpochMonth();
    MonthsApart(1200, 23640);
  }

  /** Only at the lower end of the range of time values a warning does not exist. */
  lemma WarningExists(n: int, months: int)
    requires months == 2 || months == 3
    requires IsInRange(n) && !IsTwoDigitMonth(CivilOf(n).month)
    ensures AddMonthsClamped(Some(n), -months).Some? <==> FirstWarned(months) <= n
  {
    hide CivilOf, FirstDay, LengthOf, OnDay, AddMonthsClamped;
    var d := CivilOf(n);
    var s := d.month - months;
    OnDayIsIdentity(n);
    AddMonthsIs(n, -months);
    CivilExists(n);
    if IsTwoDigitMonth(s) {
      TwentiethCentury(s + 22800, Moved(d, -months).day);
      TwentiethCentury(s + 22800, LengthOf(s + 22800));
      FarFromTheEdge();
      MonthsApart(1200, d.month);
    } else {
      NextMonth(s);
      MonthsApart(s + 1, d.month);
      FirstDays();
      DayNumberIsMonotone(Moved(d, -months), Date(FIRST_MONTH, 20));
      DayNumberIsMonotone(d, Date(FIRST_MONTH + months, 20));
    }
  }

  /** Both warning starts of a due date. */
  lemma WarningsAre(n: int)
    requires IsInRange(n) && !IsTwoDigitMonth(CivilOf(n).month) && AddMonthsClamped(Some(n), -3).Some?
    ensures var d := CivilOf(n);
      && AddMonthsClamped(Some(n), -3) == Some(DayNumber(Moved(d, -3)))
      && AddMonthsClamped(Some(n), -2) == Some(DayNumber(Moved(d, -2)))
      && IsCivil(d) && DayNumber(d) == n && IsCivil(Moved(d, -3)) && IsCivil(Moved(d, -2))
  {
    hide CivilOf, LengthOf, OnDay, AddMonthsClamped, DayNumber, IsInRange, IsTwoDigitMonth, Landed;
    var d := CivilOf(n);
    OnDayIsIdentity(n);
    AddMonthsIs(n, -3);
    AddMonthsIs(n, -2);
    CivilExists(n);
    WarningExists(n, 2);
    WarningExists(n, 3);
  }

  /** March of year 100: two months earlier is still year 100, three months earlier is year 99, taken for 1999. */
  const MARCH_100 := 1202

  lemma WarningOrder(d: Date)
    requires IsCivil(d) && !IsTwoDigitMonth(d.month)
    ensures d.month != MARCH_100 ==>
      DayNumber(Moved(d, -3)) <= DayNumber(Moved(d, -2)) || DayNumber(d) < DayNumber(Moved(d, -2))
    ensures d.month == MARCH_100 ==>
      DayNumber(Moved(d, -2)) < DayNumber(d) - 1 && DayNumber(d) <= DayNumber(Moved(d, -3))
  {
    hide FirstDay, LengthOf;
    var s := d.month - 2;
    if IsTwoDigitMonth(s) {
      NextMonth(d.month);
      MonthsApart(d.month + 1, s + 22800);
    } else if IsTwoDigitMonth(s - 1) {
      assert s == 1200 && d.month == MARCH_100;
      NextMonth(s);
      NextMonth(s + 1);
      NextMonth(s + 2);
      MonthsApart(s + 3, s - 1 + 22800);
    } else {
      NextMonth(s - 1);
    }
  }

  lemma StatusAt(n: int, warning: int, t: int)
    requires OnDay(n) == Some(n) && OnDay(warning) == Some(warning) && OnDay(t) == Some(t)
    ensures StatusByCalendarWindow(Some(n), Some(warning), Some(t * DAY_MS))
      == Some(if t >= n then Overdue else if t >= warning then DueSoon else Current)
  {
    hide OnDay;
    assert DayOf(t * DAY_MS) == t;
  }

  /** The thirty days at the lower end of the range of time values that have one warning but not the other. */
  predicate HasOneWarning(n: int) {
    FirstWarned(2) <= n < FirstWarned(3)
  }

  ghost predicate CarriesOver(expiryDate: int) {
    forall now: Option<int> ::
      var m := BuildMonitoring(true, Some(expiryDate), now);
      m.appraisalStatus == Some(DueSoon) ==> m.expiryStatus == Some(DueSoon)
  }

  /**
    A collateral due for re-appraisal soon is always also due to expire soon, for every moment, exactly when its expiry
    date is not in March of year 100 and not one of the thirty days that only have the shorter warning.
   */
  lemma AppraisalWarningComesLater(expiryDate: int, n: int)
    requires IsInRange(DayOf(expiryDate)) && ToUtcDateOnly(Some(expiryDate)) == Some(n)
    ensures CarriesOver(expiryDate) <==> CivilOf(n).month != MARCH_100 && !HasOneWarning(n)
  {
    hide CivilOf, OnDay, AddMonthsClamped, IsTwoDigitMonth;
    OnDayIsNeverTwoDigit(DayOf(expiryDate));
    OnDayIsIdentity(n);
    WarningExists(n, 2);
    WarningExists(n, 3);
    if HasOneWarning(n) {
      OneWarningParts(expiryDate, n);
    } else if n < FirstWarned(2) {
      MarchIsLater(n);
      NoneCarriesOver(expiryDate, n);
    } else {
      BothWarnings(expiryDate, n);
    }
  }

  lemma MarchIsLater(n: int)
    requires n < FirstWarned(3)
    ensures CivilOf(n).month < 0
  {
    hide CivilOf, FirstDay, LengthOf;
    CivilExists(n);
    FirstDays();
    DayNumberIsMonotone(CivilOf(n), Date(FIRST_MONTH + 3, 20));
  }

  lemma NoneCarriesOver(expiryDate: int, n: int)
    requires ToUtcDateOnly(Some(expiryDate)) == Some(n) && AddMonthsClamped(Some(n), -2).None?
    ensures CarriesOver(expiryDate)
  {
    hide OnDay, AddMonthsClamped;
  }

  /** The day before expiry the appraisal is due soon, and the expiry has no status. */
  lemma OneWarningParts(expiryDate: int, n: int)
    requires ToUtcDateOnly(Some(expiryDate)) == Some(n) && OnDay(n) == Some(n) && IsInRange(n) && HasOneWarning(n)
    requires AddMonthsClamped(Some(n), -2).Some? && AddMonthsClamped(Some(n), -3).None?
    ensures !CarriesOver(expiryDate)
  {
    hide CivilOf, OnDay, AddMonthsClamped, DayNumber, Moved;
    var two := AddMonthsClamped(Some(n), -2).value;
    MarchIsLater(n);
    MarchIsLater(n - 1);
    OnDayIsIdentity(n - 1);
    ShiftedIsKept(n, -2, two);
    WarningWindows(n, 2, two);
    StatusAt(n, two, n - 1);
    hide StatusByCalendarWindow, DaysUntil, IsInRange;
    var m := BuildMonitoring(true, Some(expiryDate), Some((n - 1) * DAY_MS));
    assert m.appraisalStatus == Some(DueSoon);
    NoStatus(n, (n - 1) * DAY_MS);
    assert m.expiryStatus == None;
  }

  lemma NoStatus(n: int, now: int)
    ensures StatusByCalendarWindow(Some(n), None, Some(now)) == None
  {
    hide OnDay;
  }

  lemma BothWarnings(expiryDate: int, n: int)
    requires IsInRange(n) && ToUtcDateOnly(Some(expiryDate)) == Some(n) && OnDay(n) == Some(n)
    requires !IsTwoDigitMonth(CivilOf(n).month) && AddMonthsClamped(Some(n), -3).Some?
    ensures CarriesOver(expiryDate) <==> CivilOf(n).month != MARCH_100
  {
    hide CivilOf, LengthOf, OnDay, AddMonthsClamped, DayNumber, IsTwoDigitMonth, Moved, StatusByCalendarWindow,
         DaysUntil, IsInRange;
    WarningsAre(n);
    var d := CivilOf(n);
    var two, three := DayNumber(Moved(d, -2)), DayNumber(Moved(d, -3));
    ShiftedIsKept(n, -2, two);
    ShiftedIsKept(n, -3, three);
    WarningOrder(d);
    if d.month != MARCH_100 {
      forall now: Option<int>
        ensures StatusByCalendarWindow(Some(n), Some(two), now) == Some(DueSoon) ==>
          StatusByCalendarWindow(Some(n), Some(three), now) == Some(DueSoon)
      {
        DueSoonCarries(n, two, three, now);
      }
    } else {
      DayBefore(n);
      StatusAt(n, two, n - 1);
      StatusAt(n, three, n - 1);
      var m := BuildMonitoring(true, Some(expiryDate), Some((n - 1) * DAY_MS));
      assert m.appraisalStatus == Some(DueSoon) && m.expiryStatus == Some(Current);
    }
  }

  lemma DueSoonCarries(n: int, two: int, three: int, now: Option<int>)
    requires OnDay(n) == Some(n) && OnDay(two) == Some(two) && OnDay(three) == Some(three)
    requires three <= two || n < two
    ensures StatusByCalendarWindow(Some(n), Some(two), now) == Some(DueSoon) ==>
      StatusByCalendarWindow(Some(n), Some(three), now) == Some(DueSoon)
  {
    hide OnDay;
  }

  lemma DayBefore(n: int)
    requires CivilOf(n).month == MARCH_100
    ensures OnDay(n - 1) == Some(n - 1)
  {
    hide CivilOf, LengthOf, OnDay, FirstDay;
    CivilExists(n);
    NextMonth(MARCH_100 - 1);
    NextMonth(MARCH_100);
    NotBefore(n - 1, MARCH_100 - 1);
    NotAfter(n - 1, MARCH_100 + 1);
    EpochMonth();
    MonthsApart(MARCH_100 - 1, 23640);
    OnDayIsIdentity(n - 1);
  }

  // ----------------------------------------------------------------------------- the record as it is reported

  lemma DayIsInRange(n: int, d: int)
    requires OnDay(n) == Some(d)
    ensures IsInRange(d)
  {
    hide CivilOf, DayNumber;
  }

  lemma PlainDayStays(n: int, d: int)
    requires OnDay(n) == Some(d) && !IsTwoDigitMonth(CivilOf(n).month)
    ensures d == n
  {
    hide CivilOf, FirstDay, LengthOf;
    CivilExists(n);
  }

  /** A day the code arrives at is one it keeps. */
  lemma DayIsKept(n: int, d: int)
    requires OnDay(n) == Some(d)
    ensures IsInRange(d) && !IsTwoDigitMonth(CivilOf(d).month) && OnDay(d) == Some(d)
  {
    DayIsInRange(n, d);
    hide CivilOf, OnDay;
    if IsTwoDigitMonth(CivilOf(n).month) {
      OnDayMovesTwoDigits(n);
    } else {
      PlainDayStays(n, d);
    }
    OnDayIsIdentity(d);
  }

  lemma WarningIsKept(n: int, months: int, r: int)
    requires OnDay(n) == Some(n) && AddMonthsClamped(Some(n), months) == Some(r)
    ensures OnDay(r) == Some(r)
  {
    DayIsKept(n, n);
    hide OnDay, AddMonthsClamped, CivilOf;
    ShiftedIsKept(n, months, r);
  }

  /** What a date, the start of its warning and its status say of each other at the given day. */
  ghost predicate StatusFits(due: Option<int>, warning: Option<int>, today: Option<int>, status: Option<Status>) {
    && (status.None? <==> due.None? || warning.None? || today.None?)
    && (status.Some? ==>
          && (status.value == Overdue <==> due.value <= today.value)
          && (status.value == DueSoon <==> warning.value <= today.value < due.value)
          && (status.value == Current <==> today.value < warning.value && today.value < due.value))
  }

  lemma StatusFollows(due: Option<int>, months: int, now: Option<int>)
    requires due.Some? ==> OnDay(due.value) == due
    ensures var warning := AddMonthsClamped(due, months);
      StatusFits(due, warning, ToUtcDateOnly(now), StatusByCalendarWindow(due, warning, now))
  {
    var warning := AddMonthsClamped(due, months);
    if due.Some? && warning.Some? {
      WarningIsKept(due.value, months, warning.value);
    }
    hide OnDay, ToUtcDateOnly;
    assert due.None? ==> warning.None?;
    hide AddMonthsClamped;
  }

  lemma NoDateNoWarning()
    ensures AddMonthsClamped(None, -2) == AddMonthsClamped(None, -3) == None
  {
  }

  /**
    A record with an expiry date reports that day, and the two days its statuses turn on: the appraisal's from the
    two-month warning on, the expiry's from the three-month warning on, and both to the day itself. A record without
    an expiry date reports nothing.
   */
  lemma ReportedDatesDecide(hasExpiryDate: bool, expiryDate: Option<int>, now: Option<int>)
    ensures var m, today := BuildMonitoring(hasExpiryDate, expiryDate, now), ToUtcDateOnly(now);
      && m.expiry == m.appraisalDue == (if hasExpiryDate then ToUtcDateOnly(expiryDate) else None)
      && StatusFits(m.appraisalDue, m.appraisalWarning, today, m.appraisalStatus)
      && StatusFits(m.expiry, m.expiryWarning, today, m.expiryStatus)
      && m.expiryDays == m.appraisalDays
      && m.expiryDays == if m.expiry.Some? && today.Some? then Some(m.expiry.value - today.value) else None
    ensures !hasExpiryDate ==>
      BuildMonitoring(hasExpiryDate, expiryDate, now) == Monitored(None, None, None, None, None, None, None, None)
  {
    hide OnDay, CivilOf, AddMonthsClamped, StatusFits, StatusByCalendarWindow, DaysUntil, DayOf;
    var due, today := if hasExpiryDate then ToUtcDateOnly(expiryDate) else None, ToUtcDateOnly(now);
    if due.Some? {
      DayIsKept(DayOf(expiryDate.value), due.value);
    }
    StatusFollows(due, -2, now);
    StatusFollows(due, -3, now);
    NoDateNoWarning();
    NothingFits(today);
    DaysLeft(due, now);
  }

  lemma NothingFits(today: Option<int>)
    ensures StatusFits(None, None, today, None)
  {
  }

  lemma DaysLeft(due: Option<int>, now: Option<int>)
    requires due.Some? ==> OnDay(due.value) == due
    ensures DaysUntil(due, now)
         == if due.Some? && ToUtcDateOnly(now).Some? then Some(due.value - ToUtcDateOnly(now).value) else None
  {
    hide OnDay;
  }

  /**
    The reported warnings: the appraisal's starts 59 to 62 days ahead and the expiry's 89 to 92, exactly unless their
    months lie in years 0 to 99; and they are there exactly unless the date is among the first days there are.
   */
  lemma ReportedWarningsLead(expiryDate: Option<int>, now: Option<int>)
    requires BuildMonitoring(true, expiryDate, now).expiry.Some?
    ensures var m := BuildMonitoring(true, expiryDate, now);
      var n := m.expiry.value;
      && (m.appraisalWarning.Some? <==> FirstWarned(2) <= n)
      && (m.expiryWarning.Some? <==> FirstWarned(3) <= n)
      && (m.appraisalWarning.Some? ==>
            (59 <= n - m.appraisalWarning.value <= 62 <==> !IsTwoDigitMonth(CivilOf(n).month - 2)))
      && (m.expiryWarning.Some? ==>
            (89 <= n - m.expiryWarning.value <= 92 <==> !IsTwoDigitMonth(CivilOf(n).month - 3)))
  {
    var m := BuildMonitoring(true, expiryDate, now);
    var n := m.expiry.value;
    DayIsKept(DayOf(expiryDate.value), n);
    hide CivilOf, OnDay, AddMonthsClamped;
    WarningExists(n, 2);
    WarningExists(n, 3);
    if m.appraisalWarning.Some? {
      WarningWindows(n, 2, m.appraisalWarning.value);
    }
    if m.expiryWarning.Some? {
      WarningWindows(n, 3, m.expiryWarning.value);
    }
  }
}
