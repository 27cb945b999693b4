/** Reading expiry dates from an import sheet (src/utils/collateral-expiry-import.js:21-23, 52-114). */
module ExpiryImport {
  import opened Options
  import opened Texts
  import opened Calendar

  /** A date from its parts, checked by reading the parts back. */
  function UtcDateOnly(year: int, month: int, day: int): Option<int> {
    match DateUTC(year, month - 1, day)
    case None => None
    case Some(n) =>
      var d := CivilOf(n);
      if YearOf(d) != year || MonthOf(d) != month - 1 || d.day != day then None else Some(n)
  }

  function DateOf(year: int, month: int, day: int): Date {
    Date(MonthNumber(year, month - 1), day)
  }

  predicate IsCalendarDate(year: int, month: int, day: int) {
    1 <= month <= 12 && IsCivil(DateOf(year, month, day))
  }

  /** Accepted are exactly the Gregorian dates outside years 0 to 99 and within the range of time values. */
  lemma AcceptsExactlyTheCalendar(year: int, month: int, day: int)
    ensures UtcDateOnly(year, month, day) ==
      if IsCalendarDate(year, month, day) && !IsTwoDigit(year) && IsInRange(DayNumber(DateOf(year, month, day)))
      then Some(DayNumber(DateOf(year, month, day))) else None
  {
    hide CivilOf, FirstDay, LengthOf;
    if IsTwoDigit(year) {
      TwoDigitYearsAreRefused(year, month, day);
    } else {
      var d := Date(MonthNumber(year, 0) + month - 1, day);
      assert DateUTC(year, month - 1, day) == if IsInRange(DayNumber(d)) then Some(DayNumber(d)) else None;
      CivilExists(DayNumber(d));
      hide DayNumber;
      if IsCalendarDate(year, month, day) {
        CivilIsUnique(d);
      }
    }
  }

  /** The parts cannot read back: the date lies at least 1900 years later. */
  lemma TwoDigitYearsAreRefused(year: int, month: int, day: int)
    requires IsTwoDigit(year)
    ensures UtcDateOnly(year, month, day) == None
  {
    var d := Date(MonthNumber(1900 + year, 0) + month - 1, day);
    CivilExists(DayNumber(d));
    hide CivilOf, LengthOf, FirstDay;
    var c := CivilOf(DayNumber(d));
    if YearOf(c) == year && MonthOf(c) == month - 1 && c.day == day {
      assert c.month == MonthNumber(year, month - 1);
      MonthsApart(c.month, d.month);
    }
  }

  // ------------------------------------------------------------------------------------------- cells

  /** What a cell can hold; a date cell may be invalid. */
  datatype Cell = Blank | DateCell(ms: Option<int>) | NumberCell(x: real) | TextCell(s: string)

  datatype Problem = InvalidDate | BadFormat

  datatype Parsed = Parsed(date: Option<int>, error: Option<Problem>)

  const LAST_SERIAL := 2_958_465

  /** `Date.UTC(1899, 11, 30)` */
  const SERIAL_EPOCH := -25_569

  function UtcDateOfDay(n: int): Option<int> {
    var d := CivilOf(n);
    UtcDateOnly(YearOf(d), MonthOf(d) + 1, d.day)
  }

  /** Runs of white space become one space. */
  function CollapseSpaces(s: string): string {
    if s == "" then ""
    else if !IsSpace(s[0]) then [s[0]] + CollapseSpaces(s[1..])
    else if |s| > 1 && IsSpace(s[1]) then CollapseSpaces(s[1..])
    else " " + CollapseSpaces(s[1..])
  }

  function NormalizeText(s: string): string {
    CollapseSpaces(Trim(s))
  }

  predicate IsIsoDate(t: string) {
    |t| == 10 && AllDigits(t[..4]) && t[4] == '-' && AllDigits(t[5..7]) && t[7] == '-' && AllDigits(t[8..])
  }

  function ParseExpiryDate(cell: Cell): Parsed {
    match cell
    case Blank => Parsed(None, None)
    case DateCell(None) => Parsed(None, Some(InvalidDate))
    case DateCell(Some(ms)) => Parsed(UtcDateOfDay(DayOf(ms)), None)
    case NumberCell(x) =>
      var wholeDays := x.Floor;
      if wholeDays <= 0 || wholeDays > LAST_SERIAL then Parsed(None, Some(InvalidDate))
      else Parsed(UtcDateOfDay(SERIAL_EPOCH + wholeDays), None)
    case TextCell(s) =>
      if s == "" then Parsed(None, None)
      else
        var t := NormalizeText(s);
        if !IsIsoDate(t) then Parsed(None, Some(BadFormat))
        else match UtcDateOnly(NatValue(t[..4]), NatValue(t[5..7]), NatValue(t[8..]))
          case Some(n) => Parsed(Some(n), None)
          case None => Parsed(None, Some(InvalidDate))
  }

  // ----------------------------------------------------------------------------------------- serials

  lemma LastSerialDay()
    ensures DayNumber(DateOf(9999, 12, 31)) == SERIAL_EPOCH + LAST_SERIAL
  {
  }

  lemma SerialEpoch()
    ensures DayNumber(DateOf(1899, 12, 30)) == SERIAL_EPOCH
    ensures DayNumber(DateOf(9999, 12, 31)) == SERIAL_EPOCH + LAST_SERIAL
  {
    LastSerialDay();
  }

  lemma DayRoundTrips(n: int)
    requires IsInRange(n)
    ensures UtcDateOfDay(n) == if IsTwoDigit(YearOf(CivilOf(n))) then None else Some(n)
  {
    hide CivilOf, FirstDay, LengthOf, UtcDateOnly;
    CivilExists(n);
    var d := CivilOf(n);
    AcceptsExactlyTheCalendar(YearOf(d), MonthOf(d) + 1, d.day);
    assert MonthNumber(YearOf(d), MonthOf(d)) == d.month;
  }

  lemma YearsBetween(n: int, a: Date, b: Date)
    requires IsCivil(a) && IsCivil(b) && DayNumber(a) <= n <= DayNumber(b)
    ensures a.month <= CivilOf(n).month <= b.month
  {
    hide CivilOf, FirstDay, LengthOf;
    CivilExists(n);
    DayNumberIsMonotone(CivilOf(n), a);
    DayNumberIsMonotone(b, CivilOf(n));
  }

  lemma SerialDates()
    ensures IsCivil(DateOf(1899, 12, 30)) && IsCivil(DateOf(9999, 12, 31))
    ensures DateOf(1899, 12, 30).month == 22799 && DateOf(9999, 12, 31).month == 119999
  {
  }

  lemma SerialDay(k: int)
    requires 1 <= k <= LAST_SERIAL
    ensures UtcDateOfDay(SERIAL_EPOCH + k) == Some(SERIAL_EPOCH + k)
    ensures 1899 <= YearOf(CivilOf(SERIAL_EPOCH + k)) <= 9999
  {
    SerialEpoch();
    SerialDates();
    hide UtcDateOfDay, CivilOf, FirstDay, LengthOf, IsCivil, DayNumber, DateOf;
    YearsBetween(SERIAL_EPOCH + k, DateOf(1899, 12, 30), DateOf(9999, 12, 31));
    DayRoundTrips(SERIAL_EPOCH + k);
  }

  /** Each whole serial names the day that many days after 1899-12-30, in years 1899 to 9999. */
  lemma SerialsAreDays(x: real)
    ensures ParseExpiryDate(NumberCell(x)) ==
      if 1 <= x.Floor <= LAST_SERIAL then Parsed(Some(SERIAL_EPOCH + x.Floor), None)
        else Parsed(None, Some(InvalidDate))
    ensures 1 <= x.Floor <= LAST_SERIAL ==> 1899 <= YearOf(CivilOf(SERIAL_EPOCH + x.Floor)) <= 9999
  {
    hide UtcDateOfDay, CivilOf;
    if 1 <= x.Floor <= LAST_SERIAL {
      SerialDay(x.Floor);
    }
  }

  // --------------------------------------------------------------------------------- dates as text

  function Padded(n: nat, width: nat): (s: string)
    ensures |s| == width && AllDigits(s)
  {
    if width == 0 then "" else Padded(n / 10, width - 1) + [DigitChar(n % 10)]
  }

  lemma {:induction false} PaddedReads(n: nat, width: nat)
    requires n < Shift(1, width)
    ensures NatValue(Padded(n, width)) == n
  {
    if width > 0 {
      assert Shift(1, width) == 10 * Shift(1, width - 1);
      assert n / 10 < Shift(1, width - 1);
      PaddedReads(n / 10, width - 1);
      var s := Padded(n, width);
      assert s[..|s| - 1] == Padded(n / 10, width - 1);
    }
  }

  /** YYYY-MM-DD */
  function IsoText(d: Date): string
    requires IsCivil(d) && 0 <= YearOf(d)
  {
    Padded(YearOf(d), 4) + "-" + Padded(MonthOf(d) + 1, 2) + "-" + Padded(d.day, 2)
  }

  predicate NoSpace(s: string) {
    forall i | 0 <= i < |s| :: !IsSpace(s[i])
  }

  lemma {:induction false} CollapseIsIdentity(s: string)
    requires NoSpace(s)
    ensures CollapseSpaces(s) == s
  {
    if s != "" {
      CollapseIsIdentity(s[1..]);
      assert s == [s[0]] + s[1..];
    }
  }

  lemma {:induction false} CollapsedKeepsASpace(s: string)
    requires !NoSpace(s)
    ensures !NoSpace(CollapseSpaces(s))
  {
    var rest := CollapseSpaces(s[1..]);
    if !IsSpace(s[0]) {
      var i :| 0 <= i < |s| && IsSpace(s[i]);
      assert s[1..][i - 1] == s[i];
      CollapsedKeepsASpace(s[1..]);
      var j :| 0 <= j < |rest| && IsSpace(rest[j]);
      assert CollapseSpaces(s)[j + 1] == rest[j];
    } else if |s| > 1 && IsSpace(s[1]) {
      assert s[1..][0] == s[1];
      CollapsedKeepsASpace(s[1..]);
    } else {
      assert CollapseSpaces(s)[0] == ' ';
    }
  }

  lemma DatesHaveNoSpace(t: string)
    requires IsIsoDate(t)
    ensures NoSpace(t)
  {
    assert forall i | 0 <= i < 4 :: t[..4][i] == t[i];
    assert forall i | 0 <= i < 2 :: t[5..7][i] == t[i + 5];
    assert forall i | 0 <= i < 2 :: t[8..][i] == t[i + 8];
  }

  /**
    What every text cell yields: nothing when it is empty; a format error unless it is a date between white space, which
    inner white space never makes it; and else its date, or an error when there is no such date.
   */
  lemma TextCellsReadExactly(s: string)
    ensures var r, t := ParseExpiryDate(TextCell(s)), Trim(s);
      if s == "" then r == Parsed(None, None)
      else if !IsIsoDate(t) then r == Parsed(None, Some(BadFormat))
      else
        var day := UtcDateOnly(NatValue(t[..4]), NatValue(t[5..7]), NatValue(t[8..]));
        r == Parsed(day, if day.None? then Some(InvalidDate) else None)
  {
    var t := Trim(s);
    if NoSpace(t) {
      CollapseIsIdentity(t);
    } else {
      CollapsedKeepsASpace(t);
      if IsIsoDate(CollapseSpaces(t)) {
        DatesHaveNoSpace(CollapseSpaces(t));
      }
      if IsIsoDate(t) {
        DatesHaveNoSpace(t);
      }
    }
    hide UtcDateOnly, IsIsoDate, Trim, CollapseSpaces, NatValue, NoSpace;
  }

  lemma IsoParts(y: string, m: string, d: string)
    requires |y| == 4 && |m| == 2 && |d| == 2 && AllDigits(y) && AllDigits(m) && AllDigits(d)
    ensures var t := y + "-" + m + "-" + d;
      IsIsoDate(t) && t[..4] == y && t[5..7] == m && t[8..] == d && NoSpace(t)
  {
    var t := y + "-" + m + "-" + d;
    assert t[..4] == y && t[5..7] == m && t[8..] == d;
    assert forall i | 0 <= i < |t| :: IsDigit(t[i]) || t[i] == '-';
  }

  lemma IsoTextParts(d: Date)
    requires IsCivil(d) && 100 <= YearOf(d) <= 9999
    ensures var t := IsoText(d);
      && NormalizeText(t) == t && t != "" && IsIsoDate(t)
      && NatValue(t[..4]) == YearOf(d) && NatValue(t[5..7]) == MonthOf(d) + 1 && NatValue(t[8..]) == d.day
  {
    var y, m := YearOf(d), MonthOf(d) + 1;
    assert Shift(1, 4) == 10000 && Shift(1, 2) == 100;
    assert d.day <= 31;
    hide FirstDay, LengthOf, Padded, NatValue, Shift, IsIsoDate, Trim, CollapseSpaces;
    PaddedReads(y, 4);
    PaddedReads(m, 2);
    PaddedReads(d.day, 2);
    IsoParts(Padded(y, 4), Padded(m, 2), Padded(d.day, 2));
    CollapseIsIdentity(IsoText(d));
    TrimmedStays(IsoText(d));
  }

  lemma CivilParts(d: Date)
    requires IsCivil(d) && 100 <= YearOf(d) <= 9999
    ensures UtcDateOnly(YearOf(d), MonthOf(d) + 1, d.day) == Some(DayNumber(d))
  {
    hide UtcDateOnly, CivilOf, FirstDay, LengthOf, IsCivil, DayNumber;
    EarliestRange(d);
    assert DateOf(YearOf(d), MonthOf(d) + 1, d.day) == d;
    AcceptsExactlyTheCalendar(YearOf(d), MonthOf(d) + 1, d.day);
  }

  /** A date printed as YYYY-MM-DD reads back as the same day, from year 100 to year 9999. */
  lemma IsoTextReadsBack(d: Date)
    requires IsCivil(d) && 100 <= YearOf(d) <= 9999
    ensures ParseExpiryDate(TextCell(IsoText(d))) == Parsed(Some(DayNumber(d)), None)
  {
    hide UtcDateOnly, IsoText, IsCivil, DayNumber, NatValue, NormalizeText, IsIsoDate;
    IsoTextParts(d);
    CivilParts(d);
  }

  lemma EpochStart()
    ensures FirstDay(23640) == 0
  {
  }

  lemma EarliestRange(d: Date)
    requires IsCivil(d) && 100 <= YearOf(d) <= 9999
    ensures IsInRange(DayNumber(d))
  {
    EpochStart();
    hide FirstDay, LengthOf;
    if d.month <= 23640 {
      MonthsApart(d.month, 23640);
    } else {
      MonthsApart(23640, d.month);
    }
  }

  /**
    For every serial the sheet can hold: its date, printed, reads back as the same date; serials and dates keep order.
   */
  lemma SerialsReadBack(i: int, j: int)
    requires 1 <= i <= LAST_SERIAL && 1 <= j <= LAST_SERIAL
    ensures var a, b := ParseExpiryDate(NumberCell(i as real)), ParseExpiryDate(NumberCell(j as real));
      && a.date.Some? && a.error == None && b.date.Some?
      && (i < j <==> a.date.value < b.date.value)
      && IsCivil(CivilOf(a.date.value)) && 0 <= YearOf(CivilOf(a.date.value))
      && ParseExpiryDate(TextCell(IsoText(CivilOf(a.date.value)))) == a
  {
    hide *;
    SerialHas(i);
    SerialHas(j);
    SerialReadsBack(SERIAL_EPOCH + i);
  }

  lemma SerialHas(i: int)
    requires 1 <= i <= LAST_SERIAL
    ensures ParseExpiryDate(NumberCell(i as real)) == Parsed(Some(SERIAL_EPOCH + i), None)
    ensures 1899 <= YearOf(CivilOf(SERIAL_EPOCH + i)) <= 9999
  {
    hide ParseExpiryDate, CivilOf, YearOf;
    assert (i as real).Floor == i;
    SerialsAreDays(i as real);
  }

  lemma SerialReadsBack(n: int)
    requires 1899 <= YearOf(CivilOf(n)) <= 9999
    ensures IsCivil(CivilOf(n)) && ParseExpiryDate(TextCell(IsoText(CivilOf(n)))) == Parsed(Some(n), None)
  {
    hide ParseExpiryDate, CivilOf, IsCivil, DayNumber, IsoText;
    CivilExists(n);
    IsoTextReadsBack(CivilOf(n));
  }

  /** A date cell in years 0 to 99 is silently dropped: neither a date nor an error. */
  lemma OldDateCellsVanish(ms: int)
    requires IsInRange(DayOf(ms))
    ensures ParseExpiryDate(DateCell(Some(ms))) == Parsed(None, None) <==> IsTwoDigit(YearOf(CivilOf(DayOf(ms))))
  {
    hide UtcDateOfDay, CivilOf;
    DayRoundTrips(DayOf(ms));
  }
}
