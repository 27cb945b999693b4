/**
  The verdict of a report: which of the five rules applies, judged from dated observations of collectibility
  (src/utils/ideb-report.js:445-567, 670-754).
 */
module IdebVerdict {
  import opened Options
  import opened Texts
  import opened IdebNumber
  import opened IdebRecord
  import opened Sorting

  // ---------------------------------------------------------------------------------------- periods

  /** Year and month at the start of a text, `YYYY-MM`, `YYYY/MM` or `YYYYMM`, not followed by another digit. */
  function PeriodAt(t: string, i: nat): (period: Option<string>)
    requires i <= |t|
    ensures period.Some? ==> IsPeriod(period.value)
  {
    if |t| >= i + 2 && i >= 4 && AllDigits(t[..4]) && IsMonth(t[i..i + 2]) && (|t| == i + 2 || !IsDigit(t[i + 2])) then
      Some(t[..4] + "-" + t[i..i + 2])
    else None
  }

  predicate IsMonth(m: string) {
    |m| == 2 && AllDigits(m) && 1 <= NatValue(m) <= 12
  }

  predicate IsPeriod(p: string) {
    |p| == 7 && AllDigits(p[..4]) && p[4] == '-' && IsMonth(p[5..])
  }

  function PeriodOfText(t: string): (period: Option<string>)
    ensures period.Some? ==> IsPeriod(period.value)
  {
    if |t| < 4 then None
    else if |t| > 4 && t[4] in {'-', '/'} then PeriodAt(t, 5)
    else PeriodAt(t, 4)
  }

  function NormalizePeriodMonth(v: Option<Scalar>): (period: Option<string>)
    ensures period.Some? ==> IsPeriod(period.value)
  {
    PeriodOfText(NormalizeText(v))
  }

  function MonthSerial(p: string): nat
    requires IsPeriod(p)
  {
    NatValue(p[..4]) * 12 + NatValue(p[5..]) - 1
  }

  /** A normalised period is its own normal form. */
  lemma PeriodIsNormal(p: string)
    requires IsPeriod(p)
    ensures PeriodOfText(p) == Some(p) && Trim(p) == p
  {
    assert p == p[..4] + "-" + p[5..];
    assert p[5..7] == p[5..];
    assert IsDigit(p[..4][0]) && IsDigit(p[5..][1]) && p[..4][0] == p[0] && p[5..][1] == p[6];
    TrimmedStays(p);
  }

  function MonthsAgo(period: Option<string>, reference: Option<string>): Option<int>
    requires period.Some? ==> IsPeriod(period.value)
    requires reference.Some? ==> IsPeriod(reference.value)
  {
    if period.None? || reference.None? then None else Some(MonthSerial(reference.value) - MonthSerial(period.value))
  }

  function Or<T>(a: Option<T>, b: Option<T>): Option<T> {
    if a.Some? then a else b
  }

  // ------------------------------------------------------------------------------------ observations

  datatype Source = FromFacility | FromFacilityHistory | FromSummaryHistory

  datatype Observation = Observation(
    period: Option<string>, level: nat, dpd: Option<Decimal>, reporter: string, account: string, source: Source)

  /** What an entry does not say itself. */
  datatype Fallback = Fallback(period: Option<string>, reporter: string, account: string)

  function CreateObservation(entry: Record, fallback: Fallback, source: Source): (o: Option<Observation>)
    requires fallback.period.Some? ==> IsPeriod(fallback.period.value)
    ensures o.Some? ==> IsProper(o.value) && o.value.source == source
  {
    var level := CollectibilityLevel(RecordValue(entry, ["collectibility", "collectibility_code", "kol"]));
    if level.None? then None
    else
      var reporter, account := FacilityReporterName(entry), FacilityAccountNumber(entry);
      Some(Observation(
        Or(NormalizePeriodMonth(RecordValue(entry, ["period_month", "period", "month_label"])), fallback.period),
        level.value,
        ParseScalar(RecordValue(entry, ["days_past_due", "dpd", "jumlah_hari_tunggakan"])),
        if reporter != "" then reporter else fallback.reporter,
        if account != "" then account else fallback.account,
        source))
  }

  predicate IsProper(o: Observation) {
    (o.period.Some? ==> IsPeriod(o.period.value)) && 1 <= o.level <= 5
  }

  datatype Summary = Summary(record: Record, history: seq<Record>)

  function Lookup(record: Record, key: string): Option<Scalar> {
    if key in record then Some(record[key]) else None
  }

  function ExplicitPeriod(summary: Summary): (period: Option<string>)
    ensures period.Some? ==> IsPeriod(period.value)
  {
    Or(NormalizePeriodMonth(Lookup(summary.record, "period_month")),
       Or(NormalizePeriodMonth(Lookup(summary.record, "result_date")),
          NormalizePeriodMonth(Lookup(summary.record, "processed_at"))))
  }

  function FacilityFallback(f: Facility, reference: Option<string>): (fallback: Fallback)
    requires reference.Some? ==> IsPeriod(reference.value)
    ensures fallback.period.Some? ==> IsPeriod(fallback.period.value)
  {
    Fallback(Or(NormalizePeriodMonth(RecordValue(f.record, ["period_month", "period"])), reference),
             FacilityReporterName(f.record), FacilityAccountNumber(f.record))
  }

  function Listed(o: Option<Observation>): seq<Observation> {
    if o.Some? then [o.value] else []
  }

  function OfHistory(history: seq<Record>, fallback: Fallback, source: Source): (obs: seq<Observation>)
    requires fallback.period.Some? ==> IsPeriod(fallback.period.value)
    ensures forall o | o in obs :: IsProper(o) && o.source == source
  {
    if history == [] then []
    else Listed(CreateObservation(history[0], fallback, source)) + OfHistory(history[1..], fallback, source)
  }

  function OfFacility(f: Facility, reference: Option<string>): (obs: seq<Observation>)
    requires reference.Some? ==> IsPeriod(reference.value)
    ensures forall o | o in obs :: IsProper(o) && o.source != FromSummaryHistory
  {
    var fallback := FacilityFallback(f, reference);
    Listed(CreateObservation(f.record, fallback, FromFacility)) + OfHistory(f.history, fallback, FromFacilityHistory)
  }

  function OfFacilities(fs: seq<Facility>, reference: Option<string>): (obs: seq<Observation>)
    requires reference.Some? ==> IsPeriod(reference.value)
    ensures forall o | o in obs :: IsProper(o) && o.source != FromSummaryHistory
  {
    if fs == [] then [] else OfFacility(fs[0], reference) + OfFacilities(fs[1..], reference)
  }

  predicate HasFacilityHistory(obs: seq<Observation>) {
    exists i | 0 <= i < |obs| :: obs[i].source == FromFacilityHistory
  }

  /** All observations before de-duplication: the summary's history counts only when no facility has one. */
  function Raw(summary: Summary, fs: seq<Facility>): (obs: seq<Observation>)
    ensures forall o | o in obs :: IsProper(o)
  {
    var reference := ExplicitPeriod(summary);
    var obs := OfFacilities(fs, reference);
    if HasFacilityHistory(obs) then obs
    else obs + OfHistory(summary.history, Fallback(reference, "", ""), FromSummaryHistory)
  }

  /** The `::`-joined key. */
  function Key(o: Observation): string
    requires IsProper(o)
  {
    (if o.period.Some? then o.period.value else "NO_PERIOD") + "::" + Upper(o.reporter) + "::" + Upper(o.account)
    + "::" + Dec(o.level) + "::" + (if o.dpd.Some? then ShowDecimal(o.dpd.value) else "NO_DPD")
  }

  predicate HasKeyOf(obs: seq<Observation>, o: Observation)
    requires IsProper(o) && forall e | e in obs :: IsProper(e)
  {
    exists i | 0 <= i < |obs| :: Key(obs[i]) == Key(o)
  }

  /** The first observation of each key. */
  function Unique(obs: seq<Observation>): (unique: seq<Observation>)
    requires forall o | o in obs :: IsProper(o)
    ensures forall o | o in unique :: o in obs
  {
    if obs == [] then []
    else
      var front, last := Unique(obs[..|obs| - 1]), obs[|obs| - 1];
      if HasKeyOf(front, last) then front else front + [last]
  }

  function Observations(summary: Summary, fs: seq<Facility>): (obs: seq<Observation>)
    ensures forall o | o in obs :: IsProper(o)
  {
    Unique(Raw(summary, fs))
  }

  // ------------------------------------------------------------------------------------- the loops

  method PushHistory(obs: seq<Observation>, history: seq<Record>, fallback: Fallback, source: Source)
    returns (r: seq<Observation>)
    requires fallback.period.Some? ==> IsPeriod(fallback.period.value)
    ensures r == obs + OfHistory(history, fallback, source)
  {
    hide CreateObservation;
    r := obs;
    for n := 0 to |history|
      invariant r + OfHistory(history[n..], fallback, source) == obs + OfHistory(history, fallback, source)
    {
      var observation := CreateObservation(history[n], fallback, source);
      assert history[n..][0] == history[n] && history[n..][1..] == history[n + 1..];
      ghost var rest := OfHistory(history[n + 1..], fallback, source);
      assert r + (Listed(observation) + rest) == r + Listed(observation) + rest;
      if observation.Some? {
        r := r + [observation.value];
      } else {
        assert r + [] == r;
      }
    }
    assert r + [] == r;
  }

  method CollectObservations(summary: Summary, fs: seq<Facility>) returns (unique: seq<Observation>)
    ensures unique == Observations(summary, fs)
  {
    hide CreateObservation, FacilityFallback, ExplicitPeriod, OfHistory, Key, Listed;
    var reference := ExplicitPeriod(summary);
    var obs: seq<Observation> := [];
    for n := 0 to |fs|
      invariant obs + OfFacilities(fs[n..], reference) == OfFacilities(fs, reference)
    {
      assert fs[n..][0] == fs[n] && fs[n..][1..] == fs[n + 1..];
      obs := PushFacility(obs, fs[n], reference);
      ghost var rest := OfFacilities(fs[n + 1..], reference);
    }
    assert obs + [] == obs;
    if !HasFacilityHistory(obs) {
      obs := PushHistory(obs, summary.history, Fallback(reference, "", ""), FromSummaryHistory);
    }
    assert obs == Raw(summary, fs);
    unique := KeepFirst(obs);
  }

  method PushFacility(obs: seq<Observation>, f: Facility, reference: Option<string>) returns (r: seq<Observation>)
    requires reference.Some? ==> IsPeriod(reference.value)
    ensures r == obs + OfFacility(f, reference)
    ensures forall rest: seq<Observation> :: obs + (OfFacility(f, reference) + rest) == r + rest
  {
    hide CreateObservation, FacilityFallback, OfHistory;
    var fallback := FacilityFallback(f, reference);
    var current := CreateObservation(f.record, fallback, FromFacility);
    r := if current.Some? then obs + [current.value] else obs;
    r := PushHistory(r, f.history, fallback, FromFacilityHistory);
  }

  method KeepFirst(obs: seq<Observation>) returns (unique: seq<Observation>)
    requires forall o | o in obs :: IsProper(o)
    ensures unique == Unique(obs)
  {
    hide Key;
    unique := [];
    var keys: set<string> := {};
    for n := 0 to |obs|
      invariant unique == Unique(obs[..n])
      invariant forall e | e in unique :: IsProper(e)
      invariant keys == set e | e in unique :: Key(e)
    {
      var observation := obs[n];
      assert obs[..n + 1][..n] == obs[..n];
      assert Key(observation) in keys <==> HasKeyOf(unique, observation);
      if Key(observation) !in keys {
        keys := keys + {Key(observation)};
        unique := unique + [observation];
      }
    }
    assert obs[..|obs|] == obs;
  }

  // ------------------------------------------------------------------- what a de-duplication key tells

  function PeriodText(o: Observation): string {
    if o.period.Some? then o.period.value else "NO_PERIOD"
  }

  function DpdText(o: Observation): string {
    if o.dpd.Some? then ShowDecimal(o.dpd.value) else "NO_DPD"
  }

  lemma PartsHaveNoColon(o: Observation)
    requires IsProper(o)
    ensures NoColon(PeriodText(o)) && NoColon(DpdText(o)) && NoColon(Dec(o.level))
    ensures o.period.None? || PeriodText(o) != "NO_PERIOD"
  {
    if o.period.Some? {
      var p := o.period.value;
      assert p == p[..4] + "-" + p[5..];
    }
  }

  /** Names may contain colons, so keys are not injective; still, equal keys force equal periods and levels. */
  lemma KeyTells(a: Observation, b: Observation)
    requires IsProper(a) && IsProper(b) && Key(a) == Key(b)
    ensures a.period == b.period && a.level == b.level && DpdText(a) == DpdText(b)
  {
    hide Key, Upper, Dec, IsPeriod, NoColon, DpdText;
    PartsHaveNoColon(a);
    PartsHaveNoColon(b);
    var am, bm := Upper(a.reporter) + "::" + Upper(a.account), Upper(b.reporter) + "::" + Upper(b.account);
    KeyShape(a, am);
    KeyShape(b, bm);
    SplitAtFirstColon(PeriodText(a), Rest(a, am), PeriodText(b), Rest(b, bm));
    RestTells(a, am, b, bm);
    DecInjective(a.level, b.level);
  }

  /** What follows the period in a key. */
  function Rest(o: Observation, middle: string): string {
    ":" + middle + "::" + Dec(o.level) + "::" + DpdText(o)
  }

  lemma RestTells(a: Observation, am: string, b: Observation, bm: string)
    requires NoColon(Dec(a.level)) && NoColon(DpdText(a)) && NoColon(Dec(b.level)) && NoColon(DpdText(b))
    requires Rest(a, am) == Rest(b, bm)
    ensures Dec(a.level) == Dec(b.level) && DpdText(a) == DpdText(b)
  {
    hide Dec, DpdText, NoColon;
    var x, y := ":" + am + ":", ":" + bm + ":";
    var p, q := x + ":" + Dec(a.level), y + ":" + Dec(b.level);
    assert Rest(a, am) == (p + ":") + ":" + DpdText(a) && Rest(b, bm) == (q + ":") + ":" + DpdText(b);
    SplitAtLastColon(p + ":", DpdText(a), q + ":", DpdText(b));
    assert p == (p + ":")[..|p|] && q == (q + ":")[..|q|];
    SplitAtLastColon(x, Dec(a.level), y, Dec(b.level));
  }

  lemma KeyShape(o: Observation, middle: string)
    requires IsProper(o) && middle == Upper(o.reporter) + "::" + Upper(o.account)
    ensures Key(o) == PeriodText(o) + ":" + Rest(o, middle)
  {
    hide Upper, Dec, ShowDecimal, IsPeriod;
  }

  // ------------------------------------------------------------------------------------- the verdict

  datatype Rule = Green | Yellow | RedKol | RedLegal | Undetermined

  datatype Conclusion = Conclusion(rule: Rule, referencePeriod: Option<string>)

  /** Lexicographic order of texts. */
  predicate TextLe(a: string, b: string) {
    a == "" || (b != "" && (a[0] < b[0] || (a[0] == b[0] && TextLe(a[1..], b[1..]))))
  }

  function Periods(obs: seq<Observation>): (periods: seq<string>)
    ensures forall p :: p in periods <==> exists i :: 0 <= i < |obs| && obs[i].period == Some(p)
  {
    if obs == [] then []
    else
      var rest := Periods(obs[1..]);
      assert forall p :: p in rest ==> exists i ::
        0 <= i < |obs[1..]| && obs[1..][i].period == Some(p) && obs[i + 1].period == Some(p);
      assert forall i | 0 < i < |obs| :: obs[i] == obs[1..][i - 1];
      if obs[0].period.Some? then [obs[0].period.value] + rest else rest
  }

  /** The explicit period of the summary, else the latest observed one. */
  function ReferencePeriod(summary: Summary, obs: seq<Observation>): (reference: Option<string>)
    requires forall o | o in obs :: IsProper(o)
    ensures reference.Some? ==> IsPeriod(reference.value)
  {
    var explicit, periods := ExplicitPeriod(summary), Sort(Periods(obs), TextLe);
    if explicit.Some? then explicit
    else if periods == [] then None
    else
      assert IsPeriod(periods[|periods| - 1]) by { LastIsPeriod(obs); }
      Some(periods[|periods| - 1])
  }

  lemma LastIsMember(periods: seq<string>)
    ensures forall p :: p in Sort(periods, TextLe) <==> p in periods
  {
    SortPermutes(periods, TextLe);
    forall p
      ensures p in Sort(periods, TextLe) <==> p in periods
    {
      assert p in Sort(periods, TextLe) <==> p in multiset(Sort(periods, TextLe));
      assert p in periods <==> p in multiset(periods);
    }
  }

  lemma LastIsPeriod(obs: seq<Observation>)
    requires forall o | o in obs :: IsProper(o)
    ensures forall p | p in Sort(Periods(obs), TextLe) :: IsPeriod(p)
  {
    LastIsMember(Periods(obs));
    hide IsPeriod;
    forall p | p in Periods(obs)
      ensures IsPeriod(p)
    {
      var i :| 0 <= i < |obs| && obs[i].period == Some(p);
      assert IsProper(obs[i]);
    }
  }

  predicate Within(o: Observation, reference: Option<string>, months: nat)
    requires IsProper(o) && (reference.Some? ==> IsPeriod(reference.value))
  {
    var ago := MonthsAgo(o.period, reference);
    ago.Some? && 0 <= ago.value < months
  }

  predicate IsDefaultedObservation(o: Observation, reference: Option<string>)
    requires IsProper(o) && (reference.Some? ==> IsPeriod(reference.value))
  {
    Within(o, reference, 24) && 3 <= o.level <= 5
  }

  predicate IsLegal(f: Facility) {
    IsWriteOff(f) || HasLegalDispute(f)
  }

  predicate IsYellow(f: Facility) {
    var dpd := FacilityDaysPastDue(f);
    && CollectibilityLevel(FacilityCollectibility(f)) == Some(2)
    && dpd.Some? && !Less(dpd.value, ZERO) && Less(dpd.value, Decimal(90, 0))
  }

  predicate IsRecent(o: Observation, reference: Option<string>)
    requires IsProper(o) && (reference.Some? ==> IsPeriod(reference.value))
  {
    Within(o, reference, 12)
  }

  predicate AllRecentAreCurrent(obs: seq<Observation>, reference: Option<string>)
    requires (forall o | o in obs :: IsProper(o)) && (reference.Some? ==> IsPeriod(reference.value))
  {
    && (exists o | o in obs :: IsRecent(o, reference))
    && (forall o | o in obs && IsRecent(o, reference) :: o.level == 1)
  }

  /** The rules in order of severity. */
  function Judge(fs: seq<Facility>, obs: seq<Observation>, reference: Option<string>): Rule
    requires (forall o | o in obs :: IsProper(o)) && (reference.Some? ==> IsPeriod(reference.value))
  {
    if exists f | f in fs :: IsLegal(f) then RedLegal
    else if exists o | o in obs :: IsDefaultedObservation(o, reference) then RedKol
    else if exists f | f in fs :: IsYellow(f) then Yellow
    else if AllRecentAreCurrent(obs, reference) then Green
    else Undetermined
  }

  function Conclude(summary: Summary, fs: seq<Facility>): Conclusion {
    var obs := Observations(summary, fs);
    var reference := ReferencePeriod(summary, obs);
    Conclusion(Judge(fs, obs, reference), reference)
  }

  /** The same verdict on the observations as they were collected, duplicates included. */
  function ConcludeRaw(summary: Summary, fs: seq<Facility>): Conclusion {
    var obs := Raw(summary, fs);
    var reference := ReferencePeriod(summary, obs);
    Conclusion(Judge(fs, obs, reference), reference)
  }

  // ------------------------------------------------- the verdict depends only on dated levels, in any order

  predicate HasDated(obs: seq<Observation>, period: Option<string>, level: nat) {
    exists i | 0 <= i < |obs| :: obs[i].period == period && obs[i].level == level
  }

  ghost predicate SameDated(a: seq<Observation>, b: seq<Observation>) {
    forall period, level :: HasDated(a, period, level) <==> HasDated(b, period, level)
  }

  lemma Partner(a: seq<Observation>, b: seq<Observation>, o: Observation) returns (e: Observation)
    requires SameDated(a, b) && o in a
    ensures e in b && e.period == o.period && e.level == o.level
  {
    assert HasDated(a, o.period, o.level);
    assert HasDated(b, o.period, o.level);
    var i :| 0 <= i < |b| && b[i].period == o.period && b[i].level == o.level;
    e := b[i];
  }

  lemma SameJudgement(fs: seq<Facility>, gs: seq<Facility>, a: seq<Observation>, b: seq<Observation>,
                      reference: Option<string>)
    requires (forall o | o in a :: IsProper(o)) && (forall o | o in b :: IsProper(o))
    requires SameDated(a, b) && (forall f :: f in fs <==> f in gs) && (reference.Some? ==> IsPeriod(reference.value))
    ensures Judge(fs, a, reference) == Judge(gs, b, reference)
  {
    hide IsLegal, IsYellow, IsPeriod, MonthsAgo;
    HalfJudgement(a, b, reference);
    HalfJudgement(b, a, reference);
    hide IsDefaultedObservation, AllRecentAreCurrent;
  }

  lemma HalfJudgement(a: seq<Observation>, b: seq<Observation>, reference: Option<string>)
    requires (forall o | o in a :: IsProper(o)) && (forall o | o in b :: IsProper(o))
    requires SameDated(a, b) && (reference.Some? ==> IsPeriod(reference.value))
    ensures (exists o | o in a :: IsDefaultedObservation(o, reference)) ==> exists o | o in b ::
      IsDefaultedObservation(o, reference)
    ensures AllRecentAreCurrent(a, reference) ==> AllRecentAreCurrent(b, reference)
  {
    hide IsPeriod, MonthsAgo;
    if o :| o in a && IsDefaultedObservation(o, reference) {
      var e := Partner(a, b, o);
      assert IsDefaultedObservation(e, reference);
    }
    if AllRecentAreCurrent(a, reference) {
      var o :| o in a && IsRecent(o, reference);
      var e := Partner(a, b, o);
      assert IsRecent(e, reference);
      forall e | e in b && IsRecent(e, reference)
        ensures e.level == 1
      {
        var o := Partner(b, a, e);
        assert IsRecent(o, reference);
      }
    }
  }

  lemma {:induction false} TextLeTotal(a: string, b: string)
    ensures TextLe(a, b) || TextLe(b, a)
    ensures TextLe(a, b) && TextLe(b, a) ==> a == b
  {
    if a != "" && b != "" {
      TextLeTotal(a[1..], b[1..]);
      assert a == [a[0]] + a[1..] && b == [b[0]] + b[1..];
    }
  }

  lemma {:induction false} TextLeTransitive(a: string, b: string, c: string)
    requires TextLe(a, b) && TextLe(b, c)
    ensures TextLe(a, c)
  {
    if a != "" && a[0] == b[0] == c[0] {
      TextLeTransitive(a[1..], b[1..], c[1..]);
    }
  }

  lemma TextLeIsTotal()
    ensures TotalPreorder(TextLe)
  {
    forall a, b
      ensures TextLe(a, b) || TextLe(b, a)
    {
      TextLeTotal(a, b);
    }
    forall a, b, c | TextLe(a, b) && TextLe(b, c)
      ensures TextLe(a, c)
    {
      TextLeTransitive(a, b, c);
    }
  }

  /** Without an explicit period the reference is an observed period and no observed period is later. */
  lemma ReferenceIsLatest(summary: Summary, obs: seq<Observation>)
    requires (forall o | o in obs :: IsProper(o)) && ExplicitPeriod(summary).None?
    ensures var reference := ReferencePeriod(summary, obs);
      if Periods(obs) == [] then reference == None
      else reference.Some? && reference.value in Periods(obs) && forall p | p in Periods(obs) ::
        TextLe(p, reference.value)
  {
    hide TextLe, IsPeriod, ExplicitPeriod;
    var periods := Sort(Periods(obs), TextLe);
    LastIsMember(Periods(obs));
    TextLeIsTotal();
    SortSorts(Periods(obs), TextLe);
    forall p | p in Periods(obs)
      ensures periods != [] && TextLe(p, periods[|periods| - 1])
    {
      assert p in periods;
      var i :| 0 <= i < |periods| && periods[i] == p;
      TextLeTotal(p, p);
    }
    if periods != [] {
      assert periods[0] in periods;
    }
  }

  lemma SameReference(summary: Summary, a: seq<Observation>, b: seq<Observation>)
    requires (forall o | o in a :: IsProper(o)) && (forall o | o in b :: IsProper(o))
    requires SameDated(a, b)
    ensures ReferencePeriod(summary, a) == ReferencePeriod(summary, b)
  {
    if ExplicitPeriod(summary).None? {
      ReferenceIsLatest(summary, a);
      ReferenceIsLatest(summary, b);
      hide TextLe, IsPeriod, ReferencePeriod, ExplicitPeriod;
      SamePeriods(a, b);
      SamePeriods(b, a);
      if Periods(a) != [] {
        TextLeTotal(ReferencePeriod(summary, a).value, ReferencePeriod(summary, b).value);
      }
    }
  }

  lemma SamePeriods(a: seq<Observation>, b: seq<Observation>)
    requires SameDated(a, b)
    ensures forall p | p in Periods(a) :: p in Periods(b)
    ensures Periods(b) == [] ==> Periods(a) == []
  {
    if Periods(a) != [] {
      assert Periods(a)[0] in Periods(a);
    }
    forall p | p in Periods(a)
      ensures p in Periods(b)
    {
      var i :| 0 <= i < |a| && a[i].period == Some(p);
      var e := Partner(a, b, a[i]);
    }
  }

  lemma {:induction false} UniqueIsDated(obs: seq<Observation>)
    requires forall o | o in obs :: IsProper(o)
    ensures SameDated(Unique(obs), obs)
  {
    hide Key, IsProper;
    if obs != [] {
      var front, last := obs[..|obs| - 1], obs[|obs| - 1];
      UniqueIsDated(front);
      assert obs == front + [last];
      var unique := Unique(obs);
      forall period, level
        ensures HasDated(unique, period, level) <==> HasDated(obs, period, level)
      {
        DatedAppend(front, last, period, level);
        DatedAppend(Unique(front), last, period, level);
        if HasKeyOf(Unique(front), last) {
          var i :| 0 <= i < |Unique(front)| && Key(Unique(front)[i]) == Key(last);
          KeyTells(Unique(front)[i], last);
        }
      }
    }
  }

  lemma DatedAppend(obs: seq<Observation>, o: Observation, period: Option<string>, level: nat)
    ensures HasDated(obs + [o], period, level)
      <==> HasDated(obs, period, level) || (o.period == period && o.level == level)
  {
    var more := obs + [o];
    assert more[|obs|] == o;
    if HasDated(obs, period, level) {
      var i :| 0 <= i < |obs| && obs[i].period == period && obs[i].level == level;
      assert more[i] == obs[i];
    }
  }

  /** De-duplication changes neither the rule nor the reference period. */
  lemma DeduplicationIsHarmless(summary: Summary, fs: seq<Facility>)
    ensures Conclude(summary, fs) == ConcludeRaw(summary, fs)
  {
    hide Judge, ReferencePeriod, IsProper, SameDated, Raw, Unique;
    UniqueIsDated(Raw(summary, fs));
    SameReference(summary, Unique(Raw(summary, fs)), Raw(summary, fs));
    SameJudgement(fs, fs, Unique(Raw(summary, fs)), Raw(summary, fs), ReferencePeriod(summary, Raw(summary, fs)));
  }

  lemma {:induction false} ObservedBy(fs: seq<Facility>, reference: Option<string>, o: Observation)
    requires reference.Some? ==> IsPeriod(reference.value)
    ensures o in OfFacilities(fs, reference) <==> exists i :: 0 <= i < |fs| && o in OfFacility(fs[i], reference)
  {
    hide OfFacility, IsPeriod;
    if fs != [] {
      ObservedBy(fs[1..], reference, o);
      if i :| 0 <= i < |fs| && o in OfFacility(fs[i], reference) {
        assert i == 0 || fs[i] == fs[1..][i - 1];
      }
      if i :| 0 <= i < |fs[1..]| && o in OfFacility(fs[1..][i], reference) {
        assert fs[1..][i] == fs[i + 1];
      }
    }
  }

  lemma SameMembers(fs: seq<Facility>, gs: seq<Facility>, reference: Option<string>)
    requires (forall f | f in fs :: f in gs) && (reference.Some? ==> IsPeriod(reference.value))
    ensures forall o | o in OfFacilities(fs, reference) :: o in OfFacilities(gs, reference)
  {
    hide OfFacility, OfFacilities, IsPeriod;
    forall o | o in OfFacilities(fs, reference)
      ensures o in OfFacilities(gs, reference)
    {
      ObservedBy(fs, reference, o);
      ObservedBy(gs, reference, o);
      var i :| 0 <= i < |fs| && o in OfFacility(fs[i], reference);
      assert fs[i] in gs;
    }
  }

  lemma SameHistoryFlag(a: seq<Observation>, b: seq<Observation>)
    requires forall o | o in a :: o in b
    ensures HasFacilityHistory(a) ==> HasFacilityHistory(b)
  {
    if HasFacilityHistory(a) {
      var i :| 0 <= i < |a| && a[i].source == FromFacilityHistory;
      assert a[i] in b;
      var j :| 0 <= j < |b| && b[j] == a[i];
    }
  }

  lemma SubsetIsDated(a: seq<Observation>, b: seq<Observation>, period: Option<string>, level: nat)
    requires (forall o | o in a :: o in b) && HasDated(a, period, level)
    ensures HasDated(b, period, level)
  {
    var i :| 0 <= i < |a| && a[i].period == period && a[i].level == level;
    assert a[i] in b;
    var j :| 0 <= j < |b| && b[j] == a[i];
  }

  lemma SameRaw(summary: Summary, fs: seq<Facility>, gs: seq<Facility>)
    requires forall f :: f in fs <==> f in gs
    ensures SameDated(Raw(summary, fs), Raw(summary, gs))
  {
    var reference := ExplicitPeriod(summary);
    hide OfFacilities, OfHistory, ExplicitPeriod, IsProper, IsPeriod, HasDated, HasFacilityHistory;
    SameMembers(fs, gs, reference);
    SameMembers(gs, fs, reference);
    SameHistoryFlag(OfFacilities(fs, reference), OfFacilities(gs, reference));
    SameHistoryFlag(OfFacilities(gs, reference), OfFacilities(fs, reference));
    var a, b := Raw(summary, fs), Raw(summary, gs);
    assert forall o | o in a :: o in b;
    assert forall o | o in b :: o in a;
    forall period, level
      ensures HasDated(a, period, level) <==> HasDated(b, period, level)
    {
      if HasDated(a, period, level) {
        SubsetIsDated(a, b, period, level);
      }
      if HasDated(b, period, level) {
        SubsetIsDated(b, a, period, level);
      }
    }
  }

  /** The verdict is the same for every order (and every repetition) of the facilities. */
  lemma OrderDoesNotMatter(summary: Summary, fs: seq<Facility>, gs: seq<Facility>)
    requires forall f :: f in fs <==> f in gs
    ensures Conclude(summary, fs) == Conclude(summary, gs)
  {
    DeduplicationIsHarmless(summary, fs);
    DeduplicationIsHarmless(summary, gs);
    hide Judge, ReferencePeriod, IsProper, SameDated, Raw, Conclude;
    SameRaw(summary, fs, gs);
    SameReference(summary, Raw(summary, fs), Raw(summary, gs));
    SameJudgement(fs, gs, Raw(summary, fs), Raw(summary, gs), ReferencePeriod(summary, Raw(summary, fs)));
  }

  ghost predicate SaysInDispute(f: Facility) {
    exists key | key in f.record && MeansDispute(f.record[key]) :: IsLegalField(key)
  }

  ghost predicate IsLegalField(key: string) {
    || key in {"is_in_legal_process", "is_disputed", "legal_status", "legal_process_status", "dispute_status"}
    || key in {"isInLegalProcess", "isDisputed", "legalStatus", "legalProcessStatus", "disputeStatus"}
    || key in {"condition", "problem_reason", "description"}
  }

  /** Level 2, and at least no but fewer than ninety days past due. */
  ghost predicate IsSlightlyLate(f: Facility) {
    && CollectibilityLevel(FacilityCollectibility(f)) == Some(2)
    && FacilityDaysPastDue(f).Some? && 0.0 <= Real(FacilityDaysPastDue(f).value) < 90.0
  }

  lemma LegalFieldsAre(key: string)
    ensures key in LEGAL_FIELDS <==> IsLegalField(key)
  {
  }

  lemma LegalMeans(f: Facility)
    ensures IsLegal(f) <==> SaysWrittenOff(f) || SaysInDispute(f)
  {
    WriteOffMeans(f);
    forall key | key in f.record
      ensures IsPositiveLegalValue(f.record[key]) <==> MeansDispute(f.record[key])
      ensures key in LEGAL_FIELDS <==> IsLegalField(key)
    {
      hide IsPositiveLegalValue, IsLegalField;
      PositiveMeans(f.record[key]);
      LegalFieldsAre(key);
    }
    hide IsWriteOff, SaysWrittenOff, IsPositiveLegalValue, MeansDispute, IsLegalField;
  }

  lemma YellowMeans(f: Facility)
    ensures IsYellow(f) <==> IsSlightlyLate(f)
  {
    var dpd := FacilityDaysPastDue(f);
    if dpd.Some? {
      RealArithmetic(dpd.value, ZERO);
      RealArithmetic(dpd.value, Decimal(90, 0));
      assert Real(ZERO) == 0.0 && Real(Decimal(90, 0)) == 90.0;
    }
    hide FacilityDaysPastDue, FacilityCollectibility, CollectibilityLevel, Less, Real;
  }

  /** Whether the facility list holds a case for red. */
  ghost predicate HasLegalCase(fs: seq<Facility>) {
    exists f | f in fs :: SaysWrittenOff(f) || SaysInDispute(f)
  }

  ghost predicate HasLateCase(fs: seq<Facility>) {
    exists f | f in fs :: IsSlightlyLate(f)
  }

  ghost predicate HasDefault(obs: seq<Observation>, reference: Option<string>) {
    exists o | o in obs :: MonthsBack(o, reference, 24) && o.level >= 3
  }

  ghost predicate IsCurrentThroughout(obs: seq<Observation>, reference: Option<string>) {
    && (exists o | o in obs :: MonthsBack(o, reference, 12))
    && (forall o | o in obs && MonthsBack(o, reference, 12) :: o.level == 1)
  }

  /**
    Each rule in terms of the records as they stand in the report, before de-duplication: red for write-off or dispute,
    else for a level of 3 to 5 in the last 24 months, else yellow for a facility of level 2 under 90 days, else green
    when the last 12 months hold a record and only level 1.
   */
  lemma VerdictMeans(summary: Summary, fs: seq<Facility>)
    ensures var c, raw := Conclude(summary, fs), Raw(summary, fs);
      var reference := ReferencePeriod(summary, raw);
      && c.referencePeriod == reference
      && (c.rule == RedLegal <==> HasLegalCase(fs))
      && (c.rule == RedKol <==> !HasLegalCase(fs) && HasDefault(raw, reference))
      && (c.rule == Yellow <==> !HasLegalCase(fs) && !HasDefault(raw, reference) && HasLateCase(fs))
      && (c.rule == Green <==>
            !HasLegalCase(fs) && !HasDefault(raw, reference) && !HasLateCase(fs) && IsCurrentThroughout(raw, reference))
  {
    hide Raw, ReferencePeriod, Judge, Conclude, HasLegalCase, HasLateCase, HasDefault, IsCurrentThroughout;
    DeduplicationIsHarmless(summary, fs);
    JudgeMeans(fs, Raw(summary, fs), ReferencePeriod(summary, Raw(summary, fs)));
  }

  lemma JudgeMeans(fs: seq<Facility>, obs: seq<Observation>, reference: Option<string>)
    requires (forall o | o in obs :: IsProper(o)) && (reference.Some? ==> IsPeriod(reference.value))
    ensures var rule := Judge(fs, obs, reference);
      && (rule == RedLegal <==> HasLegalCase(fs))
      && (rule == RedKol <==> !HasLegalCase(fs) && HasDefault(obs, reference))
      && (rule == Yellow <==> !HasLegalCase(fs) && !HasDefault(obs, reference) && HasLateCase(fs))
      && (rule == Green <==>
            !HasLegalCase(fs) && !HasDefault(obs, reference) && !HasLateCase(fs) && IsCurrentThroughout(obs, reference))
  {
    hide IsLegal, IsYellow, SaysWrittenOff, SaysInDispute, IsSlightlyLate;
    forall f | f in fs
      ensures (IsLegal(f) <==> SaysWrittenOff(f) || SaysInDispute(f)) && (IsYellow(f) <==> IsSlightlyLate(f))
    {
      LegalMeans(f);
      YellowMeans(f);
    }
    forall o | o in obs
      ensures MonthsBack(o, reference, 12) == IsRecent(o, reference)
      ensures MonthsBack(o, reference, 24) && o.level >= 3 <==> IsDefaultedObservation(o, reference)
    {
      ObservationMeans(o, reference);
    }
    hide MonthsBack, IsDefaultedObservation, IsRecent, IsProper;
  }

  lemma ObservationMeans(o: Observation, reference: Option<string>)
    requires IsProper(o) && (reference.Some? ==> IsPeriod(reference.value))
    ensures MonthsBack(o, reference, 12) == IsRecent(o, reference)
    ensures MonthsBack(o, reference, 24) && o.level >= 3 <==> IsDefaultedObservation(o, reference)
  {
    hide IsPeriod, MonthSerial;
  }

  /** Dated at most `months - 1` months before the reference, and not after it. */
  predicate MonthsBack(o: Observation, reference: Option<string>, months: nat) {
    && o.period.Some? && reference.Some? && IsPeriod(o.period.value) && IsPeriod(reference.value)
    && 0 <= MonthSerial(reference.value) - MonthSerial(o.period.value) < months
  }

  // ------------------------------------------------------------------------------------ monotonicity

  function Severity(rule: Rule): nat {
    match rule
    case Green => 0
    case Undetermined => 0
    case Yellow => 1
    case RedKol => 2
    case RedLegal => 3
  }

  /** What the summary's own history says on its own: a level of 3 to 5 in the 24 months before the explicit period. */
  predicate HasDefaultedHistory(summary: Summary) {
    exists o | o in OfHistory(summary.history, Fallback(ExplicitPeriod(summary), "", ""), FromSummaryHistory) ::
      IsDefaultedObservation(o, ExplicitPeriod(summary))
  }

  lemma SeverityGrows(fs: seq<Facility>, gs: seq<Facility>, a: seq<Observation>, b: seq<Observation>,
                      reference: Option<string>)
    requires (forall o | o in a :: IsProper(o)) && (forall o | o in b :: IsProper(o))
    requires AreAmong(fs, gs) && (reference.Some? ==> IsPeriod(reference.value))
    requires (exists o | o in a :: IsDefaultedObservation(o, reference)) ==>
      exists o | o in b :: IsDefaultedObservation(o, reference)
    ensures Severity(Judge(fs, a, reference)) <= Severity(Judge(gs, b, reference))
  {
    hide IsLegal, IsYellow, IsDefaultedObservation, AllRecentAreCurrent, IsProper, IsPeriod;
  }

  /**
    With an explicit period and no default in the summary's own history, more facilities never make the verdict milder.
   */
  lemma MoreFacilitiesNeverMilder(summary: Summary, fs: seq<Facility>, gs: seq<Facility>)
    requires ExplicitPeriod(summary).Some? && !HasDefaultedHistory(summary)
    requires AreAmong(fs, gs)
    ensures Severity(Conclude(summary, fs).rule) <= Severity(Conclude(summary, gs).rule)
    ensures Conclude(summary, fs).referencePeriod == Conclude(summary, gs).referencePeriod
  {
    hide OfFacilities, OfHistory, ExplicitPeriod, HasFacilityHistory, IsProper, IsPeriod, Conclude, Judge, Severity,
         IsDefaultedObservation;
    DeduplicationIsHarmless(summary, fs);
    DeduplicationIsHarmless(summary, gs);
    var reference := ExplicitPeriod(summary);
    SameMembers(fs, gs, reference);
    var a, b := Raw(summary, fs), Raw(summary, gs);
    if o :| o in a && IsDefaultedObservation(o, reference) {
      assert o in OfFacilities(fs, reference);
      assert o in b;
    }
    SeverityGrows(fs, gs, a, b, reference);
  }

  predicate AreAmong(fs: seq<Facility>, gs: seq<Facility>) {
    forall f | f in fs :: f in gs
  }

  /** Whatever facilities a report has, more of them never make its verdict milder. */
  ghost predicate NeverMilder(summary: Summary) {
    forall fs, gs | AreAmong(fs, gs) :: Severity(Conclude(summary, fs).rule) <= Severity(Conclude(summary, gs).rule)
  }

  /**
    That holds of a summary exactly when it states a period and its own history has no default in the window before it.
   */
  lemma NeverMilderExactly(summary: Summary)
    ensures NeverMilder(summary) <==> ExplicitPeriod(summary).Some? && !HasDefaultedHistory(summary)
  {
    hide ExplicitPeriod, HasDefaultedHistory, Conclude;
    if ExplicitPeriod(summary).None? {
      var p, q := "2020-01", "2022-01";
      TwoYearsApart();
      hide IsPeriod, MonthSerial;
      ExplicitPeriodIsNeeded(summary, p, q);
      assert AreAmong([Past(3, p)], [Past(3, p), Past(1, q)]);
    } else if HasDefaultedHistory(summary) {
      NoDefaultedHistoryIsNeeded(summary);
      assert AreAmong([], [Past(1, ExplicitPeriod(summary).value)]);
    } else {
      forall fs, gs | AreAmong(fs, gs)
        ensures Severity(Conclude(summary, fs).rule) <= Severity(Conclude(summary, gs).rule)
      {
        MoreFacilitiesNeverMilder(summary, fs, gs);
      }
    }
  }

  lemma TwoYearsApart()
    ensures IsPeriod("2020-01") && IsPeriod("2022-01") && TextLe("2020-01", "2022-01")
    ensures MonthSerial("2022-01") - MonthSerial("2020-01") == 24
  {
    assert "2020-01"[..4] == "2020" && "2022-01"[..4] == "2022" && "2020-01"[5..] == "2022-01"[5..] == "01";
    ThreeAndOne();
    assert "2020-01"[1..] == "020-01" && "2022-01"[1..] == "022-01";
    assert "020-01"[1..] == "20-01" && "022-01"[1..] == "22-01";
    assert "20-01"[1..] == "0-01" && "22-01"[1..] == "2-01";
  }

  lemma ThreeAndOne()
    ensures NatValue("2020") == 2020 && NatValue("2022") == 2022 && NatValue("01") == 1
  {
    assert "2020"[..3] == "202" && "2022"[..3] == "202" && "202"[..2] == "20" && "20"[..1] == "2" && "2"[..0] == "";
    assert "01"[..1] == "0" && "0"[..0] == "";
    assert NatValue("") == 0;
    assert NatValue("2") == 2;
    assert NatValue("20") == 20;
    assert NatValue("202") == 202;
    assert NatValue("0") == 0;
  }

  // ------------------------------------------------------ both conditions of monotonicity are needed

  /**
    A facility that states a collectibility level for one month, in its record and in its history, and nothing else.
   */
  function Past(level: nat, p: string): Facility
    requires 1 <= level <= 5
  {
    Facility(DatedEntry(level, p), [DatedEntry(level, p)], 0)
  }

  function DatedEntry(level: nat, p: string): Record
    requires 1 <= level <= 5
  {
    map["collectibility" := Text([DigitChar(level)]), "period_month" := Text(p)]
  }

  lemma {:induction false} Missing(record: Record, keys: seq<string>)
    requires forall key | key in keys :: key !in record
    ensures RecordValue(record, keys) == None
  {
    if keys != [] {
      Missing(record, keys[1..]);
    }
  }

  lemma DatedReads(level: nat, p: string)
    requires 1 <= level <= 5 && IsPeriod(p)
    ensures var record := DatedEntry(level, p);
      && CollectibilityLevel(RecordValue(record, ["collectibility", "collectibility_code", "kol"])) == Some(level)
      && NormalizePeriodMonth(RecordValue(record, ["period_month", "period", "month_label"])) == Some(p)
      && NormalizePeriodMonth(RecordValue(record, ["period_month", "period"])) == Some(p)
      && FacilityReporterName(record) == "" && FacilityAccountNumber(record) == ""
      && RecordValue(record, ["days_past_due", "dpd", "jumlah_hari_tunggakan"]) == None
  {
    var record := DatedEntry(level, p);
    var c := DigitChar(level);
    TrimmedStays([c]);
    assert [c][0] == c;
    PeriodIsNormal(p);
    Missing(record, ["reporter_name", "reporter_code", "ljk"]);
    Missing(record, ["account_number", "facility_number", "no_rekening"]);
    Missing(record, ["days_past_due", "dpd", "jumlah_hari_tunggakan"]);
    hide IsPeriod, PeriodOfText, Trim;
    assert "collectibility" in record && record["collectibility"] == Text([c]);
    assert "period_month" in record && record["period_month"] == Text(p);
  }

  lemma DatedObservation(level: nat, p: string, fallback: Fallback, source: Source)
    requires 1 <= level <= 5 && IsPeriod(p) && fallback.reporter == fallback.account == ""
    requires fallback.period.Some? ==> IsPeriod(fallback.period.value)
    ensures CreateObservation(DatedEntry(level, p), fallback, source)
      == Some(Observation(Some(p), level, None, "", "", source))
  {
    DatedReads(level, p);
    hide IsPeriod, RecordValue, NormalizePeriodMonth, CollectibilityLevel, DatedEntry, FacilityReporterName,
         FacilityAccountNumber;
  }

  function PastObservations(level: nat, p: string): (obs: seq<Observation>)
    ensures |obs| == 2 && obs[0].source == FromFacility && obs[1].source == FromFacilityHistory
    ensures forall o | o in obs :: o.period == Some(p) && o.level == level
  {
    [Observation(Some(p), level, None, "", "", FromFacility),
     Observation(Some(p), level, None, "", "", FromFacilityHistory)]
  }

  lemma PastFacility(level: nat, p: string, reference: Option<string>)
    requires 1 <= level <= 5 && IsPeriod(p) && (reference.Some? ==> IsPeriod(reference.value))
    ensures OfFacility(Past(level, p), reference) == PastObservations(level, p)
  {
    DatedReads(level, p);
    hide RecordValue, CreateObservation, NormalizePeriodMonth, FacilityReporterName, FacilityAccountNumber, IsPeriod,
         CollectibilityLevel,
         DatedEntry;
    var fallback := FacilityFallback(Past(level, p), reference);
    DatedObservation(level, p, fallback, FromFacility);
    DatedObservation(level, p, fallback, FromFacilityHistory);
    HistoryOfOne(DatedEntry(level, p), fallback, FromFacilityHistory, PastObservations(level, p)[1]);
    assert PastObservations(level, p) == [PastObservations(level, p)[0]] + [PastObservations(level, p)[1]];
    hide OfHistory, FacilityFallback;
  }

  lemma PastIsNotYellow(level: nat, p: string)
    requires 1 <= level <= 5 && IsPeriod(p)
    ensures !IsYellow(Past(level, p))
  {
    DatedReads(level, p);
    hide RecordValue, NormalizePeriodMonth, FacilityReporterName, FacilityAccountNumber, IsPeriod,
         CollectibilityLevel, DatedEntry;
  }

  lemma PastIsNotLegal(level: nat, p: string)
    requires 1 <= level <= 5
    ensures !IsLegal(Past(level, p))
  {
    var f := Past(level, p);
    Missing(f.record, ["condition_code", "kode_kondisi"]);
    Missing(f.record, ["condition", "condition_code", "status"]);
    hide RecordValue;
    assert FacilityCondition(f) == "" && FacilityConditionCode(f) == "";
    NothingInNothing("HAPUSBUKU");
    NothingInNothing("DIHAPUSBUKUKAN");
    NothingInNothing("HAPUSTAGIH");
    hide Contains, FacilityCondition, FacilityConditionCode;
    assert !IsWriteOff(f);
    assert forall key | key in LEGAL_FIELDS :: key !in f.record;
  }

  lemma NothingInNothing(t: string)
    requires t != ""
    ensures !Contains(Letters(Upper("")), t)
  {
  }

  /** Facilities with a history of their own push the summary's aside. */
  lemma RawOfOne(summary: Summary, level: nat, p: string)
    requires 1 <= level <= 5 && IsPeriod(p)
    ensures Raw(summary, [Past(level, p)]) == PastObservations(level, p)
  {
    var reference := ExplicitPeriod(summary);
    PastFacility(level, p, reference);
    hide OfFacility, Past, IsPeriod, ExplicitPeriod, OfHistory;
    assert [Past(level, p)][1..] == [] && OfFacilities([], reference) == [];
    assert PastObservations(level, p) + [] == PastObservations(level, p);
    assert PastObservations(level, p)[1].source == FromFacilityHistory;
  }

  lemma OfTwo(f: Facility, g: Facility, reference: Option<string>, a: seq<Observation>, b: seq<Observation>)
    requires (reference.Some? ==> IsPeriod(reference.value)) && OfFacility(f, reference) == a
      && OfFacility(g, reference) == b
    ensures OfFacilities([f, g], reference) == a + b
  {
    hide OfFacility, IsPeriod;
    assert [f, g][1..] == [g] && [g][1..] == [] && b + [] == b;
    assert OfFacilities([], reference) == [];
    assert OfFacilities([g], reference) == b;
  }

  lemma RawOfTwo(summary: Summary, level: nat, p: string, other: nat, q: string)
    requires 1 <= level <= 5 && 1 <= other <= 5 && IsPeriod(p) && IsPeriod(q)
    ensures Raw(summary, [Past(level, p), Past(other, q)]) == PastObservations(level, p) + PastObservations(other, q)
  {
    var reference := ExplicitPeriod(summary);
    var a, b := PastObservations(level, p), PastObservations(other, q);
    PastFacility(level, p, reference);
    PastFacility(other, q, reference);
    hide OfFacility, Past, IsPeriod, ExplicitPeriod, OfHistory, PastObservations;
    OfTwo(Past(level, p), Past(other, q), reference, a, b);
    hide OfFacilities;
    assert (a + b)[1] == a[1];
  }

  lemma Concludes(summary: Summary, fs: seq<Facility>, reference: Option<string>, rule: Rule)
    requires ReferencePeriod(summary, Raw(summary, fs)) == reference && Judge(fs, Raw(summary, fs), reference) == rule
    ensures Conclude(summary, fs) == Conclusion(rule, reference)
  {
    DeduplicationIsHarmless(summary, fs);
    hide Raw, ReferencePeriod, Judge, Conclude;
  }

  lemma JudgedRed(fs: seq<Facility>, obs: seq<Observation>, reference: Option<string>, o: Observation)
    requires (forall o | o in obs :: IsProper(o)) && (reference.Some? ==> IsPeriod(reference.value))
    requires (forall f | f in fs :: !IsLegal(f)) && o in obs && IsDefaultedObservation(o, reference)
    ensures Judge(fs, obs, reference) == RedKol
  {
    hide IsLegal, IsYellow, IsDefaultedObservation, IsPeriod, IsProper;
  }

  lemma JudgedGreen(fs: seq<Facility>, obs: seq<Observation>, reference: Option<string>, o: Observation)
    requires (forall o | o in obs :: IsProper(o)) && (reference.Some? ==> IsPeriod(reference.value))
    requires (forall f | f in fs :: !IsLegal(f) && !IsYellow(f)) && o in obs && IsRecent(o, reference)
    requires forall o | o in obs :: !IsDefaultedObservation(o, reference) && (IsRecent(o, reference) ==> o.level == 1)
    ensures Judge(fs, obs, reference) == Green
  {
    hide IsLegal, IsYellow, IsDefaultedObservation, IsPeriod, IsProper, IsRecent;
  }

  /**
    Without an explicit period one more facility can turn red into green, whatever else the summary says: its later
    period becomes the reference and the old default falls out of the window.
   */
  lemma ExplicitPeriodIsNeeded(summary: Summary, p: string, q: string)
    requires ExplicitPeriod(summary).None?
    requires IsPeriod(p) && IsPeriod(q) && TextLe(p, q) && MonthSerial(q) - MonthSerial(p) >= 24
    ensures Conclude(summary, [Past(3, p)]).rule == RedKol
    ensures Conclude(summary, [Past(3, p), Past(1, q)]).rule == Green
  {
    RedAlone(summary, p);
    GreenTogether(summary, p, q);
  }

  lemma RedAlone(summary: Summary, p: string)
    requires IsPeriod(p) && ExplicitPeriod(summary).None?
    ensures Conclude(summary, [Past(3, p)]).rule == RedKol
  {
    hide PastObservations, Raw, Past, IsPeriod, IsLegal, TextLe, ExplicitPeriod, Conclude, ReferencePeriod, Judge;
    RawOfOne(summary, 3, p);
    PastIsNotLegal(3, p);
    DefaultedNow(summary, [Past(3, p)], p);
    Concludes(summary, [Past(3, p)], Some(p), RedKol);
  }

  lemma DefaultedNow(summary: Summary, fs: seq<Facility>, p: string)
    requires IsPeriod(p) && ExplicitPeriod(summary).None? && forall f | f in fs :: !IsLegal(f)
    ensures var obs := PastObservations(3, p);
      (forall o | o in obs :: IsProper(o)) && ReferencePeriod(summary, obs) == Some(p)
        && Judge(fs, obs, Some(p)) == RedKol
  {
    TextLeTotal(p, p);
    hide IsPeriod, IsLegal, TextLe, ExplicitPeriod, ReferencePeriod, Judge, MonthSerial, PastObservations;
    var obs := PastObservations(3, p);
    Latest(summary, obs, p);
    assert obs[0] in obs;
    JudgedRed(fs, obs, Some(p), obs[0]);
  }

  lemma GreenTogether(summary: Summary, p: string, q: string)
    requires IsPeriod(p) && IsPeriod(q) && TextLe(p, q) && MonthSerial(q) - MonthSerial(p) >= 24
    requires ExplicitPeriod(summary).None?
    ensures Conclude(summary, [Past(3, p), Past(1, q)]).rule == Green
  {
    hide PastObservations, Raw, Past, IsPeriod, IsLegal, IsYellow, TextLe, ExplicitPeriod, Conclude, MonthSerial,
         ReferencePeriod, Judge;
    RawOfTwo(summary, 3, p, 1, q);
    PastIsNotLegal(3, p);
    PastIsNotLegal(1, q);
    PastIsNotYellow(3, p);
    PastIsNotYellow(1, q);
    var fs, obs := [Past(3, p), Past(1, q)], PastObservations(3, p) + PastObservations(1, q);
    LatestOfBoth(summary, p, q);
    OldAndRecent(fs, p, q);
    Concludes(summary, fs, Some(q), Green);
  }

  lemma LatestOfBoth(summary: Summary, p: string, q: string)
    requires IsPeriod(p) && IsPeriod(q) && TextLe(p, q) && ExplicitPeriod(summary).None?
    ensures var obs := PastObservations(3, p) + PastObservations(1, q);
      (forall o | o in obs :: IsProper(o)) && ReferencePeriod(summary, obs) == Some(q)
  {
    TextLeTotal(q, q);
    hide PastObservations, TextLe, ExplicitPeriod, ReferencePeriod, IsPeriod;
    var a, b := PastObservations(3, p), PastObservations(1, q);
    assert (a + b)[|a + b| - 1] == b[1];
    Latest(summary, a + b, q);
  }

  lemma OldAndRecent(fs: seq<Facility>, p: string, q: string)
    requires IsPeriod(p) && IsPeriod(q) && MonthSerial(q) - MonthSerial(p) >= 24
    requires forall f | f in fs :: !IsLegal(f) && !IsYellow(f)
    ensures var obs := PastObservations(3, p) + PastObservations(1, q);
      (forall o | o in obs :: IsProper(o)) && Judge(fs, obs, Some(q)) == Green
  {
    hide IsPeriod, IsLegal, IsYellow, MonthSerial, Judge, PastObservations;
    var obs := PastObservations(3, p) + PastObservations(1, q);
    assert forall o | o in obs :: o in PastObservations(3, p) || o in PastObservations(1, q);
    var e := PastObservations(1, q)[1];
    assert e in obs;
    JudgedGreen(fs, obs, Some(q), e);
  }

  lemma Latest(summary: Summary, obs: seq<Observation>, p: string)
    requires (forall o | o in obs :: IsProper(o) && o.period.Some? && TextLe(o.period.value, p))
    requires obs != [] && obs[|obs| - 1].period == Some(p) && ExplicitPeriod(summary).None?
    ensures ReferencePeriod(summary, obs) == Some(p)
  {
    ReferenceIsLatest(summary, obs);
    hide ReferencePeriod, TextLe, ExplicitPeriod, IsProper;
    assert p in Periods(obs);
    TextLeTotal(p, ReferencePeriod(summary, obs).value);
  }

  lemma HistoryOfOne(entry: Record, fallback: Fallback, source: Source, o: Observation)
    requires fallback.period.Some? ==> IsPeriod(fallback.period.value)
    requires CreateObservation(entry, fallback, source) == Some(o)
    ensures OfHistory([entry], fallback, source) == [o]
  {
    hide CreateObservation;
    assert [entry][1..] == [];
    assert OfHistory([], fallback, source) == [];
  }

  /**
    With a default in the summary's history a facility can turn red into green as well: its own history replaces the
    summary's.
   */
  lemma NoDefaultedHistoryIsNeeded(summary: Summary)
    requires ExplicitPeriod(summary).Some? && HasDefaultedHistory(summary)
    ensures Conclude(summary, []).rule == RedKol
    ensures Conclude(summary, [Past(1, ExplicitPeriod(summary).value)]).rule == Green
  {
    RedFromSummary(summary);
    GreenFromFacility(summary, ExplicitPeriod(summary).value);
  }

  lemma RedFromSummary(summary: Summary)
    requires ExplicitPeriod(summary).Some? && HasDefaultedHistory(summary)
    ensures Conclude(summary, []).rule == RedKol
  {
    hide OfHistory, IsPeriod, ExplicitPeriod, Conclude, IsDefaultedObservation, ReferencePeriod, Judge;
    var reference := ExplicitPeriod(summary);
    var obs := OfHistory(summary.history, Fallback(reference, "", ""), FromSummaryHistory);
    assert OfFacilities([], reference) == [] && [] + obs == obs;
    assert Raw(summary, []) == obs;
    var o :| o in obs && IsDefaultedObservation(o, reference);
    ReferenceIsExplicit(summary, obs);
    JudgedRed([], obs, reference, o);
    Concludes(summary, [], reference, RedKol);
  }

  lemma GreenFromFacility(summary: Summary, p: string)
    requires IsPeriod(p) && ExplicitPeriod(summary) == Some(p)
    ensures Conclude(summary, [Past(1, p)]).rule == Green
  {
    hide Raw, Past, IsPeriod, IsLegal, IsYellow, ExplicitPeriod, Conclude, MonthSerial, ReferencePeriod, Judge;
    RawOfOne(summary, 1, p);
    PastIsNotLegal(1, p);
    PastIsNotYellow(1, p);
    var obs := PastObservations(1, p);
    ReferenceIsExplicit(summary, obs);
    JudgedGreen([Past(1, p)], obs, Some(p), obs[0]);
    Concludes(summary, [Past(1, p)], Some(p), Green);
  }

  lemma ReferenceIsExplicit(summary: Summary, obs: seq<Observation>)
    requires (forall o | o in obs :: IsProper(o)) && ExplicitPeriod(summary).Some?
    ensures ReferencePeriod(summary, obs) == ExplicitPeriod(summary)
  {
    hide ExplicitPeriod, Sort, Periods;
  }

  // --------------------------------------------------------------- what periods and observations are read from

  /** 01 to 09 or 10 to 12. */
  ghost predicate IsMonthText(m: string) {
    |m| == 2 && ((m[0] == '0' && '1' <= m[1] <= '9') || (m[0] == '1' && '0' <= m[1] <= '2'))
  }

  lemma MonthMeans(m: string)
    ensures IsMonth(m) <==> IsMonthText(m)
  {
    if |m| == 2 && AllDigits(m) {
      assert m[..1] == [m[0]] && m[..1][..0] == "";
      assert IsDigit(m[0]) && IsDigit(m[1]);
      assert NatValue(m) == 10 * NatValue(m[..1]) + DigitValue(m[1]);
      assert NatValue(m[..1]) == DigitValue(m[0]);
    } else if |m| == 2 {
      assert !IsDigit(m[0]) || !IsDigit(m[1]);
    }
  }

  /** A year and a month, with a hyphen, a slash or nothing between them, and no digit behind them. */
  ghost predicate BeginsWithPeriod(t: string, year: string, between: string, month: string, rest: string) {
    && t == year + between + month + rest && between in {"", "-", "/"}
    && |year| == 4 && AllDigits(year) && IsMonthText(month) && (rest == "" || !IsDigit(rest[0]))
  }

  lemma PeriodIsAt(t: string, i: nat, p: string)
    requires i <= |t| && PeriodAt(t, i) == Some(p) && (i == 4 || (i == 5 && t[4] in {'-', '/'}))
    ensures exists year, between, month, rest ::
      BeginsWithPeriod(t, year, between, month, rest) && p == year + "-" + month
  {
    var year, between, month, rest := t[..4], t[4..i], t[i..i + 2], t[i + 2..];
    MonthMeans(month);
    hide IsMonth, IsMonthText;
    assert t == year + between + month + rest;
    assert i == 5 ==> between == [t[4]];
    assert BeginsWithPeriod(t, year, between, month, rest);
  }

  lemma PeriodIsFound(t: string, year: string, between: string, month: string, rest: string)
    requires BeginsWithPeriod(t, year, between, month, rest)
    ensures PeriodOfText(t) == Some(year + "-" + month)
  {
    MonthMeans(month);
    var i := 4 + |between|;
    assert month[0] in {'0', '1'};
    hide IsMonth, IsMonthText;
    assert t[..4] == year && t[i..i + 2] == month;
    assert between != "" ==> t[4] == between[0];
    assert between == "" ==> t[4] == month[0];
    assert rest != "" ==> t[i + 2] == rest[0];
  }

  /** Read as a period is exactly a text that begins with one. */
  lemma PeriodTextMeans(t: string, p: string)
    ensures PeriodOfText(t) == Some(p) <==> exists year, between, month, rest ::
              BeginsWithPeriod(t, year, between, month, rest) && p == year + "-" + month
  {
    hide PeriodAt, BeginsWithPeriod;
    if PeriodOfText(t) == Some(p) {
      PeriodIsAt(t, if |t| > 4 && t[4] in {'-', '/'} then 5 else 4, p);
    }
    if year, between, month, rest :| BeginsWithPeriod(t, year, between, month, rest) && p == year + "-" + month {
      PeriodIsFound(t, year, between, month, rest);
    }
  }

  /** The report's own period is the first of three dates that reads as one. */
  lemma ExplicitPeriodMeans(summary: Summary)
    ensures var month, result, processed := PeriodOf(summary.record, "period_month"),
              PeriodOf(summary.record, "result_date"), PeriodOf(summary.record, "processed_at");
      ExplicitPeriod(summary) == if month.Some? then month else if result.Some? then result else processed
  {
    PlainTexts();
    hide PeriodOfText, NormalizeText;
  }

  ghost function PeriodOf(record: Record, key: string): Option<string> {
    if key in record then PeriodOfText(NormalizeText(Some(record[key]))) else PeriodOfText("")
  }

  /** The period in the first of the fields that holds a value. */
  ghost predicate IsPeriodIn(record: Record, keys: seq<string>, period: Option<string>) {
    exists v | IsFirstOf(record, keys, v) :: period == PeriodOfText(NormalizeText(v))
  }

  lemma PeriodIsRead(record: Record, keys: seq<string>)
    ensures IsPeriodIn(record, keys, NormalizePeriodMonth(RecordValue(record, keys)))
  {
    FirstIsRead(record, keys);
    hide PeriodOfText, NormalizeText, RecordValue, IsFirstOf;
  }

  /**
    An entry is observed exactly when its collectibility states a level; period, days past due, reporter and account are
    its own, or where it names none those it falls back to, except that days past due have no fallback.
   */
  lemma ObservationReads(entry: Record, fallback: Fallback, source: Source)
    requires fallback.period.Some? ==> IsPeriod(fallback.period.value)
    ensures exists kol, days, period |
              && IsFirstOf(entry, ["collectibility", "collectibility_code", "kol"], kol)
              && IsFirstOf(entry, ["days_past_due", "dpd", "jumlah_hari_tunggakan"], days)
              && IsPeriodIn(entry, ["period_month", "period", "month_label"], period) ::
              CreateObservation(entry, fallback, source) == ObservedAs(entry, fallback, source, kol, days, period)
  {
    FirstIsRead(entry, ["collectibility", "collectibility_code", "kol"]);
    FirstIsRead(entry, ["days_past_due", "dpd", "jumlah_hari_tunggakan"]);
    PeriodIsRead(entry, ["period_month", "period", "month_label"]);
    hide RecordValue, IsFirstOf, IsPeriodIn, NormalizePeriodMonth, CollectibilityLevel, ParseScalar, IsPeriod,
         FacilityReporterName, FacilityAccountNumber;
  }

  ghost function ObservedAs(entry: Record, fallback: Fallback, source: Source, kol: Option<Scalar>,
                            days: Option<Scalar>, period: Option<string>): Option<Observation>
  {
    match CollectibilityLevel(kol)
    case None => None
    case Some(level) => Some(Observation(
      if period.None? then fallback.period else period, level, ParseScalar(days),
      if FacilityReporterName(entry) == "" then fallback.reporter else FacilityReporterName(entry),
      if FacilityAccountNumber(entry) == "" then fallback.account else FacilityAccountNumber(entry),
      source))
  }

  /** What a facility's own entries fall back to: its period, or else the report's, its reporter and its account. */
  lemma FallbackReads(f: Facility, reference: Option<string>)
    requires reference.Some? ==> IsPeriod(reference.value)
    ensures exists period | IsPeriodIn(f.record, ["period_month", "period"], period) ::
              FacilityFallback(f, reference)
              == Fallback(if period.None? then reference else period,
                          FacilityReporterName(f.record), FacilityAccountNumber(f.record))
  {
    PeriodIsRead(f.record, ["period_month", "period"]);
    hide RecordValue, IsPeriodIn, NormalizePeriodMonth, IsPeriod, FacilityReporterName, FacilityAccountNumber;
  }
}
