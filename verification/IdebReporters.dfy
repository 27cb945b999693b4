/**
  Grouping facilities by reporting institution (src/utils/ideb-report.js:201-218, 756-872), and the report
  totals computed straight from the facilities (lines 913-1047).
 */
module IdebReporters {
  import opened Options
  import opened IdebRecord
  import opened Sorting

  datatype Identity = Identity(key: string, code: Option<string>, name: string)

  function ReporterIdentity(f: Facility): Identity {
    var code := NormalizeText(RecordValue(f.record, ["reporter_code", "ljk"]));
    var name := NormalizeText(RecordValue(f.record, ["reporter_name", "bank"]));
    Identity(
      if code != "" then "CODE:" + Upper(code) else "NAME:" + Upper(if name != "" then name else "TIDAK DIKETAHUI"),
      if code != "" then Some(code) else None,
      if name != "" then name else if code != "" then code else "Tidak diketahui")
  }

  datatype Group = Group(
    key: string,
    reporterCode: Option<string>,
    reporterName: string,
    facilityCount: nat,
    activeFacilityCount: nat,
    paidOffFacilityCount: nat,
    writeOffFacilityCount: nat,
    inactiveFacilityCount: nat,
    worstCollectibility: Option<Scalar>,
    worstLevel: nat,
    activeWorstCollectibility: Option<Scalar>,
    activeWorstLevel: nat,
    activeHighestDpd: real,
    highestDpd: real,
    totalPlafond: real,
    totalOutstanding: real,
    totalArrears: real,
    activeOutstanding: real,
    activeArrears: real,
    paidOffPlafond: real,
    writeOffPlafond: real,
    writeOffOutstanding: real,
    writeOffArrears: real,
    collateralCount: nat,
    facilities: seq<Facility>)

  function EmptyGroup(identity: Identity): Group {
    Group(identity.key, identity.code, identity.name, 0, 0, 0, 0, 0, None, 0, None, 0,
          0.0, 0.0, 0.0, 0.0, 0.0, 0.0, 0.0, 0.0, 0.0, 0.0, 0.0, 0, [])
  }

  // ------------------------------------------------------- what the totals mean, facility by facility

  datatype Measure = Facilities | Plafond | Outstanding | Arrears | Collaterals

  function Amount(m: Measure, f: Facility): real {
    match m
    case Facilities => 1.0
    case Plafond => FacilityPlafond(f)
    case Outstanding => FacilityOutstanding(f)
    case Arrears => FacilityArrears(f)
    case Collaterals => f.collaterals as real
  }

  /** The whole list, or the facilities of one class. */
  predicate Selects(c: Option<Class>, f: Facility) {
    c.None? || c.value == Classify(f)
  }

  function Total(fs: seq<Facility>, m: Measure, c: Option<Class>): real {
    if fs == [] then 0.0
    else Total(fs[..|fs| - 1], m, c) + (if Selects(c, fs[|fs| - 1]) then Amount(m, fs[|fs| - 1]) else 0.0)
  }

  function Dpd(f: Facility): real {
    if FacilityDaysPastDue(f).Some? then Real(FacilityDaysPastDue(f).value) else 0.0
  }

  /** The level of a facility's collectibility, zero when it has none. */
  function Level(f: Facility): nat {
    var level := CollectibilityLevel(FacilityCollectibility(f));
    if level.Some? then level.value else 0
  }

  /** The largest value over the selected facilities, and at least zero. */
  ghost predicate IsHighest(x: real, fs: seq<Facility>, c: Option<Class>) {
    && x >= 0.0
    && (forall i | 0 <= i < |fs| && Selects(c, fs[i]) :: Dpd(fs[i]) <= x)
    && (x == 0.0 || exists i :: 0 <= i < |fs| && Selects(c, fs[i]) && Dpd(fs[i]) == x)
  }

  /** `v` is the collectibility of a selected facility of the worst level `n`, or there is none. */
  ghost predicate IsWorst(n: nat, v: Option<Scalar>, fs: seq<Facility>, c: Option<Class>) {
    && (forall i | 0 <= i < |fs| && Selects(c, fs[i]) :: Level(fs[i]) <= n)
    && (n == 0 ==> v == None)
    && (n > 0 ==> exists i ::
          0 <= i < |fs| && Selects(c, fs[i]) && Level(fs[i]) == n && FacilityCollectibility(fs[i]) == v)
  }

  function Members(fs: seq<Facility>, key: string): seq<Facility> {
    if fs == [] then []
    else
      var f := fs[|fs| - 1];
      Members(fs[..|fs| - 1], key) + (if ReporterIdentity(f).key == key then [f] else [])
  }

  /** The accumulators a group keeps, by measure and class. */
  function Field(g: Group, m: Measure, c: Option<Class>): Option<real> {
    match (m, c)
    case (Facilities, None) => Some(g.facilityCount as real)
    case (Facilities, Some(Active)) => Some(g.activeFacilityCount as real)
    case (Facilities, Some(PaidOff)) => Some(g.paidOffFacilityCount as real)
    case (Facilities, Some(WriteOff)) => Some(g.writeOffFacilityCount as real)
    case (Facilities, Some(Inactive)) => Some(g.inactiveFacilityCount as real)
    case (Plafond, None) => Some(g.totalPlafond)
    case (Outstanding, None) => Some(g.totalOutstanding)
    case (Arrears, None) => Some(g.totalArrears)
    case (Outstanding, Some(Active)) => Some(g.activeOutstanding)
    case (Arrears, Some(Active)) => Some(g.activeArrears)
    case (Plafond, Some(PaidOff)) => Some(g.paidOffPlafond)
    case (Plafond, Some(WriteOff)) => Some(g.writeOffPlafond)
    case (Outstanding, Some(WriteOff)) => Some(g.writeOffOutstanding)
    case (Arrears, Some(WriteOff)) => Some(g.writeOffArrears)
    case (Collaterals, None) => Some(g.collateralCount as real)
    case _ => None
  }

  ghost predicate TotalsAre(g: Group, fs: seq<Facility>) {
    forall m, c | Field(g, m, c).Some? :: Field(g, m, c).value == Total(fs, m, c)
  }

  /** Every accumulator of `g` says of the facilities `fs` what its name promises. */
  ghost predicate Summarises(g: Group, fs: seq<Facility>) {
    && TotalsAre(g, fs)
    && IsHighest(g.highestDpd, fs, None) && IsHighest(g.activeHighestDpd, fs, Some(Active))
    && IsWorst(g.worstLevel, g.worstCollectibility, fs, None)
    && IsWorst(g.activeWorstLevel, g.activeWorstCollectibility, fs, Some(Active))
  }

  // ------------------------------------------------------------------------------------ one facility

  function MaxReal(x: real, y: real): real {
    if x < y then y else x
  }

  function UpdateWorst(g: Group, f: Facility, active: bool): Group {
    var value, level := FacilityCollectibility(f), Level(f);
    var g1 := if level > g.worstLevel then g.(worstLevel := level, worstCollectibility := value) else g;
    if active && level > g1.activeWorstLevel then g1.(activeWorstLevel := level, activeWorstCollectibility := value)
    else g1
  }

  function UpdateClass(g: Group, f: Facility, c: Class): Group {
    match c
    case Active => g.(
      activeFacilityCount := g.activeFacilityCount + 1,
      activeOutstanding := g.activeOutstanding + FacilityOutstanding(f),
      activeArrears := g.activeArrears + FacilityArrears(f),
      activeHighestDpd := MaxReal(g.activeHighestDpd, Dpd(f)))
    case PaidOff => g.(
      paidOffFacilityCount := g.paidOffFacilityCount + 1,
      paidOffPlafond := g.paidOffPlafond + FacilityPlafond(f))
    case WriteOff => g.(
      writeOffFacilityCount := g.writeOffFacilityCount + 1,
      writeOffPlafond := g.writeOffPlafond + FacilityPlafond(f),
      writeOffOutstanding := g.writeOffOutstanding + FacilityOutstanding(f),
      writeOffArrears := g.writeOffArrears + FacilityArrears(f))
    case Inactive => g.(inactiveFacilityCount := g.inactiveFacilityCount + 1)
  }

  function UpdateAll(g: Group, f: Facility): Group {
    g.(
      facilityCount := g.facilityCount + 1,
      totalPlafond := g.totalPlafond + FacilityPlafond(f),
      totalOutstanding := g.totalOutstanding + FacilityOutstanding(f),
      totalArrears := g.totalArrears + FacilityArrears(f),
      highestDpd := MaxReal(g.highestDpd, Dpd(f)),
      collateralCount := g.collateralCount + f.collaterals,
      facilities := g.facilities + [f])
  }

  function AddFacility(g: Group, f: Facility): Group {
    UpdateWorst(UpdateClass(UpdateAll(g, f), f, Classify(f)), f, Classify(f) == Active)
  }

  /** Each update touches the accumulators of its own class and no other. */
  lemma FieldAfterAll(g: Group, f: Facility, m: Measure, c: Option<Class>)
    requires Field(g, m, c).Some?
    ensures Field(UpdateAll(g, f), m, c) == Some(Field(g, m, c).value + if c.None? then Amount(m, f) else 0.0)
  {
    hide FacilityPlafond, FacilityOutstanding, FacilityArrears, Dpd, MaxReal;
  }

  lemma FieldAfterClass(g: Group, f: Facility, k: Class, m: Measure, c: Option<Class>)
    requires Field(g, m, c).Some?
    ensures Field(UpdateClass(g, f, k), m, c) == Some(Field(g, m, c).value + if c == Some(k) then Amount(m, f) else 0.0)
  {
    hide FacilityPlafond, FacilityOutstanding, FacilityArrears, Dpd, MaxReal;
    match k
    case Active =>
    case PaidOff =>
    case WriteOff =>
    case Inactive =>
  }

  lemma FieldAfterWorst(g: Group, f: Facility, active: bool, m: Measure, c: Option<Class>)
    ensures Field(UpdateWorst(g, f, active), m, c) == Field(g, m, c)
  {
    hide FacilityCollectibility, Level;
  }

  lemma TotalsAdd(g: Group, fs: seq<Facility>, f: Facility)
    requires TotalsAre(g, fs)
    ensures TotalsAre(AddFacility(g, f), fs + [f])
  {
    var g1 := UpdateAll(g, f);
    var g2 := UpdateClass(g1, f, Classify(f));
    assert (fs + [f])[..|fs|] == fs;
    hide UpdateAll, UpdateClass, UpdateWorst, Classify, Amount;
    forall m, c | Field(AddFacility(g, f), m, c).Some?
      ensures Field(AddFacility(g, f), m, c).value == Total(fs + [f], m, c)
    {
      SameFields(AddFacility(g, f), g, m, c);
      FieldAfterAll(g, f, m, c);
      FieldAfterClass(g1, f, Classify(f), m, c);
      FieldAfterWorst(g2, f, Classify(f) == Active, m, c);
      hide Field;
      assert Total(fs + [f], m, c) == Total(fs, m, c) + if Selects(c, f) then Amount(m, f) else 0.0;
    }
  }

  lemma SameFields(g: Group, h: Group, m: Measure, c: Option<Class>)
    ensures Field(g, m, c).Some? == Field(h, m, c).Some?
  {
  }

  lemma HighestAdd(x: real, fs: seq<Facility>, f: Facility, c: Option<Class>)
    requires IsHighest(x, fs, c)
    ensures IsHighest(if Selects(c, f) then MaxReal(x, Dpd(f)) else x, fs + [f], c)
  {
    hide Dpd, Classify;
    var gs := fs + [f];
    assert gs[|fs|] == f;
    if x > 0.0 {
      var i :| 0 <= i < |fs| && Selects(c, fs[i]) && Dpd(fs[i]) == x;
      assert gs[i] == fs[i];
    }
  }

  lemma WorstAdd(n: nat, v: Option<Scalar>, fs: seq<Facility>, f: Facility, c: Option<Class>)
    requires IsWorst(n, v, fs, c)
    ensures var better := Selects(c, f) && Level(f) > n;
      IsWorst(if better then Level(f) else n, if better then FacilityCollectibility(f) else v, fs + [f], c)
  {
    hide Level, FacilityCollectibility, Classify;
    var gs := fs + [f];
    assert gs[|fs|] == f;
    if n > 0 {
      var i :| 0 <= i < |fs| && Selects(c, fs[i]) && Level(fs[i]) == n && FacilityCollectibility(fs[i]) == v;
      assert gs[i] == fs[i];
    }
  }

  lemma SummaryAdd(g: Group, fs: seq<Facility>, f: Facility)
    requires Summarises(g, fs)
    ensures Summarises(AddFacility(g, f), fs + [f])
  {
    TotalsAdd(g, fs, f);
    HighestAdd(g.highestDpd, fs, f, None);
    HighestAdd(g.activeHighestDpd, fs, f, Some(Active));
    WorstAdd(g.worstLevel, g.worstCollectibility, fs, f, None);
    WorstAdd(g.activeWorstLevel, g.activeWorstCollectibility, fs, f, Some(Active));
    hide Dpd, Level, FacilityCollectibility, Classify, IsHighest, IsWorst, TotalsAre,
         FacilityPlafond, FacilityOutstanding, FacilityArrears, MaxReal;
  }

  // ------------------------------------------------------------------------------------------- order

  function RiskVector(f: Facility): seq<real> {
    [Level(f) as real, Dpd(f), FacilityArrears(f), FacilityOutstanding(f), FacilityPlafond(f)]
  }

  /** Riskiest first, ties by reporter name in the locale's order `nameLe`. */
  predicate RiskierOrSame(nameLe: (string, string) -> bool, a: Facility, b: Facility) {
    if RiskVector(a) == RiskVector(b) then
      nameLe(NormalizeText(RecordValue(a.record, ["reporter_name", "reporter_code"])),
             NormalizeText(RecordValue(b.record, ["reporter_name", "reporter_code"])))
    else AtLeast(RiskVector(a), RiskVector(b))
  }

  function RiskOrder(nameLe: (string, string) -> bool): (Facility, Facility) -> bool {
    (a, b) => RiskierOrSame(nameLe, a, b)
  }

  function PriorityVector(g: Group): seq<real> {
    [if g.activeFacilityCount > 0 then 1.0 else 0.0, g.activeWorstLevel as real, g.activeHighestDpd,
     g.activeArrears, g.activeOutstanding, g.worstLevel as real, g.highestDpd,
     g.totalArrears, g.totalOutstanding, g.totalPlafond]
  }

  predicate PriorOrSame(nameLe: (string, string) -> bool, a: Group, b: Group) {
    if PriorityVector(a) == PriorityVector(b) then nameLe(a.reporterName, b.reporterName)
    else AtLeast(PriorityVector(a), PriorityVector(b))
  }

  function PriorityOrder(nameLe: (string, string) -> bool): (Group, Group) -> bool {
    (a, b) => PriorOrSame(nameLe, a, b)
  }

  /** No criterion of `b` exceeds that of `a` unless an earlier one falls below it; ties go by the reporter's name. */
  ghost predicate IsListedBefore(nameLe: (string, string) -> bool, a: Group, b: Group) {
    && (b.activeFacilityCount > 0 ==> a.activeFacilityCount > 0)
    && ((a.activeFacilityCount > 0 <==> b.activeFacilityCount > 0) ==>
          a.activeWorstLevel >= b.activeWorstLevel
          && (a.activeWorstLevel == b.activeWorstLevel ==>
                a.activeHighestDpd >= b.activeHighestDpd
                && (a.activeHighestDpd == b.activeHighestDpd ==>
                      a.activeArrears >= b.activeArrears
                      && (a.activeArrears == b.activeArrears ==>
                            a.activeOutstanding >= b.activeOutstanding
                            && (a.activeOutstanding == b.activeOutstanding ==> IsListedBeforeInAll(nameLe, a, b))))))
  }

  /** The same over all facilities of the two reporters, active or not. */
  ghost predicate IsListedBeforeInAll(nameLe: (string, string) -> bool, a: Group, b: Group) {
    && a.worstLevel >= b.worstLevel
    && (a.worstLevel == b.worstLevel ==>
          a.highestDpd >= b.highestDpd
          && (a.highestDpd == b.highestDpd ==>
                a.totalArrears >= b.totalArrears
                && (a.totalArrears == b.totalArrears ==>
                      a.totalOutstanding >= b.totalOutstanding
                      && (a.totalOutstanding == b.totalOutstanding ==>
                            a.totalPlafond >= b.totalPlafond
                            && (a.totalPlafond == b.totalPlafond ==> nameLe(a.reporterName, b.reporterName))))))
  }

  /** Riskiest first: by level, days past due, arrears, outstanding, plafond, and then the reporter's name. */
  ghost predicate IsRiskier(nameLe: (string, string) -> bool, a: Facility, b: Facility) {
    && Level(a) >= Level(b)
    && (Level(a) == Level(b) ==>
          Dpd(a) >= Dpd(b)
          && (Dpd(a) == Dpd(b) ==>
                FacilityArrears(a) >= FacilityArrears(b)
                && (FacilityArrears(a) == FacilityArrears(b) ==>
                      FacilityOutstanding(a) >= FacilityOutstanding(b)
                      && (FacilityOutstanding(a) == FacilityOutstanding(b) ==>
                            FacilityPlafond(a) >= FacilityPlafond(b)
                            && (FacilityPlafond(a) == FacilityPlafond(b) ==>
                                  nameLe(NormalizeText(RecordValue(a.record, ["reporter_name", "reporter_code"])),
                                         NormalizeText(RecordValue(b.record, ["reporter_name", "reporter_code"]))))))))
  }

  lemma PriorityByFields(nameLe: (string, string) -> bool, a: Group, b: Group)
    requires PriorityOrder(nameLe)(a, b)
    ensures IsListedBefore(nameLe, a, b)
  {
    var xs, ys := PriorityVector(a), PriorityVector(b);
    if xs != ys {
      FirstFive(xs, ys);
      if xs[..5] == ys[..5] {
        assert xs == xs[..5] + xs[5..] && ys == ys[..5] + ys[5..];
        FirstFive(xs[5..], ys[5..]);
      }
    }
    assert xs[..5] == ys[..5] <==> forall i | 0 <= i < 5 :: xs[i] == ys[i];
    assert xs[5..] == ys[5..] <==> forall i | 5 <= i < 10 :: xs[i] == ys[i];
  }

  lemma RiskByFields(nameLe: (string, string) -> bool, a: Facility, b: Facility)
    requires RiskOrder(nameLe)(a, b)
    ensures IsRiskier(nameLe, a, b)
  {
    hide Level, Dpd, FacilityArrears, FacilityOutstanding, FacilityPlafond, NormalizeText, RecordValue;
    var xs, ys := RiskVector(a), RiskVector(b);
    if xs != ys {
      FirstFive(xs, ys);
      assert xs == xs[..5] && ys == ys[..5];
    }
  }

  lemma RiskOrderIsTotal(nameLe: (string, string) -> bool)
    requires TotalPreorder(nameLe)
    ensures TotalPreorder(RiskOrder(nameLe))
  {
    hide RiskVector, NormalizeText, RecordValue;
    forall a, b
      ensures RiskOrder(nameLe)(a, b) || RiskOrder(nameLe)(b, a)
    {
      SameLength(a, b);
      AtLeastTotal(RiskVector(a), RiskVector(b));
    }
    forall a, b, c | RiskOrder(nameLe)(a, b) && RiskOrder(nameLe)(b, c)
      ensures RiskOrder(nameLe)(a, c)
    {
      SameLength(a, b);
      SameLength(b, c);
      AtLeastTotal(RiskVector(a), RiskVector(b));
      AtLeastTotal(RiskVector(b), RiskVector(c));
      AtLeastTransitive(RiskVector(a), RiskVector(b), RiskVector(c));
      AtLeastTotal(RiskVector(a), RiskVector(c));
    }
  }

  lemma SameLength(a: Facility, b: Facility)
    ensures |RiskVector(a)| == |RiskVector(b)|
  {
  }

  lemma PriorityOrderIsTotal(nameLe: (string, string) -> bool)
    requires TotalPreorder(nameLe)
    ensures TotalPreorder(PriorityOrder(nameLe))
  {
    hide PriorityVector;
    forall a, b
      ensures PriorityOrder(nameLe)(a, b) || PriorityOrder(nameLe)(b, a)
    {
      SameWidth(a, b);
      AtLeastTotal(PriorityVector(a), PriorityVector(b));
    }
    forall a, b, c | PriorityOrder(nameLe)(a, b) && PriorityOrder(nameLe)(b, c)
      ensures PriorityOrder(nameLe)(a, c)
    {
      SameWidth(a, b);
      SameWidth(b, c);
      AtLeastTotal(PriorityVector(a), PriorityVector(b));
      AtLeastTotal(PriorityVector(b), PriorityVector(c));
      AtLeastTransitive(PriorityVector(a), PriorityVector(b), PriorityVector(c));
      AtLeastTotal(PriorityVector(a), PriorityVector(c));
    }
  }

  lemma SameWidth(a: Group, b: Group)
    ensures |PriorityVector(a)| == |PriorityVector(b)|
  {
  }

  // ---------------------------------------------------------------------------------------- grouping

  /** The identity fields come from the first facility of the group. */
  ghost predicate Identified(g: Group, key: string, fs: seq<Facility>) {
    fs != [] && g.key == key && g.reporterCode == ReporterIdentity(fs[0]).code
      && g.reporterName == ReporterIdentity(fs[0]).name
  }

  /** `groups` partition the facilities by reporter, each group summing up exactly its own. */
  ghost predicate Aggregates(groups: seq<Group>, fs: seq<Facility>, nameLe: (string, string) -> bool) {
    && (forall i, j | 0 <= i < j < |groups| :: groups[i].key != groups[j].key)
    && (forall f | f in fs :: exists i :: 0 <= i < |groups| && groups[i].key == ReporterIdentity(f).key)
    && (forall i | 0 <= i < |groups| :: AggregatesOne(groups[i], fs, nameLe))
  }

  ghost predicate AggregatesOne(g: Group, fs: seq<Facility>, nameLe: (string, string) -> bool) {
    var members := Members(fs, g.key);
    Identified(g, g.key, members) && Summarises(g, members) && g.facilities == Sort(members, RiskOrder(nameLe))
  }

  ghost predicate RowsFor(order: seq<string>, rows: map<string, Group>, fs: seq<Facility>) {
    && (forall i, j | 0 <= i < j < |order| :: order[i] != order[j])
    && (forall key :: key in order <==> key in rows)
    && (forall f | f in fs :: ReporterIdentity(f).key in rows)
    && (forall key | key in rows :: RowFor(rows[key], key, fs))
  }

  ghost predicate RowFor(g: Group, key: string, fs: seq<Facility>) {
    var members := Members(fs, key);
    Identified(g, key, members) && Summarises(g, members) && g.facilities == members
  }

  method AggregateReporters(facilities: seq<Facility>, nameLe: (string, string) -> bool) returns (groups: seq<Group>)
    requires TotalPreorder(nameLe)
    ensures Aggregates(groups, facilities, nameLe)
    ensures SortedBy(groups, PriorityOrder(nameLe))
    ensures forall i, j | 0 <= i < j < |groups| :: IsListedBefore(nameLe, groups[i], groups[j])
    ensures forall k, i, j | 0 <= k < |groups| && 0 <= i < j < |groups[k].facilities| ::
      IsRiskier(nameLe, groups[k].facilities[i], groups[k].facilities[j])
  {
    hide RowFor, AddFacility, ReporterIdentity, Finish, PriorityOrder, Aggregates, Sort, SortedBy, IsListedBefore,
         IsRiskier, RiskOrder;
    var order: seq<string>, rows: map<string, Group> := [], map[];
    for n := 0 to |facilities|
      invariant RowsFor(order, rows, facilities[..n])
    {
      var facility := facilities[n];
      var identity := ReporterIdentity(facility);
      var group := if identity.key in rows then rows[identity.key] else EmptyGroup(identity);
      group := AddFacility(group, facility);
      RowsAdd(order, rows, facilities[..n], facility);
      assert facilities[..n] + [facility] == facilities[..n + 1];
      order := if identity.key in rows then order else order + [identity.key];
      rows := rows[identity.key := group];
    }
    assert facilities[..|facilities|] == facilities;
    var finished: seq<Group> := [];
    for n := 0 to |order|
      invariant |finished| == n
      invariant forall i | 0 <= i < n :: finished[i] == Finish(rows[order[i]], nameLe)
    {
      finished := finished + [Finish(rows[order[n]], nameLe)];
    }
    groups := Sort(finished, PriorityOrder(nameLe));
    FinishedAggregate(order, rows, facilities, finished, nameLe);
    PriorityOrderIsTotal(nameLe);
    SortSorts(finished, PriorityOrder(nameLe));
    SortPermutes(finished, PriorityOrder(nameLe));
    AggregatesPermuted(finished, groups, facilities, nameLe);
    ListedByFields(groups, nameLe);
    forall k | 0 <= k < |groups|
      ensures forall i, j | 0 <= i < j < |groups[k].facilities| ::
        IsRiskier(nameLe, groups[k].facilities[i], groups[k].facilities[j])
    {
      FacilitiesAreSorted(groups, facilities, nameLe, k);
    }
  }

  lemma ListedByFields(groups: seq<Group>, nameLe: (string, string) -> bool)
    requires SortedBy(groups, PriorityOrder(nameLe))
    ensures forall i, j | 0 <= i < j < |groups| :: IsListedBefore(nameLe, groups[i], groups[j])
  {
    hide PriorityOrder, IsListedBefore;
    forall i, j | 0 <= i < j < |groups|
      ensures IsListedBefore(nameLe, groups[i], groups[j])
    {
      PriorityByFields(nameLe, groups[i], groups[j]);
    }
  }

  function Finish(g: Group, nameLe: (string, string) -> bool): Group {
    g.(facilities := Sort(g.facilities, RiskOrder(nameLe)))
  }

  lemma EmptySummarises(identity: Identity)
    ensures Summarises(EmptyGroup(identity), [])
  {
  }

  lemma RowsAdd(order: seq<string>, rows: map<string, Group>, fs: seq<Facility>, f: Facility)
    requires RowsFor(order, rows, fs)
    ensures var identity := ReporterIdentity(f);
      var group := if identity.key in rows then rows[identity.key] else EmptyGroup(identity);
      var order' := if identity.key in rows then order else order + [identity.key];
      RowsFor(order', rows[identity.key := AddFacility(group, f)], fs + [f])
  {
    hide AddFacility, ReporterIdentity, RowFor, EmptyGroup;
    var key := ReporterIdentity(f).key;
    forall k | k in rows && k != key
      ensures RowFor(rows[k], k, fs + [f])
    {
      RowElsewhere(rows[k], k, fs, f);
    }
    if key in rows {
      RowGrows(rows[key], key, fs, f);
    } else {
      RowStarts(fs, f);
    }
  }

  lemma RowElsewhere(g: Group, key: string, fs: seq<Facility>, f: Facility)
    requires RowFor(g, key, fs) && ReporterIdentity(f).key != key
    ensures RowFor(g, key, fs + [f])
  {
    hide Summarises, ReporterIdentity;
    assert (fs + [f])[..|fs|] == fs;
    assert Members(fs + [f], key) == Members(fs, key);
  }

  lemma RowGrows(g: Group, key: string, fs: seq<Facility>, f: Facility)
    requires RowFor(g, key, fs) && ReporterIdentity(f).key == key
    ensures RowFor(AddFacility(g, f), key, fs + [f])
  {
    hide ReporterIdentity;
    assert (fs + [f])[..|fs|] == fs;
    KeptIdentity(g, f);
    SummaryAdd(g, Members(fs, key), f);
    hide Summarises, AddFacility;
  }

  lemma RowStarts(fs: seq<Facility>, f: Facility)
    requires forall e | e in fs :: ReporterIdentity(e).key != ReporterIdentity(f).key
    ensures RowFor(AddFacility(EmptyGroup(ReporterIdentity(f)), f), ReporterIdentity(f).key, fs + [f])
  {
    hide ReporterIdentity;
    var identity := ReporterIdentity(f);
    assert (fs + [f])[..|fs|] == fs;
    NoMembers(fs, identity.key);
    EmptySummarises(identity);
    KeptIdentity(EmptyGroup(identity), f);
    SummaryAdd(EmptyGroup(identity), [], f);
    assert Members(fs + [f], identity.key) == [] + [f];
    hide Summarises, AddFacility;
  }

  lemma KeptIdentity(g: Group, f: Facility)
    ensures var g' := AddFacility(g, f);
      g'.key == g.key && g'.reporterCode == g.reporterCode && g'.reporterName == g.reporterName
        && g'.facilities == g.facilities + [f]
  {
    hide FacilityPlafond, FacilityOutstanding, FacilityArrears, Dpd, MaxReal, FacilityCollectibility, Level, Classify;
  }

  lemma {:induction false} NoMembers(fs: seq<Facility>, key: string)
    requires forall f | f in fs :: ReporterIdentity(f).key != key
    ensures Members(fs, key) == []
  {
    hide ReporterIdentity;
    if fs != [] {
      NoMembers(fs[..|fs| - 1], key);
    }
  }

  lemma FinishedAggregate(order: seq<string>, rows: map<string, Group>, fs: seq<Facility>, finished: seq<Group>,
                          nameLe: (string, string) -> bool)
    requires RowsFor(order, rows, fs) && |finished| == |order|
    requires forall i | 0 <= i < |order| :: order[i] in order && finished[i] == Finish(rows[order[i]], nameLe)
    ensures Aggregates(finished, fs, nameLe)
  {
    hide Members, ReporterIdentity, Summarises, RiskOrder, Sort;
    forall i | 0 <= i < |finished|
      ensures AggregatesOne(finished[i], fs, nameLe) && finished[i].key == order[i]
    {
      var key := order[i];
      FinishSummarises(rows[key], Members(fs, key), nameLe);
    }
    forall f | f in fs
      ensures exists i :: 0 <= i < |finished| && finished[i].key == ReporterIdentity(f).key
    {
      assert ReporterIdentity(f).key in order;
      var i :| 0 <= i < |order| && order[i] == ReporterIdentity(f).key;
      assert finished[i].key == order[i];
    }
  }

  lemma FinishSummarises(g: Group, fs: seq<Facility>, nameLe: (string, string) -> bool)
    requires Summarises(g, fs)
    ensures Summarises(Finish(g, nameLe), fs)
  {
    hide Sort, RiskOrder, IsHighest, IsWorst, Total;
    var g' := Finish(g, nameLe);
    assert TotalsAre(g', fs) by {
      forall m, c | Field(g', m, c).Some?
        ensures Field(g', m, c).value == Total(fs, m, c)
      {
        FieldAfterFinish(g, nameLe, m, c);
        hide Field, Finish;
      }
    }
    hide TotalsAre;
  }

  lemma FieldAfterFinish(g: Group, nameLe: (string, string) -> bool, m: Measure, c: Option<Class>)
    ensures Field(Finish(g, nameLe), m, c) == Field(g, m, c)
  {
    hide Sort, RiskOrder;
  }

  lemma AggregatesPermuted(a: seq<Group>, b: seq<Group>, fs: seq<Facility>, nameLe: (string, string) -> bool)
    requires Aggregates(a, fs, nameLe) && multiset(a) == multiset(b)
    ensures Aggregates(b, fs, nameLe)
  {
    hide AggregatesOne, ReporterIdentity;
    forall i | 0 <= i < |b|
      ensures b[i] in a
    {
      assert b[i] in multiset(b);
    }
    forall f | f in fs
      ensures exists i :: 0 <= i < |b| && b[i].key == ReporterIdentity(f).key
    {
      var i :| 0 <= i < |a| && a[i].key == ReporterIdentity(f).key;
      assert a[i] in multiset(a);
      assert a[i] in b;
    }
    DistinctPermuted(a, b, KeyOf);
    forall i, j | 0 <= i < j < |b|
      ensures b[i].key != b[j].key
    {
      assert KeyOf(b[i]) != KeyOf(b[j]);
    }
  }

  function KeyOf(g: Group): string {
    g.key
  }

  /** Within its group each facility appears once, riskiest first. */
  lemma FacilitiesAreSorted(groups: seq<Group>, fs: seq<Facility>, nameLe: (string, string) -> bool, i: nat)
    requires TotalPreorder(nameLe) && Aggregates(groups, fs, nameLe) && i < |groups|
    ensures SortedBy(groups[i].facilities, RiskOrder(nameLe))
      && multiset(groups[i].facilities) == multiset(Members(fs, groups[i].key))
    ensures forall j, k | 0 <= j < k < |groups[i].facilities| ::
      IsRiskier(nameLe, groups[i].facilities[j], groups[i].facilities[k])
  {
    hide RiskOrder, IsRiskier, Members, Sort, Summarises, ReporterIdentity;
    assert AggregatesOne(groups[i], fs, nameLe);
    RiskOrderIsTotal(nameLe);
    SortSorts(Members(fs, groups[i].key), RiskOrder(nameLe));
    SortPermutes(Members(fs, groups[i].key), RiskOrder(nameLe));
    var sorted := groups[i].facilities;
    forall j, k | 0 <= j < k < |sorted|
      ensures IsRiskier(nameLe, sorted[j], sorted[k])
    {
      RiskByFields(nameLe, sorted[j], sorted[k]);
    }
  }

  // ------------------------------------------------------------------------- who a facility belongs to

  lemma {:induction false} CapitalsStay(s: string)
    requires forall i | 0 <= i < |s| :: !('a' <= s[i] <= 'z')
    ensures Upper(s) == s
  {
    if s != "" {
      CapitalsStay(s[1..]);
      assert s == [s[0]] + s[1..];
    }
  }

  lemma IdentityTexts(f: Facility) returns (code: string, name: string)
    ensures IsTextOf(f.record, ["reporter_code", "ljk"], code) && IsTextOf(f.record, ["reporter_name", "bank"], name)
    ensures var identity := ReporterIdentity(f);
      && identity.key == (if code != "" then "CODE:" + Upper(code)
                          else "NAME:" + if name != "" then Upper(name) else "TIDAK DIKETAHUI")
      && identity.code == (if code != "" then Some(code) else None)
      && identity.name == (if name != "" then name else if code != "" then code else "Tidak diketahui")
  {
    hide NormalizeText, RecordValue, Upper, IsTextOf;
    TextIsRead(f.record, ["reporter_code", "ljk"]);
    TextIsRead(f.record, ["reporter_name", "bank"]);
    UnknownStays();
    code := NormalizeText(RecordValue(f.record, ["reporter_code", "ljk"]));
    name := NormalizeText(RecordValue(f.record, ["reporter_name", "bank"]));
  }

  lemma UnknownStays()
    ensures Upper("TIDAK DIKETAHUI") == "TIDAK DIKETAHUI"
  {
    CapitalsStay("TIDAK DIKETAHUI");
  }

  /**
    A facility is grouped by the code of its reporter in any case, or without one by the reporter's name in any case;
    all that have neither are one group.  The group tells the code and the name, or the code in place of the name.
   */
  lemma IdentityMeans(f: Facility)
    ensures exists code, name |
              && IsTextOf(f.record, ["reporter_code", "ljk"], code)
              && IsTextOf(f.record, ["reporter_name", "bank"], name) ::
              IsIdentityOf(ReporterIdentity(f), code, name)
  {
    var code, name := IdentityTexts(f);
    hide ReporterIdentity, IsTextOf;
  }

  ghost predicate IsIdentityOf(identity: Identity, code: string, name: string) {
    if code != "" then
      identity == Identity("CODE:" + Upper(code), Some(code), if name != "" then name else code)
    else if name != "" then identity == Identity("NAME:" + Upper(name), None, name)
    else identity == Identity("NAME:" + "TIDAK DIKETAHUI", None, "Tidak diketahui")
  }

  /** A level or days past due that are not stated count as zero in the totals and the order. */
  lemma UnstatedIsZero(f: Facility)
    ensures match CollectibilityLevel(FacilityCollectibility(f))
      case Some(level) => Level(f) == level
      case None => Level(f) == 0
    ensures match FacilityDaysPastDue(f)
      case Some(d) => Dpd(f) == Real(d)
      case None => Dpd(f) == 0.0
  {
  }
}
