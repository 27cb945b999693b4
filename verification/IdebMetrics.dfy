/**
  The totals of the report (src/utils/ideb-report.js:873-884, 913-1047), computed straight from the facilities,
  and their agreement with the reporter groups.
 */
module IdebMetrics {
  import opened Options
  import opened IdebRecord
  import opened Sorting
  import opened IdebReporters

  /** `facilities.filter((f) => classifyFacility(f) === c)` */
  function OfClass(fs: seq<Facility>, c: Class): seq<Facility> {
    if fs == [] then [] else (if Classify(fs[0]) == c then [fs[0]] else []) + OfClass(fs[1..], c)
  }

  /** `facilities.reduce((total, f) => total + amount(f), total)` */
  function Reduce(fs: seq<Facility>, m: Measure, total: real): real {
    if fs == [] then total else Reduce(fs[1..], m, total + Amount(m, fs[0]))
  }

  function ReduceDpd(fs: seq<Facility>, current: real): real {
    if fs == [] then current else ReduceDpd(fs[1..], MaxReal(current, Dpd(fs[0])))
  }

  datatype Worst = Worst(level: nat, value: Option<Scalar>)

  function ReduceWorst(fs: seq<Facility>, current: Worst): Worst {
    if fs == [] then current
    else if Level(fs[0]) <= current.level then ReduceWorst(fs[1..], current)
    else ReduceWorst(fs[1..], Worst(Level(fs[0]), FacilityCollectibility(fs[0])))
  }

  datatype Metrics = Metrics(
    activeFacilities: seq<Facility>,
    paidOffFacilities: seq<Facility>,
    writeOffFacilities: seq<Facility>,
    inactiveFacilities: seq<Facility>,
    groups: seq<Group>,
    derivedReporterCount: nat,
    overallWorst: Worst,
    activeWorst: Worst,
    calculatedTotalPlafond: real,
    calculatedTotalOutstanding: real,
    totalArrears: real,
    activeOutstanding: real,
    activeArrears: real,
    paidOffPlafond: real,
    writeOffPlafond: real,
    writeOffOutstanding: real,
    writeOffArrears: real,
    highestDpd: real)

  /** The metric that reports `m` over the facilities of class `c`, where there is one. */
  function Metric(t: Metrics, m: Measure, c: Option<Class>): Option<real> {
    match (m, c)
    case (Facilities, Some(Active)) => Some(|t.activeFacilities| as real)
    case (Facilities, Some(PaidOff)) => Some(|t.paidOffFacilities| as real)
    case (Facilities, Some(WriteOff)) => Some(|t.writeOffFacilities| as real)
    case (Facilities, Some(Inactive)) => Some(|t.inactiveFacilities| as real)
    case (Plafond, None) => Some(t.calculatedTotalPlafond)
    case (Outstanding, None) => Some(t.calculatedTotalOutstanding)
    case (Arrears, None) => Some(t.totalArrears)
    case (Outstanding, Some(Active)) => Some(t.activeOutstanding)
    case (Arrears, Some(Active)) => Some(t.activeArrears)
    case (Plafond, Some(PaidOff)) => Some(t.paidOffPlafond)
    case (Plafond, Some(WriteOff)) => Some(t.writeOffPlafond)
    case (Outstanding, Some(WriteOff)) => Some(t.writeOffOutstanding)
    case (Arrears, Some(WriteOff)) => Some(t.writeOffArrears)
    case _ => None
  }

  function SumOverGroups(groups: seq<Group>, m: Measure, c: Option<Class>): real {
    if groups == [] then 0.0
    else (if Field(groups[0], m, c).Some? then Field(groups[0], m, c).value else 0.0) + SumOverGroups(groups[1..], m, c)
  }

  ghost predicate IsMaximum(x: real, values: seq<real>) {
    && (forall i | 0 <= i < |values| :: values[i] <= x)
    && (if values == [] then x == 0.0 else x in values)
  }

  function HighestDpds(groups: seq<Group>): seq<real> {
    seq(|groups|, i requires 0 <= i < |groups| => groups[i].highestDpd)
  }

  function WorstLevels(groups: seq<Group>): seq<real> {
    seq(|groups|, i requires 0 <= i < |groups| => groups[i].worstLevel as real)
  }

  function ActiveWorstLevels(groups: seq<Group>): seq<real> {
    seq(|groups|, i requires 0 <= i < |groups| => groups[i].activeWorstLevel as real)
  }

  // ------------------------------------------------------------------------------------ conservation

  ghost predicate DistinctKeys(keys: seq<string>) {
    forall i, j | 0 <= i < j < |keys| :: keys[i] != keys[j]
  }

  function SumOverKeys(keys: seq<string>, fs: seq<Facility>, m: Measure, c: Option<Class>): real {
    if keys == [] then 0.0 else Total(Members(fs, keys[0]), m, c) + SumOverKeys(keys[1..], fs, m, c)
  }

  function Share(f: Facility, m: Measure, c: Option<Class>): real {
    if Selects(c, f) then Amount(m, f) else 0.0
  }

  lemma {:induction false} OneMoreFacility(keys: seq<string>, fs: seq<Facility>, f: Facility, m: Measure,
                                           c: Option<Class>)
    requires DistinctKeys(keys)
    ensures SumOverKeys(keys, fs + [f], m, c)
         == SumOverKeys(keys, fs, m, c) + if ReporterIdentity(f).key in keys then Share(f, m, c) else 0.0
  {
    hide ReporterIdentity, Share;
    if keys != [] {
      OneMoreFacility(keys[1..], fs, f, m, c);
      OneMoreMember(keys[0], fs, f, m, c);
      assert keys == [keys[0]] + keys[1..];
    }
  }

  lemma OneMoreMember(key: string, fs: seq<Facility>, f: Facility, m: Measure, c: Option<Class>)
    ensures Total(Members(fs + [f], key), m, c)
         == Total(Members(fs, key), m, c) + if ReporterIdentity(f).key == key then Share(f, m, c) else 0.0
  {
    hide ReporterIdentity, Classify, Amount;
    assert (fs + [f])[..|fs|] == fs;
    var ms := Members(fs, key);
    assert (ms + [f])[..|ms|] == ms;
    assert ms + [] == ms;
  }

  /** Splitting the facilities by reporter loses nothing and counts nothing twice. */
  lemma {:induction false} KeysConserve(keys: seq<string>, fs: seq<Facility>, m: Measure, c: Option<Class>)
    requires DistinctKeys(keys)
    requires forall f | f in fs :: ReporterIdentity(f).key in keys
    ensures SumOverKeys(keys, fs, m, c) == Total(fs, m, c)
  {
    hide ReporterIdentity, Classify, Amount;
    if fs == [] {
      NothingToSum(keys, m, c);
    } else {
      var f := fs[|fs| - 1];
      KeysConserve(keys, fs[..|fs| - 1], m, c);
      OneMoreFacility(keys, fs[..|fs| - 1], f, m, c);
      assert fs[..|fs| - 1] + [f] == fs;
    }
  }

  lemma {:induction false} NothingToSum(keys: seq<string>, m: Measure, c: Option<Class>)
    ensures SumOverKeys(keys, [], m, c) == 0.0
  {
    if keys != [] {
      NothingToSum(keys[1..], m, c);
    }
  }

  function KeysOf(groups: seq<Group>): (keys: seq<string>)
    ensures |keys| == |groups| && forall i | 0 <= i < |groups| :: keys[i] == groups[i].key
  {
    seq(|groups|, i requires 0 <= i < |groups| => groups[i].key)
  }

  lemma {:induction false} FieldsAreKeySums(groups: seq<Group>, fs: seq<Facility>, m: Measure, c: Option<Class>)
    requires forall i | 0 <= i < |groups| ::
      TotalsAre(groups[i], Members(fs, groups[i].key)) && Field(groups[i], m, c).Some?
    ensures SumOverGroups(groups, m, c) == SumOverKeys(KeysOf(groups), fs, m, c)
  {
    hide Total, Members;
    if groups != [] {
      FieldsAreKeySums(groups[1..], fs, m, c);
      assert KeysOf(groups) == [groups[0].key] + KeysOf(groups[1..]);
      assert TotalsAre(groups[0], Members(fs, groups[0].key)) && Field(groups[0], m, c).Some?;
      hide Field;
      assert Field(groups[0], m, c).value == Total(Members(fs, groups[0].key), m, c);
    }
  }

  /** Every total a group keeps adds up, over the groups, to the same total over all the facilities. */
  lemma GroupsConserve(groups: seq<Group>, fs: seq<Facility>, nameLe: (string, string) -> bool, m: Measure,
                       c: Option<Class>)
    requires Aggregates(groups, fs, nameLe)
    requires Field(EmptyGroup(Identity("", None, "")), m, c).Some?
    ensures SumOverGroups(groups, m, c) == Total(fs, m, c)
  {
    hide ReporterIdentity, Total, Members, RiskOrder, Sort, IsHighest, IsWorst;
    forall i | 0 <= i < |groups|
      ensures TotalsAre(groups[i], Members(fs, groups[i].key)) && Field(groups[i], m, c).Some?
    {
      assert AggregatesOne(groups[i], fs, nameLe);
      SameFields(groups[i], EmptyGroup(Identity("", None, "")), m, c);
    }
    hide Field, TotalsAre, AggregatesOne;
    FieldsAreKeySums(groups, fs, m, c);
    forall f | f in fs
      ensures ReporterIdentity(f).key in KeysOf(groups)
    {
      var i :| 0 <= i < |groups| && groups[i].key == ReporterIdentity(f).key;
      assert KeysOf(groups)[i] == ReporterIdentity(f).key;
    }
    KeysConserve(KeysOf(groups), fs, m, c);
  }

  /** The four classes partition the facilities of any list: each amount is the sum of its four class amounts. */
  lemma {:induction false} ClassesAddUp(fs: seq<Facility>, m: Measure)
    ensures Total(fs, m, None)
         == Total(fs, m, Some(Active)) + Total(fs, m, Some(PaidOff)) + Total(fs, m, Some(WriteOff))
           + Total(fs, m, Some(Inactive))
  {
    hide Classify, Amount;
    if fs != [] {
      ClassesAddUp(fs[..|fs| - 1], m);
    }
  }

  /** In each group, the counts by class add up to the number of its facilities. */
  lemma CountsAddUp(g: Group, fs: seq<Facility>)
    requires TotalsAre(g, fs)
    ensures g.facilityCount == |fs|
    ensures g.activeFacilityCount + g.paidOffFacilityCount + g.writeOffFacilityCount + g.inactiveFacilityCount
      == g.facilityCount
  {
    ClassesAddUp(fs, Facilities);
    CountIsLength(fs);
    hide Total;
    assert Field(g, Facilities, None).Some? && Field(g, Facilities, Some(Active)).Some?
        && Field(g, Facilities, Some(PaidOff)).Some? && Field(g, Facilities, Some(WriteOff)).Some?
        && Field(g, Facilities, Some(Inactive)).Some?;
  }

  lemma {:induction false} CountIsLength(fs: seq<Facility>)
    ensures Total(fs, Facilities, None) == |fs| as real
  {
    if fs != [] {
      CountIsLength(fs[..|fs| - 1]);
    }
  }

  // ------------------------------------------------------------------------------------ direct folds

  lemma {:induction false} TotalFromFront(f: Facility, fs: seq<Facility>, m: Measure, c: Option<Class>)
    ensures Total([f] + fs, m, c) == Share(f, m, c) + Total(fs, m, c)
  {
    hide Classify, Amount;
    if fs == [] {
      assert [f] + fs == [f] && [f][..0] == [];
    } else {
      TotalFromFront(f, fs[..|fs| - 1], m, c);
      assert ([f] + fs)[..|fs|] == [f] + fs[..|fs| - 1];
    }
  }

  lemma {:induction false} ReduceIsTotal(fs: seq<Facility>, m: Measure, total: real)
    ensures Reduce(fs, m, total) == total + Total(fs, m, None)
  {
    hide Amount;
    if fs != [] {
      ReduceIsTotal(fs[1..], m, total + Amount(m, fs[0]));
      TotalFromFront(fs[0], fs[1..], m, None);
      assert [fs[0]] + fs[1..] == fs;
    }
  }

  lemma {:induction false} FilterThenTotal(fs: seq<Facility>, m: Measure, c: Class)
    ensures Total(OfClass(fs, c), m, None) == Total(fs, m, Some(c))
    ensures |OfClass(fs, c)| as real == Total(fs, Facilities, Some(c))
  {
    hide Classify;
    if fs != [] {
      FilterThenTotal(fs[1..], m, c);
      TotalFromFront(fs[0], fs[1..], m, Some(c));
      TotalFromFront(fs[0], fs[1..], Facilities, Some(c));
      TotalFromFront(fs[0], OfClass(fs[1..], c), m, None);
      assert [fs[0]] + fs[1..] == fs;
      hide Amount, Total;
      if Classify(fs[0]) != c {
        assert OfClass(fs, c) == OfClass(fs[1..], c);
      }
    }
  }

  lemma {:induction false} ReduceDpdIsHighest(fs: seq<Facility>, done: seq<Facility>, current: real)
    requires IsHighest(current, done, None)
    ensures IsHighest(ReduceDpd(fs, current), done + fs, None)
  {
    hide Dpd, IsHighest, MaxReal;
    if fs == [] {
      assert done + fs == done;
    } else {
      HighestAdd(current, done, fs[0], None);
      ReduceDpdIsHighest(fs[1..], done + [fs[0]], MaxReal(current, Dpd(fs[0])));
      assert done + [fs[0]] + fs[1..] == done + fs;
    }
  }

  lemma {:induction false} ReduceWorstIsWorst(fs: seq<Facility>, done: seq<Facility>, w: Worst)
    requires IsWorst(w.level, w.value, done, None)
    ensures var r := ReduceWorst(fs, w); IsWorst(r.level, r.value, done + fs, None)
  {
    hide Level, FacilityCollectibility, IsWorst;
    if fs == [] {
      assert done + fs == done;
    } else {
      WorstAdd(w.level, w.value, done, fs[0], None);
      assert Selects(None, fs[0]);
      var next := if Level(fs[0]) <= w.level then w else Worst(Level(fs[0]), FacilityCollectibility(fs[0]));
      ReduceWorstIsWorst(fs[1..], done + [fs[0]], next);
      assert done + [fs[0]] + fs[1..] == done + fs;
    }
  }

  // ------------------------------------------------------------------------------------------ maxima

  lemma {:induction false} MembersAre(fs: seq<Facility>, key: string, f: Facility)
    ensures f in Members(fs, key) <==> f in fs && ReporterIdentity(f).key == key
  {
    hide ReporterIdentity;
    if fs != [] {
      MembersAre(fs[..|fs| - 1], key, f);
      assert fs == fs[..|fs| - 1] + [fs[|fs| - 1]];
    }
  }

  lemma {:induction false} OfClassAre(fs: seq<Facility>, c: Class, f: Facility)
    ensures f in OfClass(fs, c) <==> f in fs && Classify(f) == c
  {
    hide Classify;
    if fs != [] {
      OfClassAre(fs[1..], c, f);
      assert fs == [fs[0]] + fs[1..];
    }
  }

  lemma WorstOfClass(n: nat, v: Option<Scalar>, fs: seq<Facility>, c: Class)
    requires IsWorst(n, v, OfClass(fs, c), None)
    ensures IsWorst(n, v, fs, Some(c))
  {
    hide Level, Classify, OfClass, FacilityCollectibility;
    forall i | 0 <= i < |fs| && Selects(Some(c), fs[i])
      ensures Level(fs[i]) <= n
    {
      OfClassAre(fs, c, fs[i]);
      var j :| 0 <= j < |OfClass(fs, c)| && OfClass(fs, c)[j] == fs[i];
      assert Selects(None, OfClass(fs, c)[j]);
    }
    if n > 0 {
      var j :| 0 <= j < |OfClass(fs, c)| && Level(OfClass(fs, c)[j]) == n
        && FacilityCollectibility(OfClass(fs, c)[j]) == v;
      OfClassAre(fs, c, OfClass(fs, c)[j]);
      var i :| 0 <= i < |fs| && fs[i] == OfClass(fs, c)[j];
      assert Selects(Some(c), fs[i]);
    }
  }

  /** What a group's maximum and the overall maximum have in common. */
  ghost predicate Bounds(x: real, value: Facility -> real, fs: seq<Facility>, c: Option<Class>) {
    && x >= 0.0
    && (forall f | f in fs && Selects(c, f) :: value(f) <= x)
    && (x == 0.0 || exists f :: f in fs && Selects(c, f) && value(f) == x)
  }

  lemma HighestBounds(x: real, fs: seq<Facility>, c: Option<Class>)
    requires IsHighest(x, fs, c)
    ensures Bounds(x, Dpd, fs, c)
  {
    hide Dpd, Classify;
    if x != 0.0 {
      var i :| 0 <= i < |fs| && Selects(c, fs[i]) && Dpd(fs[i]) == x;
      assert fs[i] in fs;
    }
  }

  function LevelReal(f: Facility): real {
    Level(f) as real
  }

  lemma WorstBounds(n: nat, v: Option<Scalar>, fs: seq<Facility>, c: Option<Class>)
    requires IsWorst(n, v, fs, c)
    ensures Bounds(n as real, LevelReal, fs, c)
  {
    hide Level, Classify, FacilityCollectibility;
    if n != 0 {
      var i :| 0 <= i < |fs| && Selects(c, fs[i]) && Level(fs[i]) == n && FacilityCollectibility(fs[i]) == v;
      assert fs[i] in fs;
    }
  }

  /** The overall maximum is the maximum of the groups' maxima. */
  lemma MaximumOfGroups(x: real, values: seq<real>, groups: seq<Group>, fs: seq<Facility>, value: Facility -> real,
                        c: Option<Class>)
    requires Bounds(x, value, fs, c) && |values| == |groups|
    requires forall i | 0 <= i < |groups| :: Bounds(values[i], value, Members(fs, groups[i].key), c)
    requires forall f | f in fs :: exists i :: 0 <= i < |groups| && groups[i].key == ReporterIdentity(f).key
    ensures IsMaximum(x, values)
  {
    hide Members, ReporterIdentity, Classify;
    forall i | 0 <= i < |values|
      ensures values[i] <= x
    {
      if values[i] != 0.0 {
        var f :| f in Members(fs, groups[i].key) && Selects(c, f) && value(f) == values[i];
        MembersAre(fs, groups[i].key, f);
      }
    }
    if x != 0.0 {
      var f :| f in fs && Selects(c, f) && value(f) == x;
      var i :| 0 <= i < |groups| && groups[i].key == ReporterIdentity(f).key;
      MembersAre(fs, groups[i].key, f);
      assert values[i] == x;
    } else if values != [] {
      assert values[0] == x;
    }
  }

  /** Every number the report states about the whole is what the reporter groups add up to. */
  ghost predicate AgreesWithGroups(t: Metrics) {
    && (forall m, c | Metric(t, m, c).Some? :: Metric(t, m, c).value == SumOverGroups(t.groups, m, c))
    && IsMaximum(t.highestDpd, HighestDpds(t.groups))
    && IsMaximum(t.overallWorst.level as real, WorstLevels(t.groups))
    && IsMaximum(t.activeWorst.level as real, ActiveWorstLevels(t.groups))
  }

  lemma HighestOverGroups(x: real, groups: seq<Group>, fs: seq<Facility>, nameLe: (string, string) -> bool)
    requires Aggregates(groups, fs, nameLe) && IsHighest(x, fs, None)
    ensures IsMaximum(x, HighestDpds(groups))
  {
    hide ReporterIdentity, Members, RiskOrder, Sort, IsWorst, TotalsAre, IsHighest, Bounds;
    HighestBounds(x, fs, None);
    forall i | 0 <= i < |groups|
      ensures Bounds(HighestDpds(groups)[i], Dpd, Members(fs, groups[i].key), None)
    {
      assert AggregatesOne(groups[i], fs, nameLe);
      HighestBounds(groups[i].highestDpd, Members(fs, groups[i].key), None);
    }
    hide AggregatesOne, IsMaximum, HighestDpds;
    MaximumOfGroups(x, HighestDpds(groups), groups, fs, Dpd, None);
  }

  lemma WorstOverGroups(w: Worst, a: Worst, groups: seq<Group>, fs: seq<Facility>, nameLe: (string, string) -> bool)
    requires Aggregates(groups, fs, nameLe)
    requires IsWorst(w.level, w.value, fs, None) && IsWorst(a.level, a.value, fs, Some(Active))
    ensures IsMaximum(w.level as real, WorstLevels(groups)) && IsMaximum(a.level as real, ActiveWorstLevels(groups))
  {
    hide ReporterIdentity, Members, RiskOrder, Sort, IsHighest, TotalsAre, IsWorst, Bounds;
    WorstBounds(w.level, w.value, fs, None);
    WorstBounds(a.level, a.value, fs, Some(Active));
    forall i | 0 <= i < |groups|
      ensures Bounds(WorstLevels(groups)[i], LevelReal, Members(fs, groups[i].key), None)
      ensures Bounds(ActiveWorstLevels(groups)[i], LevelReal, Members(fs, groups[i].key), Some(Active))
    {
      assert AggregatesOne(groups[i], fs, nameLe);
      WorstBounds(groups[i].worstLevel, groups[i].worstCollectibility, Members(fs, groups[i].key), None);
      WorstBounds(groups[i].activeWorstLevel, groups[i].activeWorstCollectibility, Members(fs, groups[i].key),
                  Some(Active));
    }
    hide AggregatesOne, IsMaximum, WorstLevels, ActiveWorstLevels;
    MaximumOfGroups(w.level as real, WorstLevels(groups), groups, fs, LevelReal, None);
    MaximumOfGroups(a.level as real, ActiveWorstLevels(groups), groups, fs, LevelReal, Some(Active));
  }

  function RiskSorted(fs: seq<Facility>, nameLe: (string, string) -> bool): seq<Facility> {
    Sort(fs, RiskOrder(nameLe))
  }

  lemma ReduceOfClass(fs: seq<Facility>, m: Measure, c: Class)
    ensures Reduce(OfClass(fs, c), m, 0.0) == Total(fs, m, Some(c))
  {
    ReduceIsTotal(OfClass(fs, c), m, 0.0);
    FilterThenTotal(fs, m, c);
  }

  lemma CountOfClass(fs: seq<Facility>, c: Class, nameLe: (string, string) -> bool)
    ensures |RiskSorted(OfClass(fs, c), nameLe)| as real == Total(fs, Facilities, Some(c))
    ensures multiset(RiskSorted(OfClass(fs, c), nameLe)) == multiset(OfClass(fs, c))
  {
    hide Total, OfClass, Sort, RiskOrder;
    FilterThenTotal(fs, Facilities, c);
    SortPermutes(OfClass(fs, c), RiskOrder(nameLe));
    assert |multiset(RiskSorted(OfClass(fs, c), nameLe))| == |multiset(OfClass(fs, c))|;
  }

  lemma {:induction false} ClassesPartition(fs: seq<Facility>)
    ensures multiset(fs) == multiset(OfClass(fs, Active)) + multiset(OfClass(fs, PaidOff))
      + multiset(OfClass(fs, WriteOff))
                            + multiset(OfClass(fs, Inactive))
  {
    hide Classify;
    if fs != [] {
      ClassesPartition(fs[1..]);
      assert fs == [fs[0]] + fs[1..];
    }
  }

  /** The metrics as the direct folds define them. */
  function Direct(fs: seq<Facility>, groups: seq<Group>, nameLe: (string, string) -> bool): Metrics {
    Metrics(
      RiskSorted(OfClass(fs, Active), nameLe), RiskSorted(OfClass(fs, PaidOff), nameLe),
      RiskSorted(OfClass(fs, WriteOff), nameLe), RiskSorted(OfClass(fs, Inactive), nameLe),
      groups, |groups|,
      ReduceWorst(fs, Worst(0, None)), ReduceWorst(OfClass(fs, Active), Worst(0, None)),
      Reduce(fs, Plafond, 0.0), Reduce(fs, Outstanding, 0.0), Reduce(fs, Arrears, 0.0),
      Reduce(OfClass(fs, Active), Outstanding, 0.0), Reduce(OfClass(fs, Active), Arrears, 0.0),
      Reduce(OfClass(fs, PaidOff), Plafond, 0.0), Reduce(OfClass(fs, WriteOff), Plafond, 0.0),
      Reduce(OfClass(fs, WriteOff), Outstanding, 0.0), Reduce(OfClass(fs, WriteOff), Arrears, 0.0),
      ReduceDpd(fs, 0.0))
  }

  lemma DirectIsTotal(fs: seq<Facility>, groups: seq<Group>, nameLe: (string, string) -> bool, m: Measure,
                      c: Option<Class>)
    requires Metric(Direct(fs, groups, nameLe), m, c).Some?
    ensures Metric(Direct(fs, groups, nameLe), m, c).value == Total(fs, m, c)
  {
    hide Reduce, OfClass, Total, RiskSorted, ReduceDpd, ReduceWorst;
    ReduceIsTotal(fs, m, 0.0);
    if c.Some? {
      ReduceOfClass(fs, m, c.value);
      CountOfClass(fs, c.value, nameLe);
    }
  }

  lemma TrackedByGroups(t: Metrics, m: Measure, c: Option<Class>)
    requires Metric(t, m, c).Some?
    ensures Field(EmptyGroup(Identity("", None, "")), m, c).Some?
  {
  }

  lemma DirectAgrees(fs: seq<Facility>, groups: seq<Group>, nameLe: (string, string) -> bool)
    requires Aggregates(groups, fs, nameLe)
    ensures AgreesWithGroups(Direct(fs, groups, nameLe))
  {
    hide Aggregates, Metric, Field, Total, SumOverGroups, IsHighest, IsWorst, IsMaximum, ReduceDpd, ReduceWorst,
         OfClass, Reduce, RiskSorted, HighestDpds, WorstLevels, ActiveWorstLevels, EmptyGroup;
    var t := Direct(fs, groups, nameLe);
    forall m, c | Metric(t, m, c).Some?
      ensures Metric(t, m, c).value == SumOverGroups(groups, m, c)
    {
      DirectIsTotal(fs, groups, nameLe, m, c);
      TrackedByGroups(t, m, c);
      GroupsConserve(groups, fs, nameLe, m, c);
    }
    FoldsAreExtremes(fs);
    HighestOverGroups(t.highestDpd, groups, fs, nameLe);
    WorstOverGroups(t.overallWorst, t.activeWorst, groups, fs, nameLe);
  }

  lemma FoldsAreExtremes(fs: seq<Facility>)
    ensures IsHighest(ReduceDpd(fs, 0.0), fs, None)
    ensures var w := ReduceWorst(fs, Worst(0, None)); IsWorst(w.level, w.value, fs, None)
    ensures var a := ReduceWorst(OfClass(fs, Active), Worst(0, None)); IsWorst(a.level, a.value, fs, Some(Active))
  {
    hide ReduceDpd, ReduceWorst, OfClass;
    ReduceDpdIsHighest(fs, [], 0.0);
    ReduceWorstIsWorst(fs, [], Worst(0, None));
    ReduceWorstIsWorst(OfClass(fs, Active), [], Worst(0, None));
    assert [] + fs == fs && [] + OfClass(fs, Active) == OfClass(fs, Active);
    hide IsHighest, IsWorst;
    var a := ReduceWorst(OfClass(fs, Active), Worst(0, None));
    WorstOfClass(a.level, a.value, fs, Active);
  }

  /** The metrics of a report: one pass for the groups, direct folds for the rest, and the two agree. */
  method BuildMetrics(facilities: seq<Facility>, nameLe: (string, string) -> bool) returns (t: Metrics)
    requires TotalPreorder(nameLe)
    ensures Aggregates(t.groups, facilities, nameLe) && SortedBy(t.groups, PriorityOrder(nameLe))
    ensures t.derivedReporterCount == |t.groups|
    ensures forall m, c | Metric(t, m, c).Some? :: Metric(t, m, c).value == Total(facilities, m, c)
    ensures AgreesWithGroups(t)
    ensures multiset(t.activeFacilities) + multiset(t.paidOffFacilities) + multiset(t.writeOffFacilities)
            + multiset(t.inactiveFacilities) == multiset(facilities)
  {
    hide Metric, Total, Aggregates, AgreesWithGroups, SortedBy, OfClass, Reduce, ReduceDpd, ReduceWorst, RiskSorted;
    var groups := AggregateReporters(facilities, nameLe);
    var active, paidOff := OfClass(facilities, Active), OfClass(facilities, PaidOff);
    var writeOff, inactive := OfClass(facilities, WriteOff), OfClass(facilities, Inactive);
    t := Metrics(
      RiskSorted(active, nameLe), RiskSorted(paidOff, nameLe), RiskSorted(writeOff, nameLe),
        RiskSorted(inactive, nameLe),
      groups, |groups|,
      ReduceWorst(facilities, Worst(0, None)), ReduceWorst(active, Worst(0, None)),
      Reduce(facilities, Plafond, 0.0), Reduce(facilities, Outstanding, 0.0), Reduce(facilities, Arrears, 0.0),
      Reduce(active, Outstanding, 0.0), Reduce(active, Arrears, 0.0),
      Reduce(paidOff, Plafond, 0.0), Reduce(writeOff, Plafond, 0.0),
      Reduce(writeOff, Outstanding, 0.0), Reduce(writeOff, Arrears, 0.0),
      ReduceDpd(facilities, 0.0));
    assert t == Direct(facilities, groups, nameLe);
    DirectAgrees(facilities, groups, nameLe);
    forall m, c | Metric(t, m, c).Some?
      ensures Metric(t, m, c).value == Total(facilities, m, c)
    {
      DirectIsTotal(facilities, groups, nameLe, m, c);
    }
    ClassesPartition(facilities);
    CountOfClass(facilities, Active, nameLe);
    CountOfClass(facilities, PaidOff, nameLe);
    CountOfClass(facilities, WriteOff, nameLe);
    CountOfClass(facilities, Inactive, nameLe);
  }
}
