/**
  Merging monthly collectibility entries per period (src/utils/ideb-report.js:278-394). The merged rows have the
  shape of entries and are merged again later.
 */
module IdebHistory {
  import opened Options
  import opened Texts
  import opened IdebNumber
  import opened IdebRecord
  import opened Sorting

  // ---------------------------------------------------------------------------------- reading entries

  datatype PeriodInfo = PeriodInfo(key: string, period: Option<string>, order: string)

  function PadStart2(s: string): string {
    if |s| < 2 then "0" + s else s
  }

  function MonthIndex(entry: Record): Option<Decimal> {
    ParseScalar(RecordValue(entry, ["month_index", "monthIndex"]))
  }

  function HistoryPeriodKey(entry: Record, fallbackIndex: nat): PeriodInfo {
    var period := NormalizeText(RecordValue(entry, ["period_month", "period", "month_label", "label"]));
    if period != "" then PeriodInfo("PERIOD:" + period, Some(period), period)
    else match MonthIndex(entry)
      case Some(d) => var padded := PadStart2(ShowDecimal(d)); PeriodInfo("INDEX:" + padded, None, padded)
      case None => var row := PadStart2(Dec(fallbackIndex + 1)); PeriodInfo("ROW:" + row, None, row)
  }

  predicate IsMeaningful(entry: Record) {
    || NormalizeText(RecordValue(entry, ["collectibility_code", "collectibility", "kol"])) != ""
    || NormalizeText(RecordValue(entry, ["days_past_due", "dpd", "jumlah_hari_tunggakan"])) != ""
  }

  predicate IsTruthy(v: Scalar) {
    match v
    case Null => false
    case Text(s) => s != ""
    case Number(d) => d.mantissa != 0
    case Flag(b) => b
  }

  /** `value || null` */
  function OrNull(v: Option<Scalar>): Option<Scalar> {
    if v.Some? && IsTruthy(v.value) then v else None
  }

  function Rank(v: Option<Scalar>): nat {
    var level := CollectibilityLevel(v);
    if level.Some? then level.value else 0
  }

  /** What the loop reads from one entry. */
  datatype Reading = Reading(
    collectibility: Option<Scalar>, dpd: Decimal, sourceCount: Decimal, reporterCount: Decimal,
    facilityCount: Decimal, reporter: string, account: string, monthIndex: Option<Decimal>)

  function Read(entry: Record): Reading {
    Reading(
      OrNull(RecordValue(entry, ["collectibility_code", "collectibility", "kol"])),
      NumberOr(RecordValue(entry, ["days_past_due", "dpd", "jumlah_hari_tunggakan"]), ZERO),
      Max(ONE, NumberOr(RecordValue(entry, ["source_count"]), ZERO)),
      NumberOr(RecordValue(entry, ["reporter_count"]), ZERO),
      NumberOr(RecordValue(entry, ["facility_count"]), ZERO),
      NormalizeText(RecordValue(entry, ["reporter_name", "reporter_code"])),
      NormalizeText(RecordValue(entry, ["account_number", "no_rekening"])),
      MonthIndex(entry))
  }

  datatype Item = Item(info: PeriodInfo, reading: Reading)

  /** The meaningful entries, each under its key; `index` is the position of the first entry. */
  function Items(history: seq<Record>, index: nat): seq<Item> {
    if history == [] then [] else First(history[0], index) + Items(history[1..], index + 1)
  }

  function First(entry: Record, index: nat): seq<Item> {
    if IsMeaningful(entry) then [Item(HistoryPeriodKey(entry, index), Read(entry))] else []
  }

  // --------------------------------------------------------------------------------------- merging

  datatype Merged = Merged(
    info: PeriodInfo, monthIndex: Option<Decimal>, collectibility: Option<Scalar>, dpd: Decimal,
    sourceCount: Decimal, reporterKeys: set<string>, accountKeys: set<string>,
    reportedReporters: Decimal, reportedFacilities: Decimal, bestRank: nat)

  function Fresh(item: Item): Merged {
    Merged(item.info, item.reading.monthIndex, None, ZERO, ZERO, {}, {}, ZERO, ZERO, 0)
  }

  function Merge(g: Merged, r: Reading): Merged {
    var better := g.collectibility.None? || Rank(r.collectibility) > g.bestRank;
    g.(
      sourceCount := Add(g.sourceCount, r.sourceCount),
      reporterKeys := if r.reporter != "" then g.reporterKeys + {Upper(r.reporter)} else g.reporterKeys,
      accountKeys := if r.account != "" then g.accountKeys + {Upper(r.account)} else g.accountKeys,
      reportedReporters := Max(g.reportedReporters, r.reporterCount),
      reportedFacilities := Max(g.reportedFacilities, r.facilityCount),
      bestRank := if better then Rank(r.collectibility) else g.bestRank,
      collectibility := if better then r.collectibility else g.collectibility,
      dpd := Max(g.dpd, r.dpd))
  }

  /** A merged row, which has the shape of an entry. */
  datatype Row = Row(
    period: Option<string>, monthIndex: Option<Decimal>, collectibility: Option<Scalar>, dpd: Decimal,
    sourceCount: Decimal, reporterCount: Decimal, facilityCount: Decimal)

  function ToRow(g: Merged): Row {
    Row(g.info.period, g.monthIndex, g.collectibility, g.dpd, g.sourceCount,
        Max(Decimal(|g.reporterKeys|, 0), g.reportedReporters), Max(Decimal(|g.accountKeys|, 0), g.reportedFacilities))
  }

  function OrScalarNull(v: Option<Scalar>): Scalar {
    if v.Some? then v.value else Null
  }

  function RowRecord(row: Row): Record {
    map[
      "period_month" := if row.period.Some? then Text(row.period.value) else Null,
      "month_index" := if row.monthIndex.Some? then Number(row.monthIndex.value) else Null,
      "collectibility" := OrScalarNull(row.collectibility),
      "collectibility_code" := OrScalarNull(row.collectibility),
      "kol" := OrScalarNull(row.collectibility),
      "days_past_due" := Number(row.dpd),
      "dpd" := Number(row.dpd),
      "source_count" := Number(row.sourceCount),
      "reporter_count" := Number(row.reporterCount),
      "facility_count" := Number(row.facilityCount)]
  }

  function OrderOf(textLe: (string, string) -> bool): (Merged, Merged) -> bool {
    (a: Merged, b: Merged) => textLe(a.info.order, b.info.order)
  }

  function Upsert(groups: seq<Merged>, item: Item): seq<Merged> {
    if groups == [] then [Merge(Fresh(item), item.reading)]
    else if groups[0].info.key == item.info.key then [Merge(groups[0], item.reading)] + groups[1..]
    else [groups[0]] + Upsert(groups[1..], item)
  }

  function Collect(items: seq<Item>): seq<Merged> {
    if items == [] then [] else Upsert(Collect(items[..|items| - 1]), items[|items| - 1])
  }

  function Rows(groups: seq<Merged>): seq<Row> {
    if groups == [] then [] else [ToRow(groups[0])] + Rows(groups[1..])
  }

  /** The result of the aggregation; the method below computes it with a map. */
  function Aggregate(history: seq<Record>, textLe: (string, string) -> bool): seq<Row> {
    Rows(Sort(Collect(Items(history, 0)), OrderOf(textLe)))
  }

  // ------------------------------------------------------------------------------------- the loop

  function Listed(order: seq<string>, groups: map<string, Merged>): seq<Merged>
    requires forall key | key in order :: key in groups
  {
    if order == [] then [] else [groups[order[0]]] + Listed(order[1..], groups)
  }

  ghost predicate Represents(order: seq<string>, groups: map<string, Merged>, list: seq<Merged>) {
    && (forall key :: key in order <==> key in groups)
    && (forall i, j | 0 <= i < j < |order| :: order[i] != order[j])
    && (forall key | key in groups :: groups[key].info.key == key)
    && Listed(order, groups) == list
  }

  method AggregateHistory(history: seq<Record>, textLe: (string, string) -> bool) returns (rows: seq<Row>)
    ensures rows == Aggregate(history, textLe)
  {
    hide IsMeaningful, HistoryPeriodKey, Read, Merge, Fresh, ToRow, OrderOf, Sort, Items, Collect, Listed, Rows, Upsert;
    var order: seq<string>, groups: map<string, Merged> := [], map[];
    ghost var seen: seq<Item> := [];
    NothingYet(history, groups);
    for n := 0 to |history|
      invariant Represents(order, groups, Collect(seen))
      invariant seen + Items(history[n..], n) == Items(history, 0)
    {
      var entry := history[n];
      ItemsStep(history, n, seen);
      if IsMeaningful(entry) {
        var info, reading := HistoryPeriodKey(entry, n), Read(entry);
        ghost var item := Item(info, reading);
        var current := if info.key in groups then groups[info.key] else Fresh(Item(info, reading));
        current := Merge(current, reading);
        UpsertRepresents(order, groups, Collect(seen), item);
        CollectStep(seen, item);
        order := if info.key in groups then order else order + [info.key];
        groups := groups[info.key := current];
        seen := seen + [item];
      }
    }
    NothingLeft(history, |history|);
    assert seen + [] == seen;
    rows := RowsInOrder(order, groups, textLe);
  }

  lemma NothingYet(history: seq<Record>, groups: map<string, Merged>)
    requires groups == map[]
    ensures Represents([], groups, Collect([])) && [] + Items(history[0..], 0) == Items(history, 0)
  {
    assert history[0..] == history;
  }

  lemma NothingLeft(history: seq<Record>, n: nat)
    requires n == |history|
    ensures Items(history[n..], n) == []
  {
  }

  lemma ItemsStep(history: seq<Record>, n: nat, seen: seq<Item>)
    requires n < |history|
    ensures IsMeaningful(history[n]) ==>
      seen + Items(history[n..], n) == seen + [Item(HistoryPeriodKey(history[n], n), Read(history[n]))]
        + Items(history[n + 1..], n + 1)
    ensures !IsMeaningful(history[n]) ==> Items(history[n..], n) == Items(history[n + 1..], n + 1)
  {
    hide IsMeaningful, HistoryPeriodKey, Read;
    var rest := history[n..];
    var last := Items(history[n + 1..], n + 1);
    assert rest[0] == history[n] && rest[1..] == history[n + 1..];
    if IsMeaningful(history[n]) {
      var item := Item(HistoryPeriodKey(history[n], n), Read(history[n]));
      assert seen + ([item] + last) == seen + [item] + last;
    } else {
      assert [] + last == last;
    }
  }

  lemma CollectStep(seen: seq<Item>, item: Item)
    ensures Collect(seen + [item]) == Upsert(Collect(seen), item)
  {
    assert (seen + [item])[..|seen|] == seen;
  }

  /** `Array.from(groups.values()).sort(...).map(...)` */
  method RowsInOrder(order: seq<string>, groups: map<string, Merged>,
                     textLe: (string, string) -> bool) returns (rows: seq<Row>)
    requires forall key | key in order :: key in groups
    ensures rows == Rows(Sort(Listed(order, groups), OrderOf(textLe)))
  {
    hide ToRow, OrderOf, Sort;
    var values: seq<Merged> := [];
    for n := 0 to |order|
      invariant values + Listed(order[n..], groups) == Listed(order, groups)
    {
      assert order[n..][0] == order[n] && order[n..][1..] == order[n + 1..];
      assert values + ([groups[order[n]]] + Listed(order[n + 1..], groups))
        == values + [groups[order[n]]] + Listed(order[n + 1..], groups);
      values := values + [groups[order[n]]];
    }
    assert values + [] == values;
    values := Sort(values, OrderOf(textLe));
    rows := [];
    for n := 0 to |values|
      invariant rows + Rows(values[n..]) == Rows(values)
    {
      assert values[n..][0] == values[n] && values[n..][1..] == values[n + 1..];
      assert rows + ([ToRow(values[n])] + Rows(values[n + 1..])) == rows + [ToRow(values[n])] + Rows(values[n + 1..]);
      rows := rows + [ToRow(values[n])];
    }
    assert rows + [] == rows;
  }

  lemma {:induction false} UpsertRepresents(order: seq<string>, groups: map<string, Merged>, list: seq<Merged>,
                                            item: Item)
    requires Represents(order, groups, list)
    ensures var key := item.info.key;
      Represents(if key in groups then order else order + [key],
                 groups[key := Merge(if key in groups then groups[key] else Fresh(item), item.reading)],
                   Upsert(list, item))
  {
    hide Listed, Upsert;
    var key := item.info.key;
    var order' := if key in groups then order else order + [key];
    var groups' := groups[key := Merge(if key in groups then groups[key] else Fresh(item), item.reading)];
    MergeKeepsInfo(if key in groups then groups[key] else Fresh(item), item.reading);
    hide Merge;
    ListedUpsert(order, groups, groups', item);
    assert order' == order || order' == order + [key];
  }

  lemma MergeKeepsInfo(g: Merged, r: Reading)
    ensures Merge(g, r).info == g.info && Merge(g, r).monthIndex == g.monthIndex
  {
  }

  lemma {:induction false} ListedUpsert(order: seq<string>, groups: map<string, Merged>, groups': map<string, Merged>,
                                        item: Item)
    requires forall key | key in order :: key in groups && groups[key].info.key == key
    requires forall i, j | 0 <= i < j < |order| :: order[i] != order[j]
    requires var before := if item.info.key in order then groups[item.info.key] else Fresh(item);
      groups' == groups[item.info.key := Merge(before, item.reading)]
    ensures Upsert(Listed(order, groups), item)
      == Listed(if item.info.key in order then order else order + [item.info.key], groups')
  {
    hide Merge, Fresh;
    var key := item.info.key;
    if order == [] {
      assert ([] + [key])[1..] == [];
    } else {
      assert order == [order[0]] + order[1..];
      if order[0] == key {
        assert key !in order[1..];
        SameListed(order[1..], groups, groups', key);
      } else {
        ListedUpsert(order[1..], groups, groups', item);
        assert (order + [key])[1..] == order[1..] + [key];
      }
    }
  }

  lemma {:induction false} SameListed(order: seq<string>, groups: map<string, Merged>, groups': map<string, Merged>,
                                      key: string)
    requires key !in order && forall k | k in order :: k in groups && k in groups' && groups'[k] == groups[k]
    ensures Listed(order, groups') == Listed(order, groups)
  {
    if order != [] {
      SameListed(order[1..], groups, groups', key);
    }
  }

  // ------------------------------------------------------------------- what items and groups always keep

  /** The entry names its period, or at least its month index, so its key does not depend on its position. */
  predicate CarriesPeriod(entry: Record) {
    NormalizeText(RecordValue(entry, ["period_month", "period", "month_label", "label"])) != ""
      || MonthIndex(entry).Some?
  }

  predicate IsStable(info: PeriodInfo, monthIndex: Option<Decimal>) {
    match info.period
    case Some(p) => p != "" && Trim(p) == p && info.key == "PERIOD:" + p && info.order == p
    case None =>
      && monthIndex.Some?
      && info.key == "INDEX:" + PadStart2(ShowDecimal(monthIndex.value))
         && info.order == PadStart2(ShowDecimal(monthIndex.value))
  }

  /** The key of an entry or row that names its period, or at least its month index. */
  function Named(period: Option<string>, monthIndex: Option<Decimal>): Option<string> {
    if period.Some? then Some("PERIOD:" + period.value)
    else if monthIndex.Some? then Some("INDEX:" + PadStart2(ShowDecimal(monthIndex.value)))
    else None
  }

  /** Keys are these names; keys of entries without one begin differently. */
  predicate IsGoodInfo(info: PeriodInfo, monthIndex: Option<Decimal>) {
    match Named(info.period, monthIndex)
    case Some(name) => info.key == name
    case None => info.key != "" && info.key[0] == 'R'
  }

  predicate IsNullOrTruthy(v: Option<Scalar>) {
    v.Some? ==> IsTruthy(v.value)
  }

  /** The key tells the period, whose text is trimmed; a carried key does not depend on the entry's position. */
  predicate IsSoundInfo(info: PeriodInfo, monthIndex: Option<Decimal>, carried: bool) {
    && IsGoodInfo(info, monthIndex)
    && (info.period.Some? ==> info.period.value != "" && Trim(info.period.value) == info.period.value)
    && (carried ==> IsStable(info, monthIndex))
  }

  predicate IsSoundItem(item: Item, carried: bool) {
    && IsSoundInfo(item.info, item.reading.monthIndex, carried)
    && IsNullOrTruthy(item.reading.collectibility) && Real(item.reading.sourceCount) >= 1.0
  }

  predicate IsCounting(g: Merged) {
    && g.bestRank == Rank(g.collectibility) && IsNullOrTruthy(g.collectibility)
    && Real(g.sourceCount) >= 0.0 && Real(g.dpd) >= 0.0
    && Real(g.reportedReporters) >= 0.0 && Real(g.reportedFacilities) >= 0.0
  }

  predicate IsSound(g: Merged, carried: bool) {
    IsSoundInfo(g.info, g.monthIndex, carried) && IsCounting(g) && Real(g.sourceCount) >= 1.0
  }

  lemma SmallReals()
    ensures Real(ZERO) == 0.0 && Real(ONE) == 1.0
  {
  }

  lemma {:induction false} TrimStartStays(s: string)
    ensures TrimStart(s) == "" || !IsSpace(TrimStart(s)[0])
  {
    if s != "" && IsSpace(s[0]) {
      TrimStartStays(s[1..]);
    }
  }

  lemma {:induction false} TrimEndStays(s: string)
    ensures TrimEnd(s) == "" || !IsSpace(TrimEnd(s)[|TrimEnd(s)| - 1])
    ensures TrimEnd(s) <= s
  {
    if s != "" && IsSpace(s[|s| - 1]) {
      TrimEndStays(s[..|s| - 1]);
    }
  }

  lemma NormalizedStays(v: Option<Scalar>)
    ensures Trim(NormalizeText(v)) == NormalizeText(v)
  {
    var t := NormalizeText(v);
    match v
    case Some(Text(s)) =>
      TrimStartStays(s);
      TrimEndStays(TrimStart(s));
      assert t != "" ==> t[0] == TrimStart(s)[0];
      TrimmedStays(t);
    case _ =>
      TrimmedStays(t);
  }

  lemma CarriedIsStable(entry: Record, index: nat)
    requires CarriesPeriod(entry)
    ensures IsStable(HistoryPeriodKey(entry, index), MonthIndex(entry))
  {
    var v := RecordValue(entry, ["period_month", "period", "month_label", "label"]);
    NormalizedStays(v);
    hide RecordValue, NormalizeText, Trim, ShowDecimal, PadStart2, MonthIndex;
  }

  lemma GoodInfos(entry: Record, index: nat)
    ensures IsGoodInfo(HistoryPeriodKey(entry, index), MonthIndex(entry))
  {
    hide RecordValue, NormalizeText, ParseScalar, ShowDecimal;
  }

  lemma EntryIsSound(entry: Record, index: nat, carried: bool)
    requires carried ==> CarriesPeriod(entry)
    ensures IsSoundItem(Item(HistoryPeriodKey(entry, index), Read(entry)), carried)
  {
    NormalizedStays(RecordValue(entry, ["period_month", "period", "month_label", "label"]));
    GoodInfos(entry, index);
    if carried {
      CarriedIsStable(entry, index);
    }
    hide RecordValue, NormalizeText, Trim, ShowDecimal, PadStart2, MonthIndex, NumberOr, IsTruthy, IsGoodInfo,
         IsStable, CarriesPeriod;
    RealArithmetic(ONE, NumberOr(RecordValue(entry, ["source_count"]), ZERO));
    SmallReals();
    hide Real, Max;
  }

  lemma {:induction false} ItemsAreSound(history: seq<Record>, index: nat, carried: bool)
    requires carried ==> forall entry | entry in history && IsMeaningful(entry) :: CarriesPeriod(entry)
    ensures forall item | item in Items(history, index) :: IsSoundItem(item, carried)
  {
    hide IsMeaningful, HistoryPeriodKey, Read, IsSoundItem, CarriesPeriod;
    if history != [] {
      ItemsAreSound(history[1..], index + 1, carried);
      if IsMeaningful(history[0]) {
        EntryIsSound(history[0], index, carried);
      }
    }
  }

  lemma FreshCounts(item: Item)
    ensures IsCounting(Fresh(item)) && Fresh(item).info == item.info
      && Fresh(item).monthIndex == item.reading.monthIndex
  {
    SmallReals();
    hide Real;
  }

  lemma MergeIsSound(g: Merged, item: Item, carried: bool)
    requires IsSoundInfo(g.info, g.monthIndex, carried) && IsCounting(g) && IsSoundItem(item, carried)
    ensures IsSound(Merge(g, item.reading), carried)
  {
    hide Real, Add, Max, IsSoundInfo, IsTruthy, Upper, Rank;
    RealArithmetic(g.sourceCount, item.reading.sourceCount);
    RealArithmetic(g.dpd, item.reading.dpd);
    RealArithmetic(g.reportedReporters, item.reading.reporterCount);
    RealArithmetic(g.reportedFacilities, item.reading.facilityCount);
  }

  lemma FreshMergeIsSound(item: Item, carried: bool)
    requires IsSoundItem(item, carried)
    ensures IsSound(Merge(Fresh(item), item.reading), carried)
  {
    FreshCounts(item);
    MergeIsSound(Fresh(item), item, carried);
  }

  lemma {:induction false} UpsertIsSound(groups: seq<Merged>, item: Item, carried: bool)
    requires IsSoundItem(item, carried) && forall g | g in groups :: IsSound(g, carried)
    ensures forall g | g in Upsert(groups, item) :: IsSound(g, carried)
  {
    hide IsSoundItem, IsSoundInfo, IsCounting, Merge, Fresh, Real;
    FreshMergeIsSound(item, carried);
    if groups != [] {
      assert IsSound(groups[0], carried);
      MergeIsSound(groups[0], item, carried);
      UpsertIsSound(groups[1..], item, carried);
    }
  }

  lemma {:induction false} CollectIsSound(items: seq<Item>, carried: bool)
    requires forall item | item in items :: IsSoundItem(item, carried)
    ensures forall g | g in Collect(items) :: IsSound(g, carried)
  {
    hide IsSound, IsSoundItem, Upsert;
    if items != [] {
      var front, last := items[..|items| - 1], items[|items| - 1];
      CollectIsSound(front, carried);
      UpsertIsSound(Collect(front), last, carried);
    }
  }

  lemma SameMembers(groups: seq<Merged>, le: (Merged, Merged) -> bool)
    ensures forall g :: g in groups <==> g in Sort(groups, le)
  {
    hide Sort;
    SortPermutes(groups, le);
    forall g
      ensures g in groups <==> g in Sort(groups, le)
    {
      assert g in groups <==> g in multiset(groups);
      assert g in Sort(groups, le) <==> g in multiset(Sort(groups, le));
    }
  }

  /** The groups of a history, in the order the rows are shown in. */
  lemma SortedIsSound(history: seq<Record>, textLe: (string, string) -> bool, carried: bool)
    requires carried ==> forall entry | entry in history && IsMeaningful(entry) :: CarriesPeriod(entry)
    ensures forall g | g in Sort(Collect(Items(history, 0)), OrderOf(textLe)) :: IsSound(g, carried)
  {
    hide IsSound, IsSoundItem, Items, Collect, Sort, OrderOf, IsMeaningful, CarriesPeriod;
    ItemsAreSound(history, 0, carried);
    CollectIsSound(Items(history, 0), carried);
    SameMembers(Collect(Items(history, 0)), OrderOf(textLe));
  }

  // --------------------------------------------------------------------------------------- tallies

  /** Months counted, the worst collectibility level (0 for none) and the highest number of days past due. */
  datatype Tally = Tally(count: real, worst: nat, dpd: real)

  const NOTHING := Tally(0.0, 0, 0.0)

  function MaxNat(a: nat, b: nat): nat {
    if a < b then b else a
  }

  function MaxOf(a: real, b: real): real {
    if a < b then b else a
  }

  function Plus(a: Tally, b: Tally): Tally {
    Tally(a.count + b.count, MaxNat(a.worst, b.worst), MaxOf(a.dpd, b.dpd))
  }

  function ReadingTally(r: Reading): Tally {
    Tally(Real(r.sourceCount), Rank(r.collectibility), MaxOf(0.0, Real(r.dpd)))
  }

  function RowTally(row: Row): Tally {
    Tally(Real(row.sourceCount), Rank(row.collectibility), MaxOf(0.0, Real(row.dpd)))
  }

  /** Everything, or what has the name asked for. */
  predicate Asks(q: Option<string>, name: Option<string>) {
    q.None? || q == name
  }

  function ItemName(item: Item): Option<string> {
    Named(item.info.period, item.reading.monthIndex)
  }

  function RowName(row: Row): Option<string> {
    Named(row.period, row.monthIndex)
  }

  function GroupName(g: Merged): Option<string> {
    Named(g.info.period, g.monthIndex)
  }

  function ItemsTally(items: seq<Item>, q: Option<string>): Tally {
    if items == [] then NOTHING
    else Plus(ItemTally(items[0], q), ItemsTally(items[1..], q))
  }

  function RowsTally(rows: seq<Row>, q: Option<string>): Tally {
    if rows == [] then NOTHING
    else Plus(if Asks(q, RowName(rows[0])) then RowTally(rows[0]) else NOTHING, RowsTally(rows[1..], q))
  }

  function Share(g: Merged, q: Option<string>): Tally {
    if Asks(q, GroupName(g)) then Tally(Real(g.sourceCount), g.bestRank, Real(g.dpd)) else NOTHING
  }

  function GroupsTally(groups: seq<Merged>, q: Option<string>): Tally {
    if groups == [] then NOTHING else Plus(Share(groups[0], q), GroupsTally(groups[1..], q))
  }

  lemma SameKeySameName(a: PeriodInfo, m: Option<Decimal>, b: PeriodInfo, n: Option<Decimal>)
    requires IsGoodInfo(a, m) && IsGoodInfo(b, n) && a.key == b.key
    ensures Named(a.period, m) == Named(b.period, n)
  {
    hide PadStart2, ShowDecimal;
  }

  lemma PlusLaws(a: Tally, b: Tally, c: Tally)
    ensures Plus(a, b) == Plus(b, a) && Plus(Plus(a, b), c) == Plus(a, Plus(b, c))
  {
  }

  lemma NothingRanks()
    ensures Rank(None) == 0
  {
  }

  lemma MergeTally(g: Merged, r: Reading, q: Option<string>)
    requires IsCounting(g)
    ensures Share(Merge(g, r), q) == Plus(Share(g, q), if Asks(q, GroupName(g)) then ReadingTally(r) else NOTHING)
  {
    hide Real, Add, Max, IsTruthy, IsGoodInfo, Named, Rank, Upper;
    RealArithmetic(g.sourceCount, r.sourceCount);
    RealArithmetic(g.dpd, r.dpd);
    NothingRanks();
  }

  lemma {:induction false} UpsertTally(groups: seq<Merged>, item: Item, q: Option<string>)
    requires IsSoundItem(item, false) && forall g | g in groups :: IsSound(g, false)
    ensures GroupsTally(Upsert(groups, item), q) == Plus(GroupsTally(groups, q), ItemTally(item, q))
  {
    hide IsSound, IsSoundItem, Share, ItemTally, Plus, Merge, Fresh;
    var t := ItemTally(item, q);
    FreshTally(item, q);
    if groups == [] {
      var r := [Merge(Fresh(item), item.reading)];
      assert r[1..] == [];
    } else {
      var g := groups[0];
      var rest := GroupsTally(groups[1..], q);
      PlusLaws(Share(g, q), rest, t);
      if g.info.key == item.info.key {
        KeyedMerge(g, item, q);
        PlusLaws(Share(g, q), t, rest);
        PlusLaws(t, rest, NOTHING);
        var r := [Merge(g, item.reading)] + groups[1..];
        assert r[1..] == groups[1..];
      } else {
        UpsertTally(groups[1..], item, q);
        var r := [g] + Upsert(groups[1..], item);
        assert r[1..] == Upsert(groups[1..], item);
      }
    }
  }

  function ItemTally(item: Item, q: Option<string>): Tally {
    if Asks(q, ItemName(item)) then ReadingTally(item.reading) else NOTHING
  }

  lemma FreshTally(item: Item, q: Option<string>)
    ensures var t := ItemTally(item, q);
      var g := Merge(Fresh(item), item.reading);
      Share(g, q) == t && Plus(t, NOTHING) == t && Plus(NOTHING, t) == t
  {
    hide Named;
    FreshCounts(item);
    MergeTally(Fresh(item), item.reading, q);
    SmallReals();
    hide Rank, Merge, IsCounting, Real;
  }

  lemma KeyedMerge(g: Merged, item: Item, q: Option<string>)
    requires IsSound(g, false) && IsSoundItem(item, false) && g.info.key == item.info.key
    ensures var t := ItemTally(item, q);
      Share(Merge(g, item.reading), q) == Plus(Share(g, q), t)
  {
    hide Rank, Merge, Real, Named, IsGoodInfo, IsCounting, IsStable, Trim;
    SameKeySameName(g.info, g.monthIndex, item.info, item.reading.monthIndex);
    MergeTally(g, item.reading, q);
  }

  lemma {:induction false} ItemsTallyAppend(items: seq<Item>, more: seq<Item>, q: Option<string>)
    ensures ItemsTally(items + more, q) == Plus(ItemsTally(items, q), ItemsTally(more, q))
  {
    hide ReadingTally, Asks, Named;
    if items == [] {
      assert items + more == more;
      TallyIsNonNegative(more, q);
    } else {
      ItemsTallyAppend(items[1..], more, q);
      assert (items + more)[1..] == items[1..] + more;
    }
  }

  lemma {:induction false} TallyIsNonNegative(items: seq<Item>, q: Option<string>)
    ensures ItemsTally(items, q).dpd >= 0.0
  {
    if items != [] {
      TallyIsNonNegative(items[1..], q);
    }
  }

  lemma {:induction false} CollectTally(items: seq<Item>, q: Option<string>)
    requires forall item | item in items :: IsSoundItem(item, false)
    ensures GroupsTally(Collect(items), q) == ItemsTally(items, q)
  {
    hide IsSound, IsSoundItem, ItemTally, Upsert, Plus, GroupsTally;
    if items == [] {
      GroupsOfNone(q);
    } else {
      var front, last := items[..|items| - 1], items[|items| - 1];
      CollectTally(front, q);
      CollectIsSound(front, false);
      UpsertTally(Collect(front), last, q);
      hide Collect, ItemsTally;
      LastItem(front, last, q);
      assert front + [last] == items;
    }
  }

  lemma GroupsOfNone(q: Option<string>)
    ensures GroupsTally([], q) == NOTHING
  {
  }

  lemma LastItem(front: seq<Item>, last: Item, q: Option<string>)
    ensures ItemsTally(front + [last], q) == Plus(ItemsTally(front, q), ItemTally(last, q))
  {
    ItemsTallyAppend(front, [last], q);
    assert [last][1..] == [];
    hide Rank, Real;
  }

  lemma {:induction false} SortTally(groups: seq<Merged>, le: (Merged, Merged) -> bool, q: Option<string>)
    ensures GroupsTally(Sort(groups, le), q) == GroupsTally(groups, q)
  {
    hide Share;
    if groups != [] {
      SortTally(groups[1..], le, q);
      InsertTally(groups[0], Sort(groups[1..], le), le, q);
    }
  }

  lemma {:induction false} InsertTally(g: Merged, groups: seq<Merged>, le: (Merged, Merged) -> bool, q: Option<string>)
    ensures GroupsTally(Insert(g, groups, le), q) == Plus(Share(g, q), GroupsTally(groups, q))
  {
    hide Share;
    if groups == [] || le(g, groups[0]) {
      assert ([g] + groups)[1..] == groups;
    } else {
      InsertTally(g, groups[1..], le, q);
      assert ([groups[0]] + Insert(g, groups[1..], le))[1..] == Insert(g, groups[1..], le);
    }
  }

  lemma {:induction false} RowsTallyIsGroupsTally(groups: seq<Merged>, q: Option<string>)
    requires forall g | g in groups :: IsSound(g, false)
    ensures RowsTally(Rows(groups), q) == GroupsTally(groups, q)
  {
    hide IsSound, Rank, Real;
    if groups != [] {
      RowsTallyIsGroupsTally(groups[1..], q);
      RowTallyIsShare(groups[0], q);
      assert Rows(groups)[1..] == Rows(groups[1..]);
    }
  }

  lemma RowTallyIsShare(g: Merged, q: Option<string>)
    requires IsSound(g, false)
    ensures RowName(ToRow(g)) == GroupName(g)
    ensures Share(g, q) == if Asks(q, GroupName(g)) then RowTally(ToRow(g)) else NOTHING
  {
    hide Rank, Real, Named;
  }

  /**
    Nothing is lost in the merge: for every period, for every month index without one, and over all entries, the months
    counted add up to those of the meaningful entries, and the worst level and the highest days past due are theirs.
   */
  lemma AggregateConserves(history: seq<Record>, textLe: (string, string) -> bool, q: Option<string>)
    ensures RowsTally(Aggregate(history, textLe), q) == ItemsTally(Items(history, 0), q)
  {
    hide IsSoundItem, IsSound, Items, Collect, Rows, Sort, OrderOf, GroupsTally, RowsTally, ItemsTally;
    var items := Items(history, 0);
    ItemsAreSound(history, 0, false);
    CollectTally(items, q);
    SortTally(Collect(items), OrderOf(textLe), q);
    SortedIsSound(history, textLe, false);
    RowsTallyIsGroupsTally(Sort(Collect(items), OrderOf(textLe)), q);
  }

  // ------------------------------------------------------------------------------ one row per period

  ghost predicate DistinctKeys(groups: seq<Merged>) {
    forall i, j | 0 <= i < j < |groups| :: groups[i].info.key != groups[j].info.key
  }

  function Keys(groups: seq<Merged>): (keys: seq<string>)
    ensures |keys| == |groups| && forall i | 0 <= i < |groups| :: keys[i] == groups[i].info.key
  {
    seq(|groups|, i requires 0 <= i < |groups| => groups[i].info.key)
  }

  lemma KeysOfCons(g: Merged, rest: seq<Merged>)
    ensures Keys([g] + rest) == [g.info.key] + Keys(rest)
  {
  }

  lemma {:induction false} UpsertKeys(groups: seq<Merged>, item: Item)
    ensures Keys(Upsert(groups, item)) == if item.info.key in Keys(groups) then Keys(groups)
      else Keys(groups) + [item.info.key]
  {
    hide Merge, Keys;
    if groups == [] {
      MergeKeepsInfo(Fresh(item), item.reading);
      assert Keys([]) == [];
      assert Upsert(groups, item) == [Merge(Fresh(item), item.reading)] + [];
      KeysOfCons(Merge(Fresh(item), item.reading), []);
    } else {
      var g, rest := groups[0], groups[1..];
      assert groups == [g] + rest;
      KeysOfCons(g, rest);
      if g.info.key == item.info.key {
        MergeKeepsInfo(g, item.reading);
        KeysOfCons(Merge(g, item.reading), rest);
      } else {
        UpsertKeys(rest, item);
        KeysOfCons(g, Upsert(rest, item));
        assert [g.info.key] + (Keys(rest) + [item.info.key]) == [g.info.key] + Keys(rest) + [item.info.key];
      }
    }
  }

  lemma {:induction false} CollectDistinct(items: seq<Item>)
    ensures DistinctKeys(Collect(items))
  {
    hide Upsert;
    if items != [] {
      var front, last := items[..|items| - 1], items[|items| - 1];
      CollectDistinct(front);
      UpsertKeys(Collect(front), last);
      var groups := Collect(items);
      assert Keys(groups) == Keys(Upsert(Collect(front), last));
      forall i, j | 0 <= i < j < |groups|
        ensures groups[i].info.key != groups[j].info.key
      {
        assert Keys(groups)[i] == groups[i].info.key && Keys(groups)[j] == groups[j].info.key;
        assert Keys(Collect(front))[i] == Collect(front)[i].info.key;
      }
    }
  }

  function KeyOf(g: Merged): string {
    g.info.key
  }

  lemma DistinctSorted(groups: seq<Merged>, le: (Merged, Merged) -> bool)
    requires DistinctKeys(groups)
    ensures DistinctKeys(Sort(groups, le))
  {
    hide Sort;
    SortPermutes(groups, le);
    DistinctPermuted(groups, Sort(groups, le), KeyOf);
    var sorted := Sort(groups, le);
    forall i, j | 0 <= i < j < |sorted|
      ensures sorted[i].info.key != sorted[j].info.key
    {
      assert KeyOf(sorted[i]) != KeyOf(sorted[j]);
    }
  }

  lemma {:induction false} RowsAt(groups: seq<Merged>)
    ensures |Rows(groups)| == |groups|
    ensures forall i | 0 <= i < |groups| :: Rows(groups)[i] == ToRow(groups[i])
  {
    hide ToRow;
    if groups != [] {
      RowsAt(groups[1..]);
    }
  }

  /** No two rows share a period, or without one a month index. */
  lemma OneRowPerPeriod(history: seq<Record>, textLe: (string, string) -> bool)
    ensures var rows := Aggregate(history, textLe);
      forall i, j | 0 <= i < j < |rows| ::
        && (RowName(rows[i]).Some? ==> RowName(rows[i]) != RowName(rows[j]))
        && (rows[i].period.Some? ==> rows[i].period != rows[j].period)
  {
    hide Items, Collect, Sort, OrderOf, IsCounting, IsStable, Trim, Rows, Named;
    var items := Items(history, 0);
    var groups := Sort(Collect(items), OrderOf(textLe));
    SortedIsSound(history, textLe, false);
    CollectDistinct(items);
    DistinctSorted(Collect(items), OrderOf(textLe));
    RowsAt(groups);
    forall i, j | 0 <= i < j < |groups|
      ensures GroupName(groups[i]).Some? ==> GroupName(groups[i]) != GroupName(groups[j])
      ensures groups[i].info.period.Some? ==> groups[i].info.period != groups[j].info.period
    {
      assert groups[i] in groups && groups[j] in groups;
      assert IsGoodInfo(groups[i].info, groups[i].monthIndex) && IsGoodInfo(groups[j].info, groups[j].monthIndex);
      SamePeriodSameName(groups[i], groups[j]);
    }
  }

  lemma SamePeriodSameName(g: Merged, h: Merged)
    ensures g.info.period.Some? ==> GroupName(g).Some?
    ensures g.info.period.Some? && g.info.period == h.info.period ==> GroupName(g) == GroupName(h)
  {
  }

  // ------------------------------------------------------------------------------ merging rows again

  /** A row read back as an entry gives exactly the row's own columns. */
  lemma ReadRow(row: Row)
    requires IsNullOrTruthy(row.collectibility)
    ensures var entry := RowRecord(row);
      && IsMeaningful(entry)
      && Read(entry) == Reading(row.collectibility, row.dpd, Max(ONE, row.sourceCount), row.reporterCount,
                                row.facilityCount,
                                "", "", row.monthIndex)
  {
    var entry := RowRecord(row);
    RowKeys(row);
    RowCollectibility(row);
    RowNumber(entry, ["days_past_due", "dpd", "jumlah_hari_tunggakan"], row.dpd);
    RowNumber(entry, ["source_count"], row.sourceCount);
    RowNumber(entry, ["reporter_count"], row.reporterCount);
    RowNumber(entry, ["facility_count"], row.facilityCount);
    RowMonthIndex(row);
    Absent(entry, ["reporter_name", "reporter_code"]);
    Absent(entry, ["account_number", "no_rekening"]);
    hide RowRecord, RecordValue, Max, ShowDecimal;
  }

  lemma RowKeys(row: Row)
    ensures var entry := RowRecord(row);
      && "days_past_due" in entry && entry["days_past_due"] == Number(row.dpd)
      && "source_count" in entry && entry["source_count"] == Number(row.sourceCount)
      && "reporter_count" in entry && entry["reporter_count"] == Number(row.reporterCount)
      && "facility_count" in entry && entry["facility_count"] == Number(row.facilityCount)
      && "reporter_name" !in entry && "reporter_code" !in entry && "account_number" !in entry && "no_rekening" !in entry
  {
  }

  lemma RowNumber(entry: Record, keys: seq<string>, d: Decimal)
    requires keys != [] && keys[0] in entry && entry[keys[0]] == Number(d)
    ensures RecordValue(entry, keys) == Some(Number(d)) && NumberOr(RecordValue(entry, keys), ZERO) == d
  {
  }

  lemma {:induction false} Absent(entry: Record, keys: seq<string>)
    requires forall key | key in keys :: key !in entry || !IsPresent(entry[key])
    ensures RecordValue(entry, keys) == None
  {
    if keys != [] {
      Absent(entry, keys[1..]);
    }
  }

  lemma RowCollectibility(row: Row)
    requires IsNullOrTruthy(row.collectibility)
    ensures OrNull(RecordValue(RowRecord(row), ["collectibility_code", "collectibility", "kol"])) == row.collectibility
  {
    var entry, keys := RowRecord(row), ["collectibility_code", "collectibility", "kol"];
    assert entry["collectibility_code"] == OrScalarNull(row.collectibility)
      && entry["collectibility"] == OrScalarNull(row.collectibility)
        && entry["kol"] == OrScalarNull(row.collectibility);
    if row.collectibility.None? {
      Absent(entry, keys);
    } else {
      assert keys[0] == "collectibility_code";
    }
  }

  lemma RowMonthIndex(row: Row)
    ensures MonthIndex(RowRecord(row)) == row.monthIndex
  {
    var entry, keys := RowRecord(row), ["month_index", "monthIndex"];
    assert "month_index" in entry && entry["month_index"] == if row.monthIndex.Some? then Number(row.monthIndex.value)
      else Null;
    assert "monthIndex" !in entry;
    if row.monthIndex.None? {
      Absent(entry, keys);
    } else {
      RowNumber(entry, keys, row.monthIndex.value);
    }
  }

  lemma RowPeriod(row: Row)
    requires row.period.Some? ==> row.period.value != ""
    ensures RecordValue(RowRecord(row), ["period_month", "period", "month_label", "label"])
         == if row.period.Some? then Some(Text(row.period.value)) else None
  {
    var entry, keys := RowRecord(row), ["period_month", "period", "month_label", "label"];
    assert "period_month" in entry && entry["period_month"] == if row.period.Some? then Text(row.period.value)
      else Null;
    assert "period" !in entry && "month_label" !in entry && "label" !in entry;
    if row.period.None? {
      Absent(entry, keys);
    } else {
      assert keys[0] == "period_month";
    }
  }

  /** A row of a merge keeps the key of the entries it merged. */
  lemma RowKeepsKey(g: Merged, index: nat)
    requires IsStable(g.info, g.monthIndex)
    ensures HistoryPeriodKey(RowRecord(ToRow(g)), index) == g.info
  {
    RowPeriod(ToRow(g));
    RowMonthIndex(ToRow(g));
    hide RowRecord, RecordValue, ShowDecimal, PadStart2, MonthIndex, Trim;
  }

  // ------------------------------------------------------- the tally of rows merged again (no conditions)

  lemma RowKeepsPeriod(row: Row, index: nat)
    requires row.period.Some? ==> row.period.value != "" && Trim(row.period.value) == row.period.value
    ensures HistoryPeriodKey(RowRecord(row), index).period == row.period
  {
    RowPeriod(row);
    hide RowRecord, RecordValue, ShowDecimal, PadStart2, MonthIndex, Trim;
  }

  function Records(rows: seq<Row>): seq<Record> {
    if rows == [] then [] else [RowRecord(rows[0])] + Records(rows[1..])
  }

  predicate IsProperRow(row: Row) {
    && (row.period.Some? ==> row.period.value != "" && Trim(row.period.value) == row.period.value)
    && IsNullOrTruthy(row.collectibility)
    && Real(row.sourceCount) >= 1.0
  }

  lemma ReadRowTally(row: Row)
    requires IsProperRow(row)
    ensures ReadingTally(Read(RowRecord(row))) == RowTally(row)
  {
    ReadRow(row);
    hide RowRecord, Read, Rank;
    RealArithmetic(ONE, row.sourceCount);
    assert Real(ONE) == 1.0;
    hide Max, Real;
  }

  lemma {:induction false} RecordsTally(rows: seq<Row>, index: nat, q: Option<string>)
    requires forall row | row in rows :: IsProperRow(row)
    ensures ItemsTally(Items(Records(rows), index), q) == RowsTally(rows, q)
  {
    hide IsProperRow, ReadingTally, RowTally, Plus, RowRecord, Read, HistoryPeriodKey, IsMeaningful, Named;
    if rows != [] {
      RecordsTally(rows[1..], index + 1, q);
      assert IsProperRow(rows[0]);
      ProperRowItem(rows[0], index);
      ReadRowTally(rows[0]);
      var record := RowRecord(rows[0]);
      assert Records(rows)[0] == record && Records(rows)[1..] == Records(rows[1..]);
      var item := Item(HistoryPeriodKey(record, index), Read(record));
      var rest := Items(Records(rows[1..]), index + 1);
      assert Items(Records(rows), index) == [item] + rest && ([item] + rest)[1..] == rest;
    }
  }

  lemma ProperRowItem(row: Row, index: nat)
    requires IsProperRow(row)
    ensures IsMeaningful(RowRecord(row)) && HistoryPeriodKey(RowRecord(row), index).period == row.period
    ensures Read(RowRecord(row)).monthIndex == row.monthIndex
  {
    ReadRow(row);
    hide IsMeaningful, Read, RowRecord;
    RowKeepsPeriod(row, index);
    hide HistoryPeriodKey;
  }

  lemma AggregateIsProper(history: seq<Record>, textLe: (string, string) -> bool)
    ensures forall row | row in Aggregate(history, textLe) :: IsProperRow(row)
  {
    hide Items, Collect, Sort, OrderOf, Rows, IsSound, IsProperRow;
    var groups := Sort(Collect(Items(history, 0)), OrderOf(textLe));
    SortedIsSound(history, textLe, false);
    RowsAt(groups);
    forall i | 0 <= i < |groups|
      ensures IsProperRow(Aggregate(history, textLe)[i])
    {
      assert groups[i] in groups;
      ProperRow(groups[i]);
    }
  }

  lemma ProperRow(g: Merged)
    requires IsSound(g, false)
    ensures IsProperRow(ToRow(g))
  {
  }

  lemma {:induction false} ItemsTallyMoves(history: seq<Record>, i: nat, j: nat, q: Option<string>)
    ensures ItemsTally(Items(history, i), q) == ItemsTally(Items(history, j), q)
  {
    hide IsMeaningful, Read, ReadingTally, Plus, Named;
    if history != [] {
      ItemsTallyMoves(history[1..], i + 1, j + 1, q);
      PeriodMoves(history[0], i, j);
      hide HistoryPeriodKey;
      if IsMeaningful(history[0]) {
        ConsTally(Item(HistoryPeriodKey(history[0], i), Read(history[0])), Items(history[1..], i + 1), q);
        ConsTally(Item(HistoryPeriodKey(history[0], j), Read(history[0])), Items(history[1..], j + 1), q);
      } else {
        assert [] + Items(history[1..], i + 1) == Items(history[1..], i + 1);
        assert [] + Items(history[1..], j + 1) == Items(history[1..], j + 1);
      }
    }
  }

  lemma ConsTally(item: Item, rest: seq<Item>, q: Option<string>)
    ensures ItemsTally([item] + rest, q) == Plus(ItemTally(item, q), ItemsTally(rest, q))
  {
    assert ([item] + rest)[1..] == rest;
  }

  lemma PeriodMoves(entry: Record, i: nat, j: nat)
    ensures HistoryPeriodKey(entry, i).period == HistoryPeriodKey(entry, j).period
  {
    hide RecordValue, NormalizeText, ShowDecimal, MonthIndex;
  }

  lemma {:induction false} ItemsOfConcat(x: seq<Record>, y: seq<Record>, index: nat)
    ensures Items(x + y, index) == Items(x, index) + Items(y, index + |x|)
  {
    hide First;
    if x == [] {
      assert x + y == y;
      assert [] + Items(y, index) == Items(y, index);
    } else {
      ItemsOfConcat(x[1..], y, index + 1);
      assert (x + y)[1..] == x[1..] + y && (x + y)[0] == x[0];
      var first, rest := First(x[0], index), Items(x[1..], index + 1);
      assert first + (rest + Items(y, index + |x|)) == first + rest + Items(y, index + |x|);
    }
  }

  /**
    Merging two already merged histories gives, for every period, for every month index without one, and over all rows,
    the same months counted, worst level and highest days past due as merging the original entries of both.
   */
  lemma MergingMerged(x: seq<Record>, y: seq<Record>, textLe: (string, string) -> bool, q: Option<string>)
    ensures RowsTally(Aggregate(Records(Aggregate(x, textLe)) + Records(Aggregate(y, textLe)), textLe), q)
         == RowsTally(Aggregate(x + y, textLe), q)
  {
    hide Aggregate, Items, ItemsTally, RowsTally, Plus, Records, IsProperRow;
    var a, b := Aggregate(x, textLe), Aggregate(y, textLe);
    MergedTally(Records(a), Records(b), textLe, q);
    MergedTally(x, y, textLe, q);
    AggregateIsProper(x, textLe);
    AggregateIsProper(y, textLe);
    RecordsTally(a, 0, q);
    RecordsTally(b, 0, q);
    AggregateConserves(x, textLe, q);
    AggregateConserves(y, textLe, q);
  }

  lemma MergedTally(x: seq<Record>, y: seq<Record>, textLe: (string, string) -> bool, q: Option<string>)
    ensures RowsTally(Aggregate(x + y, textLe), q) == Plus(ItemsTally(Items(x, 0), q), ItemsTally(Items(y, 0), q))
  {
    hide Aggregate, Items, ItemsTally, RowsTally, Plus;
    AggregateConserves(x + y, textLe, q);
    ItemsOfConcat(x, y, 0);
    ItemsTallyAppend(Items(x, 0), Items(y, |x|), q);
    ItemsTallyMoves(y, |x|, 0, q);
  }

  // -------------------------------------------------------------------------------------- idempotence

  /** Equal texts and numerically equal counts. */
  predicate SameRow(a: Row, b: Row) {
    && a.period == b.period && a.monthIndex == b.monthIndex && a.collectibility == b.collectibility
    && Real(a.dpd) == Real(b.dpd) && Real(a.sourceCount) == Real(b.sourceCount)
    && Real(a.reporterCount) == Real(b.reporterCount) && Real(a.facilityCount) == Real(b.facilityCount)
  }

  ghost predicate SameRows(a: seq<Row>, b: seq<Row>) {
    |a| == |b| && forall i | 0 <= i < |a| :: SameRow(a[i], b[i])
  }

  /** What merging a group's own row alone gives. */
  function Reread(g: Merged): Item {
    Item(g.info, Read(RowRecord(ToRow(g))))
  }

  function Again(g: Merged): Merged {
    Merge(Fresh(Reread(g)), Reread(g).reading)
  }

  lemma AgainColumns(g: Merged)
    requires IsNullOrTruthy(g.collectibility)
    ensures Again(g).info == g.info
    ensures var row := ToRow(g);
      ToRow(Again(g)) == Row(row.period, row.monthIndex, row.collectibility, Max(ZERO, row.dpd),
                             Add(ZERO, Max(ONE, row.sourceCount)),
                             Max(ZERO, Max(ZERO, row.reporterCount)), Max(ZERO, Max(ZERO, row.facilityCount)))
  {
    ReadRow(ToRow(g));
    hide Read, RowRecord, Add, Max, Rank;
    var none: set<string> := {};
    assert Decimal(|none|, 0) == ZERO;
  }

  lemma MaxOfZero(d: Decimal)
    ensures Real(d) >= 0.0 ==> Real(Max(ZERO, d)) == Real(d)
    ensures Real(Max(ZERO, d)) >= 0.0
  {
    hide Real, Max;
    RealArithmetic(ZERO, d);
    SmallReals();
  }

  lemma MaxOfOne(d: Decimal)
    requires Real(d) >= 1.0
    ensures Real(Add(ZERO, Max(ONE, d))) == Real(d)
  {
    hide Real, Max, Add;
    RealArithmetic(ONE, d);
    RealArithmetic(ZERO, Max(ONE, d));
    SmallReals();
  }

  lemma MaxIsNonNegative(n: nat, d: Decimal)
    requires Real(d) >= 0.0
    ensures Real(Max(Decimal(n, 0), d)) >= 0.0
  {
    hide Real, Max;
    RealArithmetic(Decimal(n, 0), d);
  }

  lemma AgainIsSame(g: Merged)
    requires IsSound(g, true)
    ensures SameRow(ToRow(Again(g)), ToRow(g)) && Again(g).info == g.info
  {
    hide Real, Add, Max, Again, IsTruthy, IsStable;
    var row := ToRow(g);
    AgainColumns(g);
    MaxOfOne(row.sourceCount);
    MaxOfZero(row.dpd);
    MaxIsNonNegative(|g.reporterKeys|, g.reportedReporters);
    MaxIsNonNegative(|g.accountKeys|, g.reportedFacilities);
    MaxOfZero(row.reporterCount);
    MaxOfZero(row.facilityCount);
    MaxOfZero(Max(ZERO, row.reporterCount));
    MaxOfZero(Max(ZERO, row.facilityCount));
  }

  function Rereads(groups: seq<Merged>): (items: seq<Item>)
    ensures |items| == |groups| && forall i | 0 <= i < |groups| :: items[i] == Reread(groups[i])
  {
    if groups == [] then [] else [Reread(groups[0])] + Rereads(groups[1..])
  }

  function Agains(groups: seq<Merged>): (r: seq<Merged>)
    ensures |r| == |groups| && forall i | 0 <= i < |groups| :: r[i] == Again(groups[i])
  {
    seq(|groups|, i requires 0 <= i < |groups| => Again(groups[i]))
  }

  lemma {:induction false} ItemsOfRows(groups: seq<Merged>, index: nat)
    requires forall g | g in groups :: IsSound(g, true)
    ensures Items(Records(Rows(groups)), index) == Rereads(groups)
  {
    hide IsSound, Read, RowRecord, ToRow, IsMeaningful, HistoryPeriodKey;
    if groups != [] {
      var row := ToRow(groups[0]);
      ItemsOfRows(groups[1..], index + 1);
      SettledRow(groups[0], index);
      assert Records(Rows(groups))[0] == RowRecord(row) && Records(Rows(groups))[1..] == Records(Rows(groups)[1..]);
      assert Rows(groups)[1..] == Rows(groups[1..]);
    }
  }

  lemma SettledRow(g: Merged, index: nat)
    requires IsSound(g, true)
    ensures IsMeaningful(RowRecord(ToRow(g))) && HistoryPeriodKey(RowRecord(ToRow(g)), index) == g.info
  {
    RowKeepsKey(g, index);
    ReadRow(ToRow(g));
  }

  lemma {:induction false} UpsertNew(groups: seq<Merged>, item: Item)
    requires forall g | g in groups :: g.info.key != item.info.key
    ensures Upsert(groups, item) == groups + [Merge(Fresh(item), item.reading)]
  {
    hide Merge, Fresh;
    if groups != [] {
      UpsertNew(groups[1..], item);
    }
  }

  lemma AgainInfo(g: Merged)
    ensures Again(g).info == g.info
  {
    MergeKeepsInfo(Fresh(Reread(g)), Reread(g).reading);
  }

  lemma LastReread(groups: seq<Merged>)
    requires groups != []
    ensures var front, last := groups[..|groups| - 1], groups[|groups| - 1];
      && Rereads(groups) == Rereads(front) + [Reread(last)] && Agains(groups) == Agains(front) + [Again(last)]
  {
    hide Reread, Again, Rereads, Agains;
    var front, last := groups[..|groups| - 1], groups[|groups| - 1];
    forall k | 0 <= k < |groups|
      ensures Rereads(groups)[k] == (Rereads(front) + [Reread(last)])[k]
      ensures Agains(groups)[k] == (Agains(front) + [Again(last)])[k]
    {
      assert k < |front| ==> front[k] == groups[k];
    }
  }

  lemma {:induction false} CollectRereads(groups: seq<Merged>)
    requires DistinctKeys(groups)
    ensures Collect(Rereads(groups)) == Agains(groups)
  {
    if groups == [] {
      assert Rereads(groups) == [] && Agains(groups) == [];
    } else {
      hide *;
      var front, last := groups[..|groups| - 1], groups[|groups| - 1];
      DistinctFront(groups);
      CollectRereads(front);
      LastReread(groups);
      CollectStep(Rereads(front), Reread(last));
      NewKey(groups);
      UpsertNew(Agains(front), Reread(last));
      AgainIs(last);
    }
  }

  lemma DistinctFront(groups: seq<Merged>)
    requires DistinctKeys(groups) && groups != []
    ensures DistinctKeys(groups[..|groups| - 1])
  {
  }

  lemma AgainIs(g: Merged)
    ensures Again(g) == Merge(Fresh(Reread(g)), Reread(g).reading)
  {
  }

  /** The last row's key is new to the rows before it. */
  lemma NewKey(groups: seq<Merged>)
    requires DistinctKeys(groups) && groups != []
    ensures forall g | g in Agains(groups[..|groups| - 1]) :: g.info.key != Reread(groups[|groups| - 1]).info.key
  {
    hide Reread, Again;
    var front, last := groups[..|groups| - 1], groups[|groups| - 1];
    RereadInfo(last);
    forall g | g in Agains(front)
      ensures g.info.key != Reread(last).info.key
    {
      var i :| 0 <= i < |front| && g == Again(front[i]);
      AgainInfo(front[i]);
      assert groups[i].info.key != groups[|groups| - 1].info.key;
    }
  }

  lemma RereadInfo(g: Merged)
    ensures Reread(g).info == g.info
  {
  }

  lemma AgainsSorted(groups: seq<Merged>, textLe: (string, string) -> bool)
    requires SortedBy(groups, OrderOf(textLe))
    ensures SortedBy(Agains(groups), OrderOf(textLe))
  {
    hide Again;
    var r := Agains(groups);
    forall i, j | 0 <= i < j < |r|
      ensures OrderOf(textLe)(r[i], r[j])
    {
      AgainInfo(groups[i]);
      AgainInfo(groups[j]);
      assert OrderOf(textLe)(groups[i], groups[j]);
    }
  }

  lemma OrderIsTotal(textLe: (string, string) -> bool)
    requires TotalPreorder(textLe)
    ensures TotalPreorder(OrderOf(textLe))
  {
    var le := OrderOf(textLe);
    forall a, b
      ensures le(a, b) || le(b, a)
    {
      assert textLe(a.info.order, b.info.order) || textLe(b.info.order, a.info.order);
    }
    forall a, b, c | le(a, b) && le(b, c)
      ensures le(a, c)
    {
      assert textLe(a.info.order, b.info.order) && textLe(b.info.order, c.info.order);
    }
  }

  /** Merging the merged rows once more changes nothing, when the entries carry their period or month index. */
  lemma AggregateIsIdempotent(history: seq<Record>, textLe: (string, string) -> bool)
    requires TotalPreorder(textLe)
    requires forall entry | entry in history && IsMeaningful(entry) :: CarriesPeriod(entry)
    ensures SameRows(Aggregate(Records(Aggregate(history, textLe)), textLe), Aggregate(history, textLe))
  {
    hide IsSound, Again, ToRow, SameRow, Items, Collect, Sort, OrderOf, IsMeaningful, CarriesPeriod, Rereads, Agains,
         Rows, Records,
         DistinctKeys, SortedBy;
    var collected := Collect(Items(history, 0));
    var groups := Sort(collected, OrderOf(textLe));
    SortedIsSound(history, textLe, true);
    ItemsOfRows(groups, 0);
    CollectDistinct(Items(history, 0));
    DistinctSorted(collected, OrderOf(textLe));
    CollectRereads(groups);
    OrderIsTotal(textLe);
    SortSorts(collected, OrderOf(textLe));
    AgainsSorted(groups, textLe);
    SortOfSorted(Agains(groups), OrderOf(textLe));
    RowsAt(groups);
    RowsAt(Agains(groups));
    forall i | 0 <= i < |groups|
      ensures SameRow(ToRow(Agains(groups)[i]), ToRow(groups[i]))
    {
      assert groups[i] in groups;
      AgainIsSame(groups[i]);
    }
  }

  // -------------------------------------------------------------------------- the columns of one row

  function Reporters(items: seq<Item>, key: string): set<string> {
    set item | item in items && item.info.key == key && item.reading.reporter != "" :: Upper(item.reading.reporter)
  }

  function Accounts(items: seq<Item>, key: string): set<string> {
    set item | item in items && item.info.key == key && item.reading.account != "" :: Upper(item.reading.account)
  }

  predicate IsEntryOf(item: Item, items: seq<Item>, key: string) {
    item in items && item.info.key == key
  }

  ghost predicate IsReported(x: real, column: Reading -> Decimal, items: seq<Item>, key: string) {
    && x >= 0.0
    && (forall item | IsEntryOf(item, items, key) :: Real(column(item.reading)) <= x)
    && (x == 0.0 || exists item :: IsEntryOf(item, items, key) && Real(column(item.reading)) == x)
  }

  function ReporterColumn(r: Reading): Decimal {
    r.reporterCount
  }

  function FacilityColumn(r: Reading): Decimal {
    r.facilityCount
  }

  /**
    The reporters, accounts, reported counts and shown collectibility are those of the entries with the group's key.
   */
  ghost predicate Describes(g: Merged, items: seq<Item>) {
    && g.reporterKeys == Reporters(items, g.info.key) && g.accountKeys == Accounts(items, g.info.key)
    && IsReported(Real(g.reportedReporters), ReporterColumn, items, g.info.key)
    && IsReported(Real(g.reportedFacilities), FacilityColumn, items, g.info.key)
    && IsShown(g.collectibility, items, g.info.key) && g.bestRank == Rank(g.collectibility)
  }

  /** The entry at `i` has the key and states a collectibility. */
  predicate States(items: seq<Item>, i: int, key: string) {
    0 <= i < |items| && items[i].info.key == key && items[i].reading.collectibility.Some?
  }

  /** The first of the worst collectibilities that the entries with the key state, or none when none states one. */
  ghost predicate IsShown(v: Option<Scalar>, items: seq<Item>, key: string) {
    if v.None? then forall i :: !States(items, i, key)
    else exists i | States(items, i, key) && items[i].reading.collectibility == v ::
           forall j | States(items, j, key) ::
             if j < i then Rank(items[j].reading.collectibility) < Rank(v)
             else Rank(items[j].reading.collectibility) <= Rank(v)
  }

  lemma ShownElsewhere(v: Option<Scalar>, items: seq<Item>, item: Item, key: string)
    requires IsShown(v, items, key) && item.info.key != key
    ensures IsShown(v, items + [item], key)
  {
    hide Rank;
    var more := items + [item];
    assert forall j :: States(more, j, key) <==> States(items, j, key);
    if v.Some? {
      var i :| States(items, i, key) && items[i].reading.collectibility == v
        && forall j | States(items, j, key) ::
             if j < i then Rank(items[j].reading.collectibility) < Rank(v)
             else Rank(items[j].reading.collectibility) <= Rank(v);
      assert States(more, i, key) && more[i] == items[i];
    }
  }

  lemma ShownAdd(v: Option<Scalar>, items: seq<Item>, item: Item, key: string)
    requires IsShown(v, items, key) && item.info.key == key
    ensures var r := item.reading.collectibility;
      IsShown(if v.None? || Rank(r) > Rank(v) then r else v, items + [item], key)
  {
    assert Rank(None) == 0;
    hide Rank;
    var more, r := items + [item], item.reading.collectibility;
    assert more[|items|] == item;
    assert forall j :: States(more, j, key) <==> States(items, j, key) || (j == |items| && r.Some?);
    if v.None? || Rank(r) > Rank(v) {
      if r.Some? {
        assert States(more, |items|, key);
      }
    } else {
      var i :| States(items, i, key) && items[i].reading.collectibility == v
        && forall j | States(items, j, key) ::
             if j < i then Rank(items[j].reading.collectibility) < Rank(v)
             else Rank(items[j].reading.collectibility) <= Rank(v);
      assert States(more, i, key) && more[i] == items[i];
    }
  }

  lemma ReportedAdd(x: Decimal, column: Reading -> Decimal, items: seq<Item>, item: Item, key: string)
    requires IsReported(Real(x), column, items, key)
    ensures item.info.key == key ==> IsReported(Real(Max(x, column(item.reading))), column, items + [item], key)
    ensures item.info.key != key ==> IsReported(Real(x), column, items + [item], key)
  {
    hide Real, Max;
    RealArithmetic(x, column(item.reading));
    var more := items + [item];
    assert more[|items|] == item;
    if Real(x) != 0.0 {
      var e :| IsEntryOf(e, items, key) && Real(column(e.reading)) == Real(x);
      assert IsEntryOf(e, more, key);
    }
    if item.info.key == key {
      assert IsEntryOf(item, more, key);
    }
  }

  lemma DescribesElsewhere(g: Merged, items: seq<Item>, item: Item)
    requires Describes(g, items) && g.info.key != item.info.key
    ensures Describes(g, items + [item])
  {
    ReportedAdd(g.reportedReporters, ReporterColumn, items, item, g.info.key);
    ReportedAdd(g.reportedFacilities, FacilityColumn, items, item, g.info.key);
    ShownElsewhere(g.collectibility, items, item, g.info.key);
    hide IsReported, IsShown, Real, Rank;
  }

  lemma NamesAdd(items: seq<Item>, item: Item)
    ensures var key := item.info.key;
      && Reporters(items + [item], key)
         == Reporters(items, key) + (if item.reading.reporter != "" then {Upper(item.reading.reporter)} else {})
      && Accounts(items + [item], key)
         == Accounts(items, key) + (if item.reading.account != "" then {Upper(item.reading.account)} else {})
  {
    hide Upper;
    assert (items + [item])[|items|] == item;
  }

  lemma DescribesMerged(g: Merged, items: seq<Item>, item: Item)
    requires Describes(g, items) && g.info.key == item.info.key
    ensures Describes(Merge(g, item.reading), items + [item])
  {
    var key, g' := g.info.key, Merge(g, item.reading);
    ReportedAdd(g.reportedReporters, ReporterColumn, items, item, key);
    ReportedAdd(g.reportedFacilities, FacilityColumn, items, item, key);
    NamesAdd(items, item);
    ShownAdd(g.collectibility, items, item, key);
    hide IsReported, IsShown, Real, Reporters, Accounts, Upper, Rank, Add, Max;
  }

  lemma DescribesNone(item: Item, items: seq<Item>)
    requires forall e | e in items :: e.info.key != item.info.key
    ensures Describes(Fresh(item), items)
  {
    SmallReals();
    assert Rank(None) == 0;
    hide Real, Rank;
  }

  lemma {:induction false} UpsertDescribes(groups: seq<Merged>, item: Item, items: seq<Item>)
    requires DistinctKeys(groups) && forall g | g in groups :: Describes(g, items)
    requires item.info.key in Keys(groups) || forall e | e in items :: e.info.key != item.info.key
    ensures forall g | g in Upsert(groups, item) :: Describes(g, items + [item])
  {
    hide Describes, Merge, Fresh;
    if groups == [] {
      DescribesNone(item, items);
      assert Fresh(item).info == item.info by { FreshInfo(item); }
      DescribesMerged(Fresh(item), items, item);
    } else {
      var g, rest := groups[0], groups[1..];
      assert groups == [g] + rest;
      KeysOfCons(g, rest);
      if g.info.key == item.info.key {
        DescribesMerged(g, items, item);
        forall h | h in rest
          ensures Describes(h, items + [item])
        {
          DescribesElsewhere(h, items, item);
        }
      } else {
        DescribesElsewhere(g, items, item);
        UpsertDescribes(rest, item, items);
      }
    }
  }

  lemma FreshInfo(item: Item)
    ensures Fresh(item).info == item.info
  {
  }

  lemma {:induction false} CollectKeys(items: seq<Item>)
    ensures forall item | item in items :: item.info.key in Keys(Collect(items))
  {
    hide Upsert, Keys;
    if items != [] {
      var front, last := items[..|items| - 1], items[|items| - 1];
      CollectKeys(front);
      UpsertKeys(Collect(front), last);
      assert items == front + [last];
    }
  }

  /** Each merged group describes exactly the entries filed under its key. */
  lemma {:induction false} CollectDescribes(items: seq<Item>)
    ensures forall g | g in Collect(items) :: Describes(g, items)
  {
    hide Upsert, Describes, DistinctKeys, Keys;
    if items != [] {
      var front, last := items[..|items| - 1], items[|items| - 1];
      CollectDescribes(front);
      CollectDistinct(front);
      if last.info.key !in Keys(Collect(front)) {
        CollectKeys(front);
      }
      UpsertDescribes(Collect(front), last, front);
      assert items == front + [last];
    }
  }

  // ---------------------------------------------------------------------------- what is read from an entry

  lemma TruthyMeans(v: Scalar)
    ensures IsTruthy(v) <==> v != Null && v != Text("") && v != Flag(false) && !(v.Number? && Real(v.d) == 0.0)
  {
    if v.Number? {
      SmallReals();
      RealArithmetic(v.d, ZERO);
      RealArithmetic(ZERO, v.d);
      ZeroIsZero(v.d.mantissa, v.d.scale);
    }
  }

  lemma {:induction false} ZeroIsZero(m: int, k: nat)
    ensures Shift(m, 0) == m && Shift(0, k) == 0
  {
    if k > 0 {
      ZeroIsZero(m, k - 1);
    }
  }

  /** An entry counts exactly when it states a collectibility or days past due. */
  lemma MeaningfulMeans(entry: Record)
    ensures exists level, days |
              IsTextOf(entry, ["collectibility_code", "collectibility", "kol"], level)
              && IsTextOf(entry, ["days_past_due", "dpd", "jumlah_hari_tunggakan"], days) ::
              IsMeaningful(entry) <==> level != "" || days != ""
  {
    TextIsRead(entry, ["collectibility_code", "collectibility", "kol"]);
    TextIsRead(entry, ["days_past_due", "dpd", "jumlah_hari_tunggakan"]);
    hide NormalizeText, RecordValue, IsTextOf;
  }

  /** The columns of an entry, each from the first of its fields that holds a value; a month counts once at least. */
  lemma ReadMeans(entry: Record)
    ensures exists v | IsFirstOf(entry, ["collectibility_code", "collectibility", "kol"], v) ::
              Read(entry).collectibility == if v.Some? && IsTruthy(v.value) then v else None
    ensures IsAmount(entry, ["days_past_due", "dpd", "jumlah_hari_tunggakan"], Real(Read(entry).dpd))
    ensures exists n | IsAmount(entry, ["source_count"], n) ::
              Real(Read(entry).sourceCount) == if n < 1.0 then 1.0 else n
    ensures IsAmount(entry, ["reporter_count"], Real(Read(entry).reporterCount))
    ensures IsAmount(entry, ["facility_count"], Real(Read(entry).facilityCount))
    ensures IsTextOf(entry, ["reporter_name", "reporter_code"], Read(entry).reporter)
    ensures IsTextOf(entry, ["account_number", "no_rekening"], Read(entry).account)
  {
    FirstIsRead(entry, ["collectibility_code", "collectibility", "kol"]);
    AmountIsRead(entry, ["days_past_due", "dpd", "jumlah_hari_tunggakan"]);
    AmountIsRead(entry, ["source_count"]);
    AmountIsRead(entry, ["reporter_count"]);
    AmountIsRead(entry, ["facility_count"]);
    TextIsRead(entry, ["reporter_name", "reporter_code"]);
    TextIsRead(entry, ["account_number", "no_rekening"]);
    RealArithmetic(ONE, NumberOr(RecordValue(entry, ["source_count"]), ZERO));
    SmallReals();
    hide NormalizeText, RecordValue, NumberOr, IsTextOf, IsAmount, IsFirstOf, IsTruthy, Real, Max, MonthIndex;
  }

  /** At least two places, with a zero before a single one. */
  ghost predicate IsPadded(s: string, padded: string) {
    if |s| < 2 then padded == "0" + s else padded == s
  }

  /**
    The key of an entry: its period's text, or without one its month index, or without both the number of its place in
    the list, the last two with two places at least; the rows are in the order of what follows the colon.
   */
  lemma PeriodKeyMeans(entry: Record, index: nat)
    ensures exists period, month |
              IsTextOf(entry, ["period_month", "period", "month_label", "label"], period)
              && IsFirstOf(entry, ["month_index", "monthIndex"], month) ::
              IsKeyFor(HistoryPeriodKey(entry, index), period, ParseScalar(month), index)
  {
    TextIsRead(entry, ["period_month", "period", "month_label", "label"]);
    FirstIsRead(entry, ["month_index", "monthIndex"]);
    var period := NormalizeText(RecordValue(entry, ["period_month", "period", "month_label", "label"]));
    var month := RecordValue(entry, ["month_index", "monthIndex"]);
    hide NormalizeText, RecordValue, IsTextOf, IsFirstOf, ParseScalar, ShowDecimal, Dec;
    assert IsKeyFor(HistoryPeriodKey(entry, index), period, ParseScalar(month), index);
  }

  ghost predicate IsKeyFor(info: PeriodInfo, period: string, month: Option<Decimal>, index: nat) {
    if period != "" then info == PeriodInfo("PERIOD:" + period, Some(period), period)
    else if month.Some? then
      IsPadded(ShowDecimal(month.value), info.order) && info.key == "INDEX:" + info.order && info.period == None
    else IsPadded(Dec(index + 1), info.order) && info.key == "ROW:" + info.order && info.period == None
  }

  /** The text a row is ordered by: its period, or without one its month index with two places at least. */
  ghost predicate IsOrderedBy(row: Row, order: string) {
    match row.period
    case Some(period) => order == period
    case None => row.monthIndex.Some? && IsPadded(ShowDecimal(row.monthIndex.value), order)
  }

  /** Rows that carry a period or a month index come in the order of it, where all entries carry one. */
  lemma RowsAreOrdered(history: seq<Record>, textLe: (string, string) -> bool, i: nat, j: nat)
    requires TotalPreorder(textLe)
    requires forall entry | entry in history && IsMeaningful(entry) :: CarriesPeriod(entry)
    requires i < j < |Aggregate(history, textLe)|
    ensures exists a, b |
              IsOrderedBy(Aggregate(history, textLe)[i], a) && IsOrderedBy(Aggregate(history, textLe)[j], b) ::
              textLe(a, b)
  {
    hide Items, Collect, Sort, IsCounting, Rows, CarriesPeriod, IsMeaningful, ShowDecimal, Trim;
    var collected := Collect(Items(history, 0));
    var groups := Sort(collected, OrderOf(textLe));
    SortedIsSound(history, textLe, true);
    OrderIsTotal(textLe);
    SortSorts(collected, OrderOf(textLe));
    RowsAt(groups);
    var a, b := groups[i], groups[j];
    assert a in groups && b in groups;
    assert OrderOf(textLe)(a, b);
    assert IsOrderedBy(ToRow(a), a.info.order) && IsOrderedBy(ToRow(b), b.info.order);
  }

  /** A merged row says the same under each of the names a column has. */
  lemma RowSaysTheSame(row: Row)
    requires IsNullOrTruthy(row.collectibility)
    ensures forall name | name in {"collectibility", "collectibility_code", "kol"} ::
      RecordValue(RowRecord(row), [name]) == row.collectibility
    ensures forall name | name in {"days_past_due", "dpd"} ::
      RecordValue(RowRecord(row), [name]) == Some(Number(row.dpd))
  {
    forall name | name in RowRecord(row)
      ensures RecordValue(RowRecord(row), [name])
           == if IsPresent(RowRecord(row)[name]) then Some(RowRecord(row)[name]) else None
    {
      assert [name][1..] == [];
    }
  }
}
