/**
  The records of an iDeb report and what the report reads from them (src/utils/ideb-report.js:1-199, 465-473, 569-611).
  A record is a loosely typed object; its numbers are exact decimals.
 */
module IdebRecord {
  import opened Options
  import opened Texts
  import opened IdebNumber

  datatype Scalar = Null | Text(s: string) | Number(d: Decimal) | Flag(b: bool)

  type Record = map<string, Scalar>

  /** A facility with its nested arrays: the monthly history, and how many collaterals. */
  datatype Facility = Facility(record: Record, history: seq<Record>, collaterals: nat)

  /** A missing value, null and the empty string count as absent. */
  predicate IsPresent(v: Scalar) {
    v != Null && v != Text("")
  }

  function RecordValue(record: Record, keys: seq<string>): (v: Option<Scalar>)
    ensures v.Some? ==> IsPresent(v.value)
  {
    if keys == [] then None
    else if keys[0] in record && IsPresent(record[keys[0]]) then Some(record[keys[0]])
    else RecordValue(record, keys[1..])
  }

  predicate HasValue(record: Record, key: string) {
    key in record && IsPresent(record[key])
  }

  /** The value read is that of the first key that has one. */
  lemma {:induction false} RecordValueIsTheFirst(record: Record, keys: seq<string>)
    ensures match RecordValue(record, keys)
      case Some(v) => exists i ::
        && 0 <= i < |keys| && HasValue(record, keys[i]) && v == record[keys[i]]
        && forall j | 0 <= j < i :: !HasValue(record, keys[j])
      case None => forall i | 0 <= i < |keys| :: !HasValue(record, keys[i])
  {
    hide IsPresent;
    if keys != [] && !HasValue(record, keys[0]) {
      RecordValueIsTheFirst(record, keys[1..]);
      if RecordValue(record, keys).Some? {
        var i :| 0 <= i < |keys[1..]| && HasValue(record, keys[1..][i])
          && RecordValue(record, keys).value == record[keys[1..][i]]
          && forall j | 0 <= j < i :: !HasValue(record, keys[1..][j]);
        assert forall j | 0 < j <= i :: keys[j] == keys[1..][j - 1];
        assert keys[i + 1] == keys[1..][i];
      } else {
        assert forall j | 0 < j < |keys| :: keys[j] == keys[1..][j - 1];
      }
    }
  }

  // ------------------------------------------------------------------------------------- arithmetic

  const ZERO := Decimal(0, 0)
  const ONE := Decimal(1, 0)

  function Add(a: Decimal, b: Decimal): Decimal {
    Decimal(Shift(a.mantissa, b.scale) + Shift(b.mantissa, a.scale), a.scale + b.scale)
  }

  predicate Less(a: Decimal, b: Decimal) {
    Shift(a.mantissa, b.scale) < Shift(b.mantissa, a.scale)
  }

  function Max(a: Decimal, b: Decimal): Decimal {
    if Less(a, b) then b else a
  }

  function ShiftDown(x: real, k: nat): real {
    if k == 0 then x else ShiftDown(x, k - 1) / 10.0
  }

  /** The value of a decimal. */
  function Real(d: Decimal): real {
    ShiftDown(d.mantissa as real, d.scale)
  }

  lemma {:induction false} ShiftCancels(m: int, j: nat, k: nat)
    ensures ShiftDown(Shift(m, j) as real, j + k) == ShiftDown(m as real, k)
  {
    if j > 0 {
      ShiftCancels(m, j - 1, k);
      ShiftTen(Shift(m, j - 1) as real, j - 1 + k);
      assert Shift(m, j) as real == 10.0 * (Shift(m, j - 1) as real);
    }
  }

  lemma {:induction false} ShiftTen(x: real, k: nat)
    ensures ShiftDown(10.0 * x, k + 1) == ShiftDown(x, k)
  {
    if k > 0 {
      ShiftTen(x, k - 1);
    }
  }

  lemma {:induction false} ShiftLinear(x: real, y: real, k: nat)
    ensures ShiftDown(x + y, k) == ShiftDown(x, k) + ShiftDown(y, k)
    ensures x < y <==> ShiftDown(x, k) < ShiftDown(y, k)
  {
    if k > 0 {
      ShiftLinear(x, y, k - 1);
    }
  }

  /** Exact addition, comparison and maximum agree with those of the values. */
  lemma RealArithmetic(a: Decimal, b: Decimal)
    ensures Real(Add(a, b)) == Real(a) + Real(b)
    ensures Less(a, b) <==> Real(a) < Real(b)
    ensures Real(Max(a, b)) == (if Real(a) < Real(b) then Real(b) else Real(a))
  {
    var x, y := Shift(a.mantissa, b.scale), Shift(b.mantissa, a.scale);
    ShiftCancels(a.mantissa, b.scale, a.scale);
    ShiftCancels(b.mantissa, a.scale, b.scale);
    ShiftLinear(x as real, y as real, a.scale + b.scale);
    assert (x + y) as real == x as real + y as real;
  }

  // ------------------------------------------------------------------------------------------- text

  function WholePart(m: nat, k: nat): nat {
    if k == 0 then m else WholePart(m / 10, k - 1)
  }

  function Places(m: nat, k: nat): (s: string)
    ensures AllDigits(s) && |s| == k
  {
    if k == 0 then "" else Places(m / 10, k - 1) + [DigitChar(m % 10)]
  }

  /** A decimal's text without trailing zeros, as `String` prints a number below 1e21. */
  function ShowMagnitude(m: nat, k: nat): (s: string)
    ensures s != "" && forall i | 0 <= i < |s| :: IsDigit(s[i]) || s[i] == '.'
    decreases k
  {
    if k == 0 then Dec(m)
    else if m % 10 == 0 then ShowMagnitude(m / 10, k - 1)
    else Dec(WholePart(m, k)) + "." + Places(m, k)
  }

  function ShowDecimal(d: Decimal): (s: string)
    ensures s != "" && forall i | 0 <= i < |s| :: IsDigit(s[i]) || s[i] == '.' || s[i] == '-'
  {
    if d.mantissa < 0 then "-" + ShowMagnitude(-d.mantissa, d.scale) else ShowMagnitude(d.mantissa, d.scale)
  }

  function NormalizeText(v: Option<Scalar>): string {
    match v
    case None => ""
    case Some(Null) => ""
    case Some(Text(s)) => Trim(s)
    case Some(Number(d)) => ShowDecimal(d)
    case Some(Flag(b)) => if b then "true" else "false"
  }

  function ParseScalar(v: Option<Scalar>): Option<Decimal> {
    match v
    case Some(Text(s)) => ParseNumber(s)
    case Some(Number(d)) => Some(d)
    case _ => None
  }

  function NumberOr(v: Option<Scalar>, fallback: Decimal): Decimal {
    match ParseScalar(v)
    case Some(d) => d
    case None => fallback
  }

  /** Upper case of the Latin letters; other characters are left as they are. */
  function Upper(s: string): (r: string)
    ensures |r| == |s|
    ensures forall i | 0 <= i < |s| :: s[i] == ':' <==> r[i] == ':'
  {
    if s == "" then ""
    else [if 'a' <= s[0] <= 'z' then (s[0] as int - 32) as char else s[0]] + Upper(s[1..])
  }

  predicate OccursAt(s: string, t: string, i: int) {
    0 <= i <= |s| - |t| && s[i..i + |t|] == t
  }

  predicate Contains(s: string, t: string) {
    exists i | 0 <= i <= |s| :: OccursAt(s, t, i)
  }

  /** Only the letters A-Z and the digits. */
  function Letters(s: string): string {
    if s == "" then ""
    else (if 'A' <= s[0] <= 'Z' || IsDigit(s[0]) then [s[0]] else "") + Letters(s[1..])
  }

  // ------------------------------------------------------------------------------------- facilities

  function FacilityPlafond(f: Facility): real {
    Real(NumberOr(RecordValue(f.record, ["plafond", "initial_plafond", "plafon", "plafon_awal"]), ZERO))
  }

  function FacilityOutstanding(f: Facility): real {
    Real(NumberOr(RecordValue(f.record, ["outstanding", "baki_debet", "outstanding_pokok"]), ZERO))
  }

  function FacilityArrears(f: Facility): real {
    Real(NumberOr(RecordValue(f.record, ["principal_arrears", "tunggakan_pokok"]), ZERO))
    + Real(NumberOr(RecordValue(f.record, ["interest_arrears", "tunggakan_bunga"]), ZERO))
    + Real(NumberOr(RecordValue(f.record, ["penalty", "denda"]), ZERO))
  }

  function FacilityCollectibility(f: Facility): Option<Scalar> {
    RecordValue(f.record, ["collectibility", "collectibility_code", "kol"])
  }

  function FacilityDaysPastDue(f: Facility): Option<Decimal> {
    ParseScalar(RecordValue(f.record, ["days_past_due", "dpd", "jumlah_hari_tunggakan"]))
  }

  /** A digit 1 to 5 with no other digit next to it. */
  predicate StandsAlone(s: string, i: nat)
    requires i < |s|
  {
    '1' <= s[i] <= '5' && (i == 0 || !IsDigit(s[i - 1])) && (i + 1 == |s| || !IsDigit(s[i + 1]))
  }

  function LevelFrom(s: string, i: nat): (level: Option<nat>)
    ensures level.Some? ==> 1 <= level.value <= 5
    decreases |s| - i
  {
    if i >= |s| then None else if StandsAlone(s, i) then Some(DigitValue(s[i])) else LevelFrom(s, i + 1)
  }

  lemma {:induction false} LevelIsTheFirst(s: string, i: nat)
    ensures match LevelFrom(s, i)
      case Some(level) => exists k ::
        i <= k < |s| && StandsAlone(s, k) && level == DigitValue(s[k]) && forall j | i <= j < k :: !StandsAlone(s, j)
      case None => forall k | i <= k < |s| :: !StandsAlone(s, k)
    decreases |s| - i
  {
    if i < |s| && !StandsAlone(s, i) {
      LevelIsTheFirst(s, i + 1);
    }
  }

  /** One of the digits 1 to 5 with no digit on either side. */
  ghost predicate IsLoneDigit(t: string, k: int) {
    && 0 <= k < |t| && t[k] in "12345"
    && (k > 0 ==> t[k - 1] !in DIGITS) && (k + 1 < |t| ==> t[k + 1] !in DIGITS)
  }

  lemma LevelDigit(c: char)
    ensures '1' <= c <= '5' <==> c in "12345"
  {
    if '1' <= c <= '5' {
      assert "12345"[c as int - '1' as int] == c;
    }
  }

  lemma LoneDigitMeans(t: string, k: nat)
    requires k < |t|
    ensures StandsAlone(t, k) <==> IsLoneDigit(t, k)
  {
    LevelDigit(t[k]);
    if k > 0 {
      DigitMeans(t[k - 1]);
    }
    if k + 1 < |t| {
      DigitMeans(t[k + 1]);
    }
    hide IsDigit;
  }

  /** A value states a level when some digit 1 to 5 in its text stands alone: the first such digit. */
  lemma CollectibilityLevelIs(v: Option<Scalar>)
    ensures var t := NormalizeText(v);
      match CollectibilityLevel(v)
      case Some(level) => exists k ::
        IsLoneDigit(t, k) && Dec(level) == [t[k]] && forall j | 0 <= j < k :: !IsLoneDigit(t, j)
      case None => forall k :: !IsLoneDigit(t, k)
  {
    var t := NormalizeText(v);
    hide NormalizeText;
    LevelIsTheFirst(t, 0);
    forall k | 0 <= k < |t|
      ensures StandsAlone(t, k) <==> IsLoneDigit(t, k)
    {
      LoneDigitMeans(t, k);
    }
    hide StandsAlone;
    var level := CollectibilityLevel(v);
    if level.Some? {
      assert forall k | 0 <= k < |t| && IsDigit(t[k]) && level.value == DigitValue(t[k]) :: [t[k]] == Dec(level.value);
    }
  }

  function CollectibilityLevel(v: Option<Scalar>): (level: Option<nat>)
    ensures level.Some? ==> 1 <= level.value <= 5
  {
    LevelFrom(NormalizeText(v), 0)
  }

  function FacilityCondition(f: Facility): string {
    NormalizeText(RecordValue(f.record, ["condition", "condition_code", "status"]))
  }

  /** Two leading digits not followed by a third. */
  function LeadingCode(s: string): string {
    if |s| >= 2 && IsDigit(s[0]) && IsDigit(s[1]) && (|s| == 2 || !IsDigit(s[2])) then s[..2] else ""
  }

  function FacilityConditionCode(f: Facility): string {
    var explicitCode := NormalizeText(RecordValue(f.record, ["condition_code", "kode_kondisi"]));
    if |explicitCode| == 1 && IsDigit(explicitCode[0]) then "0" + explicitCode
    else if LeadingCode(explicitCode) != "" then LeadingCode(explicitCode)
    else LeadingCode(FacilityCondition(f))
  }

  predicate IsPaidOff(f: Facility) {
    FacilityConditionCode(f) in {"02", "05", "06", "12", "17"} || Contains(Upper(FacilityCondition(f)), "LUNAS")
  }

  predicate IsWriteOff(f: Facility) {
    var compact := Letters(Upper(FacilityCondition(f)));
    || FacilityConditionCode(f) in {"03", "04"}
    || Contains(compact, "HAPUSBUKU") || Contains(compact, "DIHAPUSBUKUKAN") || Contains(compact, "HAPUSTAGIH")
  }

  datatype Class = Active | PaidOff | WriteOff | Inactive

  function Classify(f: Facility): Class {
    if IsWriteOff(f) then WriteOff
    else if IsPaidOff(f) then PaidOff
    else if FacilityConditionCode(f) != "" then if FacilityConditionCode(f) == "00" then Active else Inactive
    else
      var compact := Letters(Upper(FacilityCondition(f)));
      if compact == "AKTIF" || compact == "ACTIVE" || Contains(compact, "FASILITASAKTIF") then Active else Inactive
  }

  function FacilityReporterName(record: Record): string {
    NormalizeText(RecordValue(record, ["reporter_name", "reporter_code", "ljk"]))
  }

  function FacilityAccountNumber(record: Record): string {
    NormalizeText(RecordValue(record, ["account_number", "facility_number", "no_rekening"]))
  }

  // ---------------------------------------------------------------------------------- legal disputes

  predicate IsWordChar(c: char) {
    'A' <= c <= 'Z' || 'a' <= c <= 'z' || IsDigit(c) || c == '_'
  }

  /** The text `t` at position `i` as whole words. */
  predicate WordAt(s: string, t: string, i: int) {
    && OccursAt(s, t, i)
    && (i == 0 || !IsWordChar(s[i - 1])) && (i + |t| == |s| || !IsWordChar(s[i + |t|]))
  }

  predicate HasWord(s: string, t: string) {
    exists i | 0 <= i <= |s| :: WordAt(s, t, i)
  }

  predicate HasNotYet(s: string) {
    exists i, j | 0 <= i < j <= |s| ::
      && WordAt(s, "BELUM", i) && i + 5 < j && WordAt(s, "ADA", j)
      && forall k | i + 5 <= k < j :: IsSpace(s[k])
  }

  predicate IsNegated(s: string) {
    HasWord(s, "TIDAK") || HasWord(s, "BUKAN") || HasWord(s, "TANPA") || HasWord(s, "BEBAS") || HasNotYet(s)
  }

  /** The word `u` at `j`, at most twenty characters of the same line after the word `t` at `i`. */
  predicate FollowedBy(s: string, t: string, u: string, i: int, j: int) {
    && WordAt(s, t, i) && WordAt(s, u, j) && i + |t| <= j <= i + |t| + 20
    && forall k | i + |t| <= k < j :: s[k] !in {'\n', '\r', '\U{2028}', '\U{2029}'}
  }

  predicate HasRunning(s: string, t: string, u: string) {
    exists i, j | 0 <= i < j <= |s| :: FollowedBy(s, t, u, i, j)
  }

  predicate HasRunningDispute(s: string) {
    || HasRunning(s, "SENGKETA", "AKTIF") || HasRunning(s, "SENGKETA", "BERJALAN")
       || HasRunning(s, "SENGKETA", "PROSES")
    || HasRunning(s, "LITIGASI", "AKTIF") || HasRunning(s, "LITIGASI", "BERJALAN")
       || HasRunning(s, "LITIGASI", "PROSES")
  }

  /** What the code looks for in a text. */
  predicate IsSearchedText(s: string) {
    || s in {"YA", "YES", "TRUE", "AKTIF", "ACTIVE", "SEDANG PROSES", "SENGKETA", "LITIGASI", "PROSES HUKUM",
             "PERKARA HUKUM"}
    || HasWord(s, "PROSES HUKUM") || HasWord(s, "PERKARA HUKUM") || HasWord(s, "DALAM SENGKETA")
    || HasWord(s, "SEDANG BERSENGKETA") || HasWord(s, "ADA SENGKETA") || HasWord(s, "SENGKETA AKTIF")
    || HasWord(s, "LITIGASI AKTIF") || HasRunningDispute(s)
  }

  predicate IsPositiveLegalValue(v: Scalar) {
    var s := Upper(NormalizeText(Some(v)));
    || v == Flag(true)
    || (v.Number? && SameValue(v.d, ONE))
    || (s != "" && !IsNegated(s) && IsSearchedText(s))
  }

  const LEGAL_FIELDS: set<string> := {
    "is_in_legal_process", "isInLegalProcess", "is_disputed", "isDisputed", "legal_status", "legalStatus",
    "legal_process_status", "legalProcessStatus", "dispute_status", "disputeStatus",
    "condition", "problem_reason", "description"}

  predicate HasLegalDispute(f: Facility) {
    exists key | key in LEGAL_FIELDS :: key in f.record && IsPositiveLegalValue(f.record[key])
  }

  // ------------------------------------------------------------- what write-off and dispute come down to

  lemma OccursTogether(s: string, t: string, a: string, u: string, b: string, i: int)
    requires t == a + u + b && OccursAt(s, t, i)
    ensures OccursAt(s, u, i + |a|)
  {
    var at := s[i..i + |t|];
    assert forall k | 0 <= k < |t| :: s[i + k] == at[k];
    assert forall k | 0 <= k < |u| :: t[|a| + k] == u[k];
    assert s[i + |a|..i + |a| + |u|] == u;
  }

  /** Of the three spellings of a write-off one holds another. */
  lemma WrittenOffHoldsItself(s: string)
    requires Contains(s, "DIHAPUSBUKUKAN")
    ensures Contains(s, "HAPUSBUKU")
  {
    var i :| 0 <= i <= |s| && OccursAt(s, "DIHAPUSBUKUKAN", i);
    OccursTogether(s, "DIHAPUSBUKUKAN", "DI", "HAPUSBUKU", "KAN", i);
    assert OccursAt(s, "HAPUSBUKU", i + 2);
  }

  /** Condition code 03 or 04, or a condition that names a write-off in whatever case and punctuation. */
  ghost predicate SaysWrittenOff(f: Facility) {
    var condition := Letters(Upper(FacilityCondition(f)));
    || FacilityConditionCode(f) == "03" || FacilityConditionCode(f) == "04"
    || Contains(condition, "HAPUSBUKU") || Contains(condition, "HAPUSTAGIH")
  }

  /** A facility is written off by its condition code, or by its condition in whatever case and punctuation. */
  lemma WriteOffMeans(f: Facility)
    ensures IsWriteOff(f) <==> SaysWrittenOff(f)
  {
    hide FacilityCondition, FacilityConditionCode, Letters, Upper, Contains;
    if Contains(Letters(Upper(FacilityCondition(f))), "DIHAPUSBUKUKAN") {
      WrittenOffHoldsItself(Letters(Upper(FacilityCondition(f))));
    }
  }

  /** A running dispute is the two words apart, so also the two words side by side. */
  lemma SideBySideIsRunning(s: string, t: string, u: string)
    requires t != "" && u != "" && HasWord(s, t + " " + u)
    ensures HasRunning(s, t, u)
  {
    hide HasWord, HasRunning, IsPartOfWord;
    WordMeans(s, t + " " + u);
    var before: string, after: string :| s == before + (t + " " + u) + after && StandsBetween(before, after);
    SpaceIsNoWord();
    assert (" " + u + after)[0] == ' ' && (before + t + " ")[|before + t|] == ' ';
    assert before + (t + " " + u) + after == before + t + " " + u + after;
    assert HasPair(s, t, " ", u);
    hide HasPair;
    RunningWordsMean(s, t, u);
  }

  lemma SpaceIsNoWord()
    ensures !IsPartOfWord(' ')
  {
    WordCharMeans(' ');
  }

  lemma WholeIsWord(s: string)
    requires s != ""
    ensures HasWord(s, s)
  {
    assert s[0..|s|] == s;
    assert WordAt(s, s, 0);
  }

  /** The words that make a value of a legal field positive: alone, within a text, or one shortly after the other. */
  ghost predicate SpeaksOfDispute(s: string) {
    || s in {"YA", "YES", "TRUE", "AKTIF", "ACTIVE", "SEDANG PROSES", "SENGKETA", "LITIGASI"}
    || HasWord(s, "PROSES HUKUM") || HasWord(s, "PERKARA HUKUM") || HasWord(s, "DALAM SENGKETA")
    || HasWord(s, "SEDANG BERSENGKETA") || HasWord(s, "ADA SENGKETA")
    || (exists t, u | t in {"SENGKETA", "LITIGASI"} && u in {"AKTIF", "BERJALAN", "PROSES"} :: HasRunning(s, t, u))
  }

  lemma OneIsOne(d: Decimal)
    ensures SameValue(d, ONE) <==> Real(d) == 1.0
  {
    RealArithmetic(d, ONE);
    RealArithmetic(ONE, d);
    assert Real(ONE) == 1.0;
  }

  lemma NothingRuns()
    ensures !SpeaksOfDispute("")
  {
  }

  lemma RunningMeans(s: string)
    ensures HasRunningDispute(s) <==>
            exists t, u | t in {"SENGKETA", "LITIGASI"} && u in {"AKTIF", "BERJALAN", "PROSES"} :: HasRunning(s, t, u)
  {
    hide HasRunning;
  }

  lemma SearchedMeans(s: string)
    ensures IsSearchedText(s) <==> SpeaksOfDispute(s)
  {
    RunningMeans(s);
    hide HasRunningDispute, HasRunning;
    if HasWord(s, "SENGKETA AKTIF") {
      assert "SENGKETA" + " " + "AKTIF" == "SENGKETA AKTIF";
      SideBySideIsRunning(s, "SENGKETA", "AKTIF");
    }
    if HasWord(s, "LITIGASI AKTIF") {
      assert "LITIGASI" + " " + "AKTIF" == "LITIGASI AKTIF";
      SideBySideIsRunning(s, "LITIGASI", "AKTIF");
    }
    WholeIsWord("PROSES HUKUM");
    WholeIsWord("PERKARA HUKUM");
    hide HasWord;
  }

  /** The value is true, the number one, or a text that speaks of a running dispute and does not deny it. */
  ghost predicate MeansDispute(v: Scalar) {
    var text := Upper(NormalizeText(Some(v)));
    || v == Flag(true) || (v.Number? && Real(v.d) == 1.0)
    || (SpeaksOfDispute(text) && !IsNegated(text))
  }

  /** A value is positive when it is true, the number one, or a text that speaks of a dispute without a negation. */
  lemma PositiveMeans(v: Scalar)
    ensures IsPositiveLegalValue(v) <==> MeansDispute(v)
  {
    var s := Upper(NormalizeText(Some(v)));
    if v.Number? {
      OneIsOne(v.d);
    }
    NothingRuns();
    SearchedMeans(s);
    hide NormalizeText, Upper, IsNegated, SameValue, Real, HasRunningDispute, HasRunning, HasWord, SpeaksOfDispute;
  }

  // ------------------------------------------------------------- which fields are read, and what they say

  /** The keys' first present value stands at `keys[i]`. */
  ghost predicate IsFirstAt(record: Record, keys: seq<string>, i: nat) {
    i < |keys| && HasValue(record, keys[i]) && forall j | 0 <= j < i :: !HasValue(record, keys[j])
  }

  /** The number in the first present field: zero when it is unreadable or there is none. */
  ghost predicate IsAmount(record: Record, keys: seq<string>, x: real) {
    && (forall i: nat | IsFirstAt(record, keys, i) ::
          match ParseScalar(Some(record[keys[i]]))
          case Some(d) => x == Real(d)
          case None => x == 0.0)
    && ((forall i | 0 <= i < |keys| :: !HasValue(record, keys[i])) ==> x == 0.0)
  }

  ghost predicate IsFirstOf(record: Record, keys: seq<string>, v: Option<Scalar>) {
    && (forall i: nat | IsFirstAt(record, keys, i) :: v == Some(record[keys[i]]))
    && ((forall i | 0 <= i < |keys| :: !HasValue(record, keys[i])) ==> v == None)
  }

  lemma FirstIsRead(record: Record, keys: seq<string>)
    ensures IsFirstOf(record, keys, RecordValue(record, keys))
  {
    RecordValueIsTheFirst(record, keys);
    hide IsPresent, RecordValue;
    forall i: nat | IsFirstAt(record, keys, i)
      ensures RecordValue(record, keys) == Some(record[keys[i]])
    {
      var v := RecordValue(record, keys);
      if v.Some? {
        var k :| 0 <= k < |keys| && HasValue(record, keys[k]) && v.value == record[keys[k]]
          && forall j | 0 <= j < k :: !HasValue(record, keys[j]);
        assert i == k;
      }
    }
  }

  /** The text in the first of the fields that holds a value. */
  ghost predicate IsTextOf(record: Record, keys: seq<string>, t: string) {
    exists v | IsFirstOf(record, keys, v) :: t == NormalizeText(v)
  }

  lemma TextIsRead(record: Record, keys: seq<string>)
    ensures IsTextOf(record, keys, NormalizeText(RecordValue(record, keys)))
  {
    FirstIsRead(record, keys);
    hide NormalizeText, RecordValue, IsFirstOf;
  }

  lemma AmountIsRead(record: Record, keys: seq<string>)
    ensures IsAmount(record, keys, Real(NumberOr(RecordValue(record, keys), ZERO)))
  {
    FirstIsRead(record, keys);
    assert Real(ZERO) == 0.0;
    hide HasValue, RecordValue, Real;
  }

  /** What the amounts of a facility are read from: English field names before Indonesian ones, the newest first. */
  lemma AmountsAreRead(f: Facility)
    ensures IsAmount(f.record, ["plafond", "initial_plafond", "plafon", "plafon_awal"], FacilityPlafond(f))
    ensures IsAmount(f.record, ["outstanding", "baki_debet", "outstanding_pokok"], FacilityOutstanding(f))
    ensures exists principal, interest, penalty | FacilityArrears(f) == principal + interest + penalty ::
      && IsAmount(f.record, ["principal_arrears", "tunggakan_pokok"], principal)
      && IsAmount(f.record, ["interest_arrears", "tunggakan_bunga"], interest)
      && IsAmount(f.record, ["penalty", "denda"], penalty)
  {
    AmountIsRead(f.record, ["plafond", "initial_plafond", "plafon", "plafon_awal"]);
    AmountIsRead(f.record, ["outstanding", "baki_debet", "outstanding_pokok"]);
    AmountIsRead(f.record, ["principal_arrears", "tunggakan_pokok"]);
    AmountIsRead(f.record, ["interest_arrears", "tunggakan_bunga"]);
    AmountIsRead(f.record, ["penalty", "denda"]);
    hide IsAmount, RecordValue, NumberOr, Real;
  }

  /** What collectibility, days past due and condition are read from. */
  lemma StatesAreRead(f: Facility)
    ensures IsFirstOf(f.record, ["collectibility", "collectibility_code", "kol"], FacilityCollectibility(f))
    ensures exists v | IsFirstOf(f.record, ["days_past_due", "dpd", "jumlah_hari_tunggakan"], v) ::
      FacilityDaysPastDue(f) == ParseScalar(v)
    ensures IsTextOf(f.record, ["condition", "condition_code", "status"], FacilityCondition(f))
  {
    FirstIsRead(f.record, ["collectibility", "collectibility_code", "kol"]);
    FirstIsRead(f.record, ["days_past_due", "dpd", "jumlah_hari_tunggakan"]);
    TextIsRead(f.record, ["condition", "condition_code", "status"]);
    hide IsFirstOf, IsTextOf, RecordValue, ParseScalar, NormalizeText;
  }

  /** What names a reporter and an account. */
  lemma NamesAreRead(record: Record)
    ensures IsTextOf(record, ["reporter_name", "reporter_code", "ljk"], FacilityReporterName(record))
    ensures IsTextOf(record, ["account_number", "facility_number", "no_rekening"], FacilityAccountNumber(record))
  {
    TextIsRead(record, ["reporter_name", "reporter_code", "ljk"]);
    TextIsRead(record, ["account_number", "facility_number", "no_rekening"]);
    hide IsTextOf, RecordValue, NormalizeText;
  }

  /** The text begins with the two digits of the code, and no third follows. */
  ghost predicate BeginsWithCode(s: string, code: string) {
    |code| == 2 && AllDigits(code) && code <= s && (|s| == 2 || !IsDigit(s[2]))
  }

  lemma LeadingCodeIs(s: string)
    ensures LeadingCode(s) != "" ==> BeginsWithCode(s, LeadingCode(s))
    ensures forall code :: BeginsWithCode(s, code) ==> code == LeadingCode(s)
  {
    forall code | BeginsWithCode(s, code)
      ensures code == LeadingCode(s)
    {
      assert code == s[..2];
      assert IsDigit(code[0]) && IsDigit(code[1]) && code[0] == s[0] && code[1] == s[1];
    }
  }

  /**
    A code is the single digit that the code field holds, or the two digits it begins with, or else those the condition
    begins with.
   */
  lemma ConditionCodeIs(f: Facility, code: string)
    ensures FacilityConditionCode(f) != "" ==> |FacilityConditionCode(f)| == 2
    ensures code != "" ==>
      (FacilityConditionCode(f) == code <==>
        var field := NormalizeText(RecordValue(f.record, ["condition_code", "kode_kondisi"]));
        || (|field| == 1 && AllDigits(field) && code == "0" + field)
        || BeginsWithCode(field, code)
        || (!(|field| == 1 && AllDigits(field)) && (forall other :: !BeginsWithCode(field, other))
            && BeginsWithCode(FacilityCondition(f), code)))
  {
    var field := NormalizeText(RecordValue(f.record, ["condition_code", "kode_kondisi"]));
    LeadingCodeIs(field);
    LeadingCodeIs(FacilityCondition(f));
    hide NormalizeText, RecordValue, FacilityCondition, LeadingCode;
  }

  /** The four classes by codes and texts, a write-off before everything else. */
  lemma ClassMeans(f: Facility)
    ensures var code, condition := FacilityConditionCode(f), Upper(FacilityCondition(f));
      var letters := Letters(condition);
      var writtenOff := code == "03" || code == "04"
        || Contains(letters, "HAPUSBUKU") || Contains(letters, "HAPUSTAGIH");
      var paidOff := code == "02" || code == "05" || code == "06" || code == "12" || code == "17"
        || Contains(condition, "LUNAS");
      var active := if code != "" then code == "00"
        else letters == "AKTIF" || letters == "ACTIVE" || Contains(letters, "FASILITASAKTIF");
      && (Classify(f) == WriteOff <==> writtenOff)
      && (Classify(f) == PaidOff <==> !writtenOff && paidOff)
      && (Classify(f) == Active <==> !writtenOff && !paidOff && active)
  {
    WriteOffMeans(f);
    hide FacilityConditionCode, FacilityCondition, Letters, Upper, Contains, IsWriteOff;
  }

  // ----------------------------------------------------------------------- what the text operations do

  /** One text contains another when it is that text with something before and after. */
  lemma ContainsMeans(s: string, t: string)
    ensures Contains(s, t) <==> exists before: string, after: string :: s == before + t + after
  {
    if i :| 0 <= i <= |s| && OccursAt(s, t, i) {
      assert s == s[..i] + t + s[i + |t|..];
    }
    if before: string, after: string :| s == before + t + after {
      assert s[|before|..|before| + |t|] == t;
      assert OccursAt(s, t, |before|);
    }
  }

  lemma CapitalOf(c: char, k: nat)
    requires k < 26 && SMALL_LETTERS[k] == c
    ensures 'a' <= c <= 'z' && (c as int - 32) as char == CAPITALS[k]
  {
  }

  /** Each small letter becomes its capital, and every other character stays. */
  lemma {:induction false} UpperMeans(s: string, i: nat)
    requires i < |s|
    ensures forall k | 0 <= k < 26 && SMALL_LETTERS[k] == s[i] :: Upper(s)[i] == CAPITALS[k]
    ensures s[i] !in SMALL_LETTERS ==> Upper(s)[i] == s[i]
  {
    if i > 0 {
      UpperMeans(s[1..], i - 1);
    } else {
      SmallLetter(s[0]);
      forall k | 0 <= k < 26 && SMALL_LETTERS[k] == s[0]
        ensures Upper(s)[0] == CAPITALS[k]
      {
        CapitalOf(s[0], k);
      }
    }
  }

  /** Of a text the capitals and digits are kept, in their order. */
  lemma LettersAre(s: string, c: char)
    ensures Letters("") == ""
    ensures Letters(s + [c]) == Letters(s) + if c in CAPITALS || c in DIGITS then [c] else ""
  {
    LettersConcat(s, [c]);
    Capital(c);
    DigitMeans(c);
    hide CAPITALS, DIGITS;
    assert [c][1..] == "";
    assert Letters([c]) == (if 'A' <= c <= 'Z' || IsDigit(c) then [c] else "") + Letters("");
  }

  lemma {:induction false} LettersConcat(s: string, t: string)
    ensures Letters(s + t) == Letters(s) + Letters(t)
  {
    if s == "" {
      assert s + t == t;
    } else {
      assert (s + t)[1..] == s[1..] + t;
      LettersConcat(s[1..], t);
    }
  }

  lemma {:induction false} WholeAndPlaces(m: nat, k: nat)
    ensures Shift(WholePart(m, k), k) + NatValue(Places(m, k)) == m
  {
    if k > 0 {
      WholeAndPlaces(m / 10, k - 1);
      var front := Places(m / 10, k - 1);
      assert Places(m, k)[..k - 1] == front;
      assert NatValue(Places(m, k)) == 10 * NatValue(front) + m % 10;
    }
  }

  lemma WholeReads(m: nat)
    ensures ToNumber(false, Dec(m)) == Some(Decimal(m, 0))
  {
    LastIndexAbsent(Dec(m), '.');
    NatValueOfDec(m);
  }

  lemma FractionReads(m: nat, k: nat)
    requires k > 0
    ensures ToNumber(false, Dec(WholePart(m, k)) + "." + Places(m, k)) == Some(Decimal(m, k))
  {
    var whole, places := Dec(WholePart(m, k)), Places(m, k);
    ToNumberOfPoint(false, whole, places);
    NatValueOfConcat(whole, places);
    NatValueOfDec(WholePart(m, k));
    WholeAndPlaces(m, k);
    hide ToNumber, Dec, Places, WholePart, NatValue, Shift;
    assert whole + "." + places == whole + ['.'] + places;
  }

  lemma {:induction false} MagnitudeReads(m: nat, k: nat)
    ensures ToNumber(false, ShowMagnitude(m, k)).Some?
    ensures SameValue(ToNumber(false, ShowMagnitude(m, k)).value, Decimal(m, k))
    decreases k
  {
    hide ToNumber, Dec, Places, WholePart;
    if k == 0 {
      WholeReads(m);
    } else if m % 10 == 0 {
      MagnitudeReads(m / 10, k - 1);
      hide ShowMagnitude, SameValue;
      TenfoldIsSame(ToNumber(false, ShowMagnitude(m / 10, k - 1)).value, m / 10, k - 1);
      ShownTenfold(m, k);
    } else {
      FractionReads(m, k);
    }
  }

  lemma ShownTenfold(m: nat, k: nat)
    requires k > 0 && m % 10 == 0
    ensures ShowMagnitude(m, k) == ShowMagnitude(m / 10, k - 1)
  {
  }

  lemma TenfoldIsSame(a: Decimal, m: int, k: nat)
    requires SameValue(a, Decimal(m, k))
    ensures SameValue(a, Decimal(10 * m, k + 1))
  {
    ShiftTenfold(m, a.scale);
    assert Shift(a.mantissa, k + 1) == 10 * Shift(a.mantissa, k);
  }

  lemma {:induction false} ShiftTenfold(m: int, k: nat)
    ensures Shift(10 * m, k) == 10 * Shift(m, k)
  {
    if k > 0 {
      ShiftTenfold(m, k - 1);
    }
  }

  /** A printed number is the number: JavaScript reads its text as the same value, below zero with a minus before it. */
  lemma ShownReads(d: Decimal)
    ensures ToNumber(false, ShowMagnitude(if d.mantissa < 0 then -d.mantissa else d.mantissa, d.scale)).Some?
    ensures var text := ShowMagnitude(if d.mantissa < 0 then -d.mantissa else d.mantissa, d.scale);
      && ShowDecimal(d) == (if d.mantissa < 0 then "-" else "") + text
      && Real(ToNumber(false, text).value) == if d.mantissa < 0 then -Real(d) else Real(d)
  {
    var m: nat := if d.mantissa < 0 then -d.mantissa else d.mantissa;
    MagnitudeReads(m, d.scale);
    var r := ToNumber(false, ShowMagnitude(m, d.scale)).value;
    RealArithmetic(r, Decimal(m, d.scale));
    RealArithmetic(Decimal(m, d.scale), r);
    ShiftLinear(m as real, -(m as real), d.scale);
    ZeroStays(d.scale);
  }

  lemma {:induction false} ZeroStays(k: nat)
    ensures ShiftDown(0.0, k) == 0.0
  {
    if k > 0 {
      ZeroStays(k - 1);
    }
  }

  /** What the other scalars are as texts. */
  lemma PlainTexts()
    ensures NormalizeText(None) == "" && NormalizeText(Some(Null)) == ""
    ensures NormalizeText(Some(Flag(true))) == "true" && NormalizeText(Some(Flag(false))) == "false"
  {
  }

  // ------------------------------------------------------------------- words, by what stands around them

  /** A letter, digit or underscore, as `\b` has it. */
  ghost predicate IsPartOfWord(c: char) {
    c in SMALL_LETTERS || c in CAPITALS || c in DIGITS || c == '_'
  }

  lemma WordCharMeans(c: char)
    ensures IsWordChar(c) <==> IsPartOfWord(c)
  {
    SmallLetter(c);
    Capital(c);
    DigitMeans(c);
    hide SMALL_LETTERS, CAPITALS;
  }

  /** No word goes on from `before` or into `after`. */
  ghost predicate StandsBetween(before: string, after: string) {
    && (before == "" || !IsPartOfWord(before[|before| - 1]))
    && (after == "" || !IsPartOfWord(after[0]))
  }

  lemma WordAtMeans(s: string, before: string, t: string, after: string)
    requires s == before + t + after
    ensures WordAt(s, t, |before|) <==> StandsBetween(before, after)
  {
    if before != "" {
      WordCharMeans(before[|before| - 1]);
    }
    if after != "" {
      WordCharMeans(after[0]);
      assert s[|before| + |t|] == after[0];
    }
    hide IsWordChar, IsPartOfWord;
    assert s[|before|..|before| + |t|] == t;
  }

  /** A text has a word when it is that word with something around it that no word goes on from or into. */
  lemma WordMeans(s: string, t: string)
    ensures HasWord(s, t)
      <==> exists before: string, after: string :: s == before + t + after && StandsBetween(before, after)
  {
    if i :| 0 <= i <= |s| && WordAt(s, t, i) {
      assert s == s[..i] + t + s[i + |t|..];
      WordAtMeans(s, s[..i], t, s[i + |t|..]);
    }
    hide WordAt;
    if before: string, after: string :| s == before + t + after && StandsBetween(before, after) {
      WordAtMeans(s, before, t, after);
      assert WordAt(s, t, |before|);
    }
  }

  /** Two words with `gap` between them. */
  ghost predicate HasPair(s: string, t: string, gap: string, u: string) {
    exists before: string, after: string ::
      && s == before + t + gap + u + after
      && StandsBetween(before, gap + u + after) && StandsBetween(before + t + gap, after)
  }

  lemma Pieces(s: string, i: int, k: int, j: int, l: int)
    requires 0 <= i <= k <= j <= l <= |s|
    ensures s == s[..i] + s[i..k] + s[k..j] + s[j..l] + s[l..]
  {
  }

  lemma Regrouped(a: string, b: string, c: string, d: string, e: string)
    ensures a + b + c + d + e == a + b + (c + d + e)
  {
  }

  lemma PairAt(s: string, t: string, u: string, i: int, j: int)
    requires WordAt(s, t, i) && WordAt(s, u, j) && i + |t| <= j
    ensures HasPair(s, t, s[i + |t|..j], u)
  {
    var before, gap, after := s[..i], s[i + |t|..j], s[j + |u|..];
    assert s[i..i + |t|] == t && s[j..j + |u|] == u;
    hide WordAt, StandsBetween;
    Pieces(s, i, i + |t|, j, j + |u|);
    Regrouped(before, t, gap, u, after);
    assert |before + t + gap| == j;
    WordAtMeans(s, before, t, gap + u + after);
    WordAtMeans(s, before + t + gap, u, after);
  }

  lemma PairIs(s: string, t: string, gap: string, u: string) returns (i: nat, j: nat)
    requires HasPair(s, t, gap, u)
    ensures WordAt(s, t, i) && WordAt(s, u, j) && j == i + |t| + |gap| && s[i + |t|..j] == gap
  {
    hide WordAt, StandsBetween;
    var before: string, after: string :|
      && s == before + t + gap + u + after
      && StandsBetween(before, gap + u + after) && StandsBetween(before + t + gap, after);
    i, j := |before|, |before| + |t| + |gap|;
    Regrouped(before, t, gap, u, after);
    WordAtMeans(s, before, t, gap + u + after);
    WordAtMeans(s, before + t + gap, u, after);
    GapIs(before + t, gap, u + after);
    assert s == before + t + gap + (u + after);
  }

  lemma GapIs(a: string, gap: string, b: string)
    ensures (a + gap + b)[|a|..|a| + |gap|] == gap
  {
  }

  /** A text denies when it has one of four words, or BELUM and ADA with nothing but white space between them. */
  lemma NegationMeans(s: string)
    ensures IsNegated(s) <==>
            || HasWord(s, "TIDAK") || HasWord(s, "BUKAN") || HasWord(s, "TANPA") || HasWord(s, "BEBAS")
            || exists gap: string :: HasPair(s, "BELUM", gap, "ADA") && gap != "" && forall c | c in gap :: IsSpace(c)
  {
    hide WordAt, HasWord, HasPair, IsSpace;
    if HasNotYet(s) {
      var i, j :| 0 <= i < j <= |s| && WordAt(s, "BELUM", i) && i + 5 < j && WordAt(s, "ADA", j)
        && forall k | i + 5 <= k < j :: IsSpace(s[k]);
      PairAt(s, "BELUM", "ADA", i, j);
      var gap := s[i + 5..j];
      assert forall c | c in gap :: IsSpace(c);
    }
    if gap: string :| HasPair(s, "BELUM", gap, "ADA") && gap != "" && forall c | c in gap :: IsSpace(c) {
      var i, j := PairIs(s, "BELUM", gap, "ADA");
      WordIsInside(s, "ADA", j);
      assert forall k | i + 5 <= k < j :: s[k] == gap[k - i - 5] && gap[k - i - 5] in gap;
    }
  }

  lemma WordIsInside(s: string, t: string, i: int)
    requires WordAt(s, t, i)
    ensures 0 <= i <= |s| - |t|
  {
  }

  /** One word runs on to another when at most twenty characters of one line are between them. */
  lemma RunningWordsMean(s: string, t: string, u: string)
    requires t != "" && u != ""
    ensures HasRunning(s, t, u) <==> exists gap: string ::
              HasPair(s, t, gap, u) && |gap| <= 20 && forall c | c in gap :: c !in {'\n', '\r', '\U{2028}', '\U{2029}'}
  {
    hide WordAt, HasPair;
    if i, j :| 0 <= i < j <= |s| && FollowedBy(s, t, u, i, j) {
      PairAt(s, t, u, i, j);
    }
    if gap: string :| HasPair(s, t, gap, u) && |gap| <= 20
                      && forall c | c in gap :: c !in {'\n', '\r', '\U{2028}', '\U{2029}'} {
      var i, j := PairIs(s, t, gap, u);
      WordIsInside(s, u, j);
      assert forall k | i + |t| <= k < j :: s[k] == gap[k - i - |t|] && gap[k - i - |t|] in gap;
      assert FollowedBy(s, t, u, i, j);
    }
  }
}
