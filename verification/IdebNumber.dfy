/**
  The locale-tolerant number parser of the iDeb report (src/utils/ideb-report.js:40-85).
  Numbers are exact decimals, `mantissa / 10^scale`; `None` stands for the source's null.
 */
module IdebNumber {
  import opened Options
  import opened Texts

  datatype Decimal = Decimal(mantissa: int, scale: nat)

  predicate SameValue(a: Decimal, b: Decimal) {
    Shift(a.mantissa, b.scale) == Shift(b.mantissa, a.scale)
  }

  function Remove(s: string, c: char): string {
    if s == "" then "" else (if s[0] == c then "" else [s[0]]) + Remove(s[1..], c)
  }

  function LastIndexOf(s: string, c: char): (i: int)
    ensures -1 <= i < |s| && (i >= 0 ==> s[i] == c)
  {
    if s == "" then -1 else if s[|s| - 1] == c then |s| - 1 else LastIndexOf(s[..|s| - 1], c)
  }

  function Split(s: string, c: char): (parts: seq<string>)
    ensures |parts| > 0
    decreases |s|
  {
    var i := LastIndexOf(s, c);
    if i < 0 then [s] else Split(s[..i], c) + [s[i + 1..]]
  }

  /** The text wrapped in parentheses, on one line. */
  predicate InParentheses(s: string) {
    && |s| >= 2 && s[0] == '(' && s[|s| - 1] == ')'
    && forall i | 0 < i < |s| - 1 :: s[i] != '\n' && s[i] != '\r' && s[i] != '\U{2028}' && s[i] != '\U{2029}'
  }

  predicate IsNumeralChar(c: char) {
    IsDigit(c) || c == ',' || c == '.' || c == '-'
  }

  function KeepNumerals(s: string): string {
    if s == "" then "" else (if IsNumeralChar(s[0]) then [s[0]] else "") + KeepNumerals(s[1..])
  }

  /** Digits, separators and at most a leading minus. */
  function Compact(s: string): string {
    var kept := KeepNumerals(s);
    if kept == "" then "" else [kept[0]] + Remove(kept[1..], '-')
  }

  predicate IsThousands(parts: seq<string>)
    requires |parts| >= 2
  {
    if |parts| > 2 then forall i | 1 <= i < |parts| :: |parts[i]| == 3
    else |parts[1]| == 3 && |parts[0]| > 0
  }

  /** Both marks occur: the later one is the decimal mark. */
  function NormalizedMixed(unsigned: string, decimal: char, thousands: char): string {
    var joined := Remove(unsigned, thousands);
    var i := LastIndexOf(joined, decimal);
    if i < 0 then joined else Remove(joined[..i], decimal) + ['.'] + joined[i + 1..]
  }

  /** One mark occurs: a decimal mark before one or two digits, else a thousands separator. */
  function NormalizedSingle(unsigned: string, separator: char): string {
    var parts := Split(unsigned, separator);
    if |parts| == 2 && !IsThousands(parts) && 0 < |parts[1]| <= 2 then parts[0] + ['.'] + parts[1]
    else Remove(unsigned, separator)
  }

  /** The unsigned numeral with its thousands separators dropped and a point for its decimal mark. */
  function Normalized(unsigned: string): string {
    var lastComma, lastDot := LastIndexOf(unsigned, ','), LastIndexOf(unsigned, '.');
    if lastComma >= 0 && lastDot >= 0 then
      if lastComma > lastDot then NormalizedMixed(unsigned, ',', '.') else NormalizedMixed(unsigned, '.', ',')
    else if lastComma >= 0 then NormalizedSingle(unsigned, ',')
    else if lastDot >= 0 then NormalizedSingle(unsigned, '.')
    else unsigned
  }

  function Negate(negative: bool, m: int): int {
    if negative then -m else m
  }

  /** JavaScript's `Number` on an optionally negated numeral; None where it is not a number. */
  function ToNumber(negative: bool, s: string): Option<Decimal> {
    var i := LastIndexOf(s, '.');
    if i < 0 then
      if !AllDigits(s) || (s == "" && negative) then None else Some(Decimal(Negate(negative, NatValue(s)), 0))
    else
      var digits := s[..i] + s[i + 1..];
      if digits == "" || !AllDigits(digits) then None
        else Some(Decimal(Negate(negative, NatValue(digits)), |s| - i - 1))
  }

  function ParseNumber(text: string): Option<Decimal> {
    var original := Trim(text);
    var compact := Compact(original);
    if compact == "" || compact == "-" then None
    else ToNumber(InParentheses(original) || compact[0] == '-', Normalized(Remove(compact, '-')))
  }

  // -------------------------------------------------------------------------------------- printing

  datatype Sign = Plus | Minus | Parentheses

  function Pad3(m: nat): (s: string)
    requires m < 1000
    ensures |s| == 3 && AllDigits(s)
  {
    [DigitChar(m / 100), DigitChar(m / 10 % 10), DigitChar(m % 10)]
  }

  /** A number with a separator before every third digit from the right. */
  function Grouped(n: nat, separator: char): string {
    if n < 1000 then Dec(n) else Grouped(n / 1000, separator) + [separator] + Pad3(n % 1000)
  }

  /** Indonesian printing groups with '.' and marks decimals with ','; the mirrored one swaps them. */
  function DecimalMark(group: char): char {
    if group == '.' then ',' else '.'
  }

  function PrintUnsigned(n: nat, group: char, decimals: Option<string>): string {
    Grouped(n, group) + (if decimals.Some? then [DecimalMark(group)] + decimals.value else "")
  }

  function Signed(sign: Sign, u: string): string {
    match sign
    case Plus => u
    case Minus => "-" + u
    case Parentheses => "(" + u + ")"
  }

  function Print(sign: Sign, n: nat, group: char, decimals: Option<string>): string {
    Signed(sign, PrintUnsigned(n, group, decimals))
  }

  /** The number a printed numeral means. */
  function Meant(sign: Sign, n: nat, decimals: Option<string>): Decimal
    requires decimals.Some? ==> AllDigits(decimals.value)
  {
    match decimals
    case None => Decimal(Negate(!sign.Plus?, n), 0)
    case Some(f) => Decimal(Negate(!sign.Plus?, Shift(n, |f|) + NatValue(f)), |f|)
  }

  // ---------------------------------------------------------------------------------------- lemmas

  predicate Absent(s: string, c: char) {
    forall i | 0 <= i < |s| :: s[i] != c
  }

  lemma {:induction false} RemoveAbsent(s: string, c: char)
    requires Absent(s, c)
    ensures Remove(s, c) == s
  {
    if s != "" {
      RemoveAbsent(s[1..], c);
    }
  }

  lemma {:induction false} RemoveConcat(s: string, t: string, c: char)
    ensures Remove(s + t, c) == Remove(s, c) + Remove(t, c)
  {
    if s == "" {
      assert s + t == t;
    } else {
      assert (s + t)[1..] == s[1..] + t;
      RemoveConcat(s[1..], t, c);
    }
  }

  lemma {:induction false} LastIndexConcat(s: string, t: string, c: char)
    requires Absent(t, c)
    ensures LastIndexOf(s + t, c) == LastIndexOf(s, c)
  {
    if t == "" {
      assert s + t == s;
    } else {
      assert (s + t)[..|s + t| - 1] == s + t[..|t| - 1];
      LastIndexConcat(s, t[..|t| - 1], c);
    }
  }

  lemma LastIndexAt(s: string, c: char, t: string)
    requires Absent(t, c)
    ensures LastIndexOf(s + [c] + t, c) == |s|
  {
    LastIndexConcat(s + [c], t, c);
  }

  lemma LastIndexAbsent(s: string, c: char)
    requires Absent(s, c)
    ensures LastIndexOf(s, c) == -1
  {
    LastIndexConcat("", s, c);
    assert "" + s == s;
  }

  lemma SplitAt(s: string, c: char, t: string)
    requires Absent(t, c)
    ensures Split(s + [c] + t, c) == Split(s, c) + [t]
  {
    LastIndexAt(s, c, t);
    var u := s + [c] + t;
    assert u[..|s|] == s && u[|s| + 1..] == t;
  }

  lemma {:induction false} KeepAll(s: string)
    requires forall i | 0 <= i < |s| :: IsNumeralChar(s[i])
    ensures KeepNumerals(s) == s
  {
    if s != "" {
      KeepAll(s[1..]);
    }
  }

  lemma {:induction false} KeepConcat(s: string, t: string)
    ensures KeepNumerals(s + t) == KeepNumerals(s) + KeepNumerals(t)
  {
    hide KeepNumerals, IsNumeralChar;
    if s == "" {
      assert s + t == t;
      KeepNothing(t);
    } else {
      KeepConcat(s[1..], t);
      KeepStep(s);
      KeepStep(s + t);
      assert (s + t)[1..] == s[1..] + t && (s + t)[0] == s[0];
      var head := if IsNumeralChar(s[0]) then [s[0]] else "";
      Regroup(head, KeepNumerals(s[1..]), KeepNumerals(t));
    }
  }

  lemma Regroup(a: string, b: string, c: string)
    ensures a + (b + c) == a + b + c
  {
  }

  lemma KeepNothing(t: string)
    ensures KeepNumerals(t) == KeepNumerals("") + KeepNumerals(t)
  {
  }

  lemma KeepStep(s: string)
    requires s != ""
    ensures KeepNumerals(s) == (if IsNumeralChar(s[0]) then [s[0]] else "") + KeepNumerals(s[1..])
  {
  }

  lemma LastThreePlaces(n: nat)
    ensures n / 10 / 10 == n / 100 && n / 100 / 10 == n / 1000
    ensures n % 1000 / 100 == n / 100 % 10 && n % 1000 / 10 % 10 == n / 10 % 10 && n % 1000 % 10 == n % 10
  {
  }

  lemma DecByThousands(n: nat)
    requires n >= 1000
    ensures Dec(n) == Dec(n / 1000) + Pad3(n % 1000)
  {
    var a, b := n / 10, n / 100;
    LastThreePlaces(n);
    assert Dec(n) == Dec(a) + [DigitChar(n % 10)];
    assert Dec(a) == Dec(b) + [DigitChar(a % 10)];
    assert Dec(b) == Dec(n / 1000) + [DigitChar(b % 10)];
    hide Dec, DigitChar;
  }

  lemma RemoveAt(head: string, g: char, tail: string)
    requires Absent(tail, g)
    ensures Remove(head + [g] + tail, g) == Remove(head, g) + tail
  {
    RemoveConcat(head + [g], tail, g);
    RemoveConcat(head, [g], g);
    RemoveAbsent(tail, g);
    assert Remove([g], g) == "";
    assert Remove(head, g) + "" == Remove(head, g);
  }

  /** A thousands group: separators `g` only, and dropping them leaves the digits `w`. */
  predicate IsGroupOf(s: string, g: char, w: string) {
    && s != "" && IsDigit(s[0]) && Remove(s, g) == w
    && (forall i | 0 <= i < |s| :: IsDigit(s[i]) || s[i] == g)
    && |Split(s, g)[0]| > 0 && forall i | 1 <= i < |Split(s, g)| :: |Split(s, g)[i]| == 3
  }

  lemma OneBlock(w: string, g: char)
    requires w != "" && AllDigits(w) && !IsDigit(g)
    ensures IsGroupOf(w, g, w) && LastIndexOf(w, g) == -1
  {
    RemoveAbsent(w, g);
    LastIndexAbsent(w, g);
  }

  lemma NextBlock(head: string, g: char, w: string, block: string)
    requires IsGroupOf(head, g, w) && AllDigits(block) && |block| == 3 && !IsDigit(g)
    ensures IsGroupOf(head + [g] + block, g, w + block)
    ensures LastIndexOf(head + [g] + block, g) >= 0 && |Split(head + [g] + block, g)| >= 2
  {
    RemoveAt(head, g, block);
    SplitAt(head, g, block);
    LastIndexAt(head, g, block);
  }

  /** Grouping only adds separators, between blocks of three digits. */
  lemma {:induction false} GroupedShape(n: nat, g: char)
    requires g == '.' || g == ','
    ensures IsGroupOf(Grouped(n, g), g, Dec(n))
    ensures n < 1000 ==> Grouped(n, g) == Dec(n)
    ensures n >= 1000 ==> LastIndexOf(Grouped(n, g), g) >= 0 && |Split(Grouped(n, g), g)| >= 2
  {
    if n < 1000 {
      OneBlock(Dec(n), g);
    } else {
      GroupedShape(n / 1000, g);
      NextBlock(Grouped(n / 1000, g), g, Dec(n / 1000), Pad3(n % 1000));
      DecByThousands(n);
    }
  }

  lemma NormalizedGroup(s: string, g: char, w: string)
    requires (g == '.' || g == ',') && IsGroupOf(s, g, w)
    requires LastIndexOf(s, g) >= 0 && |Split(s, g)| >= 2
    ensures Normalized(s) == w
  {
    LastIndexAbsent(s, DecimalMark(g));
    var parts := Split(s, g);
    assert |parts[1]| == 3;
    assert NormalizedSingle(s, g) == w;
  }

  lemma NormalizedDigits(w: string)
    requires AllDigits(w)
    ensures Normalized(w) == w
  {
    LastIndexAbsent(w, ',');
    LastIndexAbsent(w, '.');
  }

  lemma SplitOnce(w: string, d: char, f: string)
    requires Absent(w, d) && Absent(f, d)
    ensures Split(w + [d] + f, d) == [w, f]
  {
    SplitAt(w, d, f);
    LastIndexAbsent(w, d);
  }

  /** Without a thousands group, the digits after the mark are decimals only if there are one or two. */
  lemma NormalizedSmall(w: string, d: char, f: string)
    requires (d == '.' || d == ',') && w != "" && AllDigits(w) && AllDigits(f)
    ensures Normalized(w + [d] + f) == if 0 < |f| <= 2 then w + ['.'] + f else w + f
  {
    var u := w + [d] + f;
    LastIndexAbsent(u, DecimalMark(d));
    LastIndexAt(w, d, f);
    assert Normalized(u) == NormalizedSingle(u, d);
    SplitOnce(w, d, f);
    RemoveAt(w, d, f);
    RemoveAbsent(w, d);
  }

  lemma CutAt(w: string, d: char, f: string)
    ensures (w + [d] + f)[..|w|] == w && (w + [d] + f)[|w| + 1..] == f
  {
  }

  lemma MixedDigits(w: string, d: char, f: string)
    requires AllDigits(w) && AllDigits(f) && !IsDigit(d)
    ensures LastIndexOf(w + [d] + f, d) == |w|
    ensures Remove((w + [d] + f)[..|w|], d) + ['.'] + (w + [d] + f)[|w| + 1..] == w + ['.'] + f
  {
    LastIndexAt(w, d, f);
    CutAt(w, d, f);
    RemoveAbsent(w, d);
  }

  lemma NormalizedLarge(head: string, g: char, w: string, f: string)
    requires (g == '.' || g == ',') && IsGroupOf(head, g, w) && LastIndexOf(head, g) >= 0
    requires AllDigits(w) && AllDigits(f)
    ensures Normalized(head + [DecimalMark(g)] + f) == w + ['.'] + f
  {
    var d := DecimalMark(g);
    var u, rest := head + [d] + f, [d] + f;
    assert u == head + rest;
    LastIndexAt(head, d, f);
    LastIndexConcat(head, rest, g);
    assert Normalized(u) == NormalizedMixed(u, d, g);
    RemoveConcat(head, rest, g);
    RemoveAbsent(rest, g);
    assert Remove(u, g) == w + rest == w + [d] + f;
    MixedDigits(w, d, f);
  }

  /** A bare numeral: digits and marks, starting with a digit. */
  predicate IsBare(u: string) {
    u != "" && IsDigit(u[0]) && forall i | 0 <= i < |u| :: IsDigit(u[i]) || u[i] == ',' || u[i] == '.'
  }

  lemma BarePlain(u: string)
    requires IsBare(u)
    ensures Trim(u) == u && Compact(u) == u && Remove(u, '-') == u && !InParentheses(u)
  {
    TrimmedStays(u);
    KeepAll(u);
    RemoveAbsent(u, '-');
    RemoveAbsent(u[1..], '-');
    assert [u[0]] + u[1..] == u;
  }

  lemma BareNegated(u: string)
    requires IsBare(u)
    ensures var s := "-" + u; Trim(s) == s && Compact(s) == s && Remove(s, '-') == u && !InParentheses(s)
  {
    var s := "-" + u;
    TrimmedStays(s);
    KeepConcat("-", u);
    KeepAll(u);
    assert KeepNumerals("-") == "-";
    assert s[1..] == u;
    RemoveAbsent(u, '-');
    assert Remove(s, '-') == "" + u == u;
  }

  lemma BracketsTrimmed(u: string)
    ensures Trim("(" + u + ")") == "(" + u + ")"
  {
    TrimmedStays("(" + u + ")");
  }

  lemma BareBracketed(u: string)
    requires IsBare(u)
    ensures var s := "(" + u + ")"; Trim(s) == s && KeepNumerals(s) == u && InParentheses(s)
  {
    BracketsTrimmed(u);
    var s := "(" + u + ")";
    hide Trim, IsSpace;
    KeepConcat("(" + u, ")");
    KeepConcat("(", u);
    KeepAll(u);
    assert KeepNumerals("(") == "" && KeepNumerals(")") == "";
    assert KeepNumerals(s) == "" + u + "" == u;
  }

  lemma GroupIsBare(h: string, g: char, w: string, f: string)
    requires (g == '.' || g == ',') && IsGroupOf(h, g, w) && AllDigits(f)
    ensures IsBare(h) && IsBare(h + [DecimalMark(g)] + f)
  {
    var u, d := h + [DecimalMark(g)] + f, DecimalMark(g);
    forall i | 0 <= i < |u|
      ensures IsDigit(u[i]) || u[i] == ',' || u[i] == '.'
    {
      if i < |h| {
        assert u[i] == h[i];
      } else if i > |h| {
        assert u[i] == f[i - |h| - 1];
      }
    }
  }

  /** Sign, trimming and clean-up strip exactly what the sign added around the numeral. */
  lemma ParseSigned(sign: Sign, u: string)
    requires IsBare(u)
    ensures ParseNumber(Signed(sign, u)) == ToNumber(!sign.Plus?, Normalized(u))
  {
    BarePlain(u);
    match sign
    case Plus => assert Signed(sign, u) == u;
    case Minus => BareNegated(u);
    case Parentheses =>
      BareBracketed(u);
      assert [u[0]] + Remove(u[1..], '-') == u;
  }

  lemma IntegerRead(negative: bool, s: string)
    requires s != "" && AllDigits(s)
    ensures ToNumber(negative, s) == Some(Decimal(Negate(negative, NatValue(s)), 0))
  {
    LastIndexAbsent(s, '.');
  }

  lemma DecimalRead(negative: bool, w: string, f: string)
    requires w != "" && AllDigits(w) && AllDigits(f)
    ensures AllDigits(w + f)
    ensures ToNumber(negative, w + ['.'] + f) == Some(Decimal(Negate(negative, NatValue(w + f)), |f|))
  {
    var s := w + ['.'] + f;
    LastIndexAt(w, '.', f);
    CutAt(w, '.', f);
    assert ToNumber(negative, s) == Some(Decimal(Negate(negative, NatValue(w + f)), |s| - |w| - 1));
  }

  /** The value of `w` before the point and `f` after it, at the scale of `f`. */
  function PartsValue(w: string, f: string): (m: int)
    requires AllDigits(w) && AllDigits(f)
    ensures m >= 0
  {
    Shift(NatValue(w), |f|) + NatValue(f)
  }

  lemma NumberOfParts(negative: bool, w: string, f: string)
    requires w != "" && AllDigits(w) && AllDigits(f)
    ensures ToNumber(negative, w + ['.'] + f) == Some(Decimal(Negate(negative, PartsValue(w, f)), |f|))
    ensures ToNumber(negative, w + f) == Some(Decimal(Negate(negative, PartsValue(w, f)), 0))
  {
    NatValueOfConcat(w, f);
    DecimalRead(negative, w, f);
    IntegerRead(negative, w + f);
  }

  /** A signed bare numeral that normalises to `w` and decimals `f`, or to both run together, as read. */
  lemma ReadParts(sign: Sign, u: string, w: string, f: string)
    requires IsBare(u) && w != "" && AllDigits(w) && AllDigits(f)
    ensures var m := Negate(!sign.Plus?, PartsValue(w, f));
      && (Normalized(u) == w + ['.'] + f ==> ParseNumber(Signed(sign, u)) == Some(Decimal(m, |f|)))
      && (Normalized(u) == w + f ==> ParseNumber(Signed(sign, u)) == Some(Decimal(m, 0)))
  {
    ParseSigned(sign, u);
    NumberOfParts(!sign.Plus?, w, f);
  }

  /** A thousands group with or without separators in it. */
  predicate IsWhole(h: string, g: char, w: string, separated: bool) {
    && (g == '.' || g == ',') && IsGroupOf(h, g, w) && AllDigits(w) && w != ""
    && (separated ==> LastIndexOf(h, g) >= 0 && |Split(h, g)| >= 2)
    && (!separated ==> h == w)
  }

  lemma WholeReadsBack(sign: Sign, h: string, g: char, w: string, separated: bool)
    requires IsWhole(h, g, w, separated)
    ensures ParseNumber(Signed(sign, h)) == Some(Decimal(Negate(!sign.Plus?, NatValue(w)), 0))
  {
    GroupIsBare(h, g, w, "");
    if separated {
      NormalizedGroup(h, g, w);
    } else {
      NormalizedDigits(w);
    }
    ParseSigned(sign, h);
    IntegerRead(!sign.Plus?, w);
  }

  lemma PartsReadBack(sign: Sign, h: string, g: char, w: string, separated: bool, f: string)
    requires IsWhole(h, g, w, separated) && AllDigits(f)
    ensures ParseNumber(Signed(sign, h + [DecimalMark(g)] + f)) ==
      Some(Decimal(Negate(!sign.Plus?, PartsValue(w, f)), if separated || |f| <= 2 then |f| else 0))
  {
    var u := h + [DecimalMark(g)] + f;
    GroupIsBare(h, g, w, f);
    if separated {
      NormalizedLarge(h, g, w, f);
    } else {
      NormalizedSmall(w, DecimalMark(g), f);
    }
    ReadParts(sign, u, w, f);
  }

  lemma GroupedIsWhole(n: nat, g: char)
    requires g == '.' || g == ','
    ensures IsWhole(Grouped(n, g), g, Dec(n), n >= 1000)
  {
    GroupedShape(n, g);
  }

  lemma PlainReadsBack(sign: Sign, n: nat, g: char)
    requires g == '.' || g == ','
    ensures ParseNumber(Signed(sign, Grouped(n, g))) == Some(Meant(sign, n, None))
  {
    hide ParseNumber, Grouped, NatValue, Shift;
    GroupedIsWhole(n, g);
    NatValueOfDec(n);
    WholeReadsBack(sign, Grouped(n, g), g, Dec(n), n >= 1000);
  }

  lemma PartsOfDec(n: nat, f: string)
    requires AllDigits(f)
    ensures PartsValue(Dec(n), f) == Shift(n, |f|) + NatValue(f)
  {
    NatValueOfDec(n);
  }

  lemma DecimalsReadBack(sign: Sign, n: nat, g: char, f: string)
    requires (g == '.' || g == ',') && AllDigits(f)
    ensures ParseNumber(Signed(sign, Grouped(n, g) + [DecimalMark(g)] + f)) ==
      Some(Decimal(Negate(!sign.Plus?, Shift(n, |f|) + NatValue(f)), if n >= 1000 || |f| <= 2 then |f| else 0))
  {
    hide ParseNumber, Grouped, NatValue, Shift;
    GroupedIsWhole(n, g);
    PartsReadBack(sign, Grouped(n, g), g, Dec(n), n >= 1000, f);
    PartsOfDec(n, f);
  }

  /**
    Round trip, in either convention: any signed integer part with thousands groups and up to two digits
    after the decimal mark, or any number of them once a thousands group shows which mark is which,
    reads back as the number that was printed.
   */
  lemma PrintedReadsBack(sign: Sign, n: nat, g: char, decimals: Option<string>)
    requires (g == '.' || g == ',') && (decimals.Some? ==> AllDigits(decimals.value))
    requires n >= 1000 || decimals.None? || |decimals.value| <= 2
    ensures ParseNumber(Print(sign, n, g, decimals)) == Some(Meant(sign, n, decimals))
  {
    hide ParseNumber, Grouped, NatValue, Shift;
    var h := Grouped(n, g);
    match decimals
    case None =>
      assert PrintUnsigned(n, g, decimals) == h;
      PlainReadsBack(sign, n, g);
    case Some(f) =>
      assert PrintUnsigned(n, g, decimals) == h + [DecimalMark(g)] + f;
      DecimalsReadBack(sign, n, g, f);
  }

  /**
    Exactly when a printed number reads back to its value: below a thousand, three or more digits after
    the mark are taken for thousands, which is harmless only for zero.
   */
  lemma ReadsBackExactly(sign: Sign, n: nat, g: char, decimals: Option<string>)
    requires (g == '.' || g == ',') && (decimals.Some? ==> AllDigits(decimals.value))
    ensures var r := ParseNumber(Print(sign, n, g, decimals));
      (r.Some? && SameValue(r.value, Meant(sign, n, decimals)))
      <==> (n >= 1000 || decimals.None? || |decimals.value| <= 2 || (n == 0 && NatValue(decimals.value) == 0))
  {
    hide ParseNumber, Print;
    if n >= 1000 || decimals.None? || |decimals.value| <= 2 {
      PrintedReadsBack(sign, n, g, decimals);
    } else {
      SmallDecimals(sign, n, g, decimals.value);
    }
  }

  lemma PrintedParts(sign: Sign, n: nat, g: char, f: string)
    ensures Print(sign, n, g, Some(f)) == Signed(sign, Grouped(n, g) + [DecimalMark(g)] + f)
  {
    hide Grouped, Signed;
    var whole, mark := Grouped(n, g), [DecimalMark(g)];
    assert whole + (mark + f) == whole + mark + f;
  }

  lemma SmallDecimals(sign: Sign, n: nat, g: char, f: string)
    requires (g == '.' || g == ',') && AllDigits(f) && n < 1000 && |f| > 2
    ensures var r := ParseNumber(Print(sign, n, g, Some(f)));
      r.Some? && (SameValue(r.value, Meant(sign, n, Some(f))) <==> n == 0 && NatValue(f) == 0)
  {
    hide ParseNumber, Print, Grouped, NatValue, Shift, SameValue, Signed, DecimalMark, Dec;
    DecimalsReadBack(sign, n, g, f);
    PrintedParts(sign, n, g, f);
    ScaleLost(!sign.Plus?, n, f);
  }

  lemma ScaleLost(negative: bool, n: nat, f: string)
    requires AllDigits(f) && |f| > 2
    ensures var m := Negate(negative, Shift(n, |f|) + NatValue(f));
      SameValue(Decimal(m, 0), Decimal(m, |f|)) <==> n == 0 && NatValue(f) == 0
  {
  }

  // ------------------------------------------------------------------------ what every text is read as

  predicate IsMark(c: char) {
    c == ',' || c == '.'
  }

  ghost function DigitsOf(s: string): (digits: string)
    ensures AllDigits(digits)
  {
    if s == "" then "" else if IsDigit(s[0]) then [s[0]] + DigitsOf(s[1..]) else DigitsOf(s[1..])
  }

  /** The digits, commas and points of a text, in their order. */
  ghost function Numeral(s: string): (u: string)
    ensures IsNumeral(u)
  {
    if s == "" then ""
    else if IsDigit(s[0]) || IsMark(s[0]) then [s[0]] + Numeral(s[1..])
    else Numeral(s[1..])
  }

  ghost predicate IsNumeral(u: string) {
    forall i | 0 <= i < |u| :: IsDigit(u[i]) || IsMark(u[i])
  }

  ghost predicate IsLastMark(u: string, k: int) {
    0 <= k < |u| && IsMark(u[k]) && forall i | k < i < |u| :: !IsMark(u[i])
  }

  /** The mark at `k` marks decimals: after a mark of the other kind, or as the only one before one or two digits. */
  ghost predicate MarksDecimals(u: string, k: int)
    requires 0 <= k < |u|
  {
    || (exists i | 0 <= i < k :: IsMark(u[i]) && u[i] != u[k])
    || ((forall i | 0 <= i < k :: !IsMark(u[i])) && 1 <= |u| - k - 1 <= 2)
  }

  ghost function Decimals(u: string, k: int): nat
    requires 0 <= k < |u|
  {
    if MarksDecimals(u, k) then |u| - k - 1 else 0
  }

  lemma {:induction false} LastIndexMeans(s: string, c: char)
    ensures LastIndexOf(s, c) >= 0 <==> !Absent(s, c)
  {
    if s != "" && s[|s| - 1] != c {
      var front := s[..|s| - 1];
      LastIndexMeans(front, c);
      assert forall i | 0 <= i < |front| :: front[i] == s[i];
    }
  }

  lemma RemoveStep(s: string, c: char)
    requires s != ""
    ensures Remove(s, c) == if s[0] == c then Remove(s[1..], c) else [s[0]] + Remove(s[1..], c)
    ensures s[0] != c ==> Remove(s, c)[1..] == Remove(s[1..], c)
    ensures KeepNumerals(s) == if IsNumeralChar(s[0]) then [s[0]] + KeepNumerals(s[1..]) else KeepNumerals(s[1..])
    ensures IsNumeralChar(s[0]) ==> KeepNumerals(s)[1..] == KeepNumerals(s[1..])
  {
    assert "" + Remove(s[1..], c) == Remove(s[1..], c);
    assert "" + KeepNumerals(s[1..]) == KeepNumerals(s[1..]);
  }

  lemma {:induction false} RemoveBothMarks(u: string, a: char, b: char)
    requires IsNumeral(u) && ((a == ',' && b == '.') || (a == '.' && b == ','))
    ensures Remove(Remove(u, a), b) == DigitsOf(u)
  {
    if u != "" {
      assert forall i | 0 <= i < |u[1..]| :: u[1..][i] == u[i + 1];
      RemoveBothMarks(u[1..], a, b);
      RemoveStep(u, a);
      if u[0] != a {
        RemoveStep(Remove(u, a), b);
      }
    }
  }

  lemma {:induction false} DigitsOfDigits(s: string)
    requires AllDigits(s)
    ensures DigitsOf(s) == s
  {
    if s != "" {
      DigitsOfDigits(s[1..]);
    }
  }

  lemma {:induction false} DigitsConcat(s: string, t: string)
    ensures DigitsOf(s + t) == DigitsOf(s) + DigitsOf(t)
  {
    if s == "" {
      assert s + t == t;
    } else {
      assert (s + t)[1..] == s[1..] + t;
      DigitsConcat(s[1..], t);
    }
  }

  /** The digits on both sides of a mark. */
  lemma DigitsAround(u: string, k: int)
    requires IsNumeral(u) && IsLastMark(u, k)
    ensures u == u[..k] + [u[k]] + u[k + 1..] && IsNumeral(u[..k]) && AllDigits(u[k + 1..])
    ensures DigitsOf(u) == DigitsOf(u[..k]) + u[k + 1..]
  {
    var head, tail := u[..k], u[k + 1..];
    assert u == head + [u[k]] + tail;
    assert forall i | 0 <= i < |tail| :: tail[i] == u[i + k + 1];
    DigitsConcat(head + [u[k]], tail);
    DigitsConcat(head, [u[k]]);
    DigitsOfDigits(tail);
    assert DigitsOf([u[k]]) == "";
    assert DigitsOf(head) + "" == DigitsOf(head);
  }

  lemma MarksOfMixed(head: string, d: char, tail: string)
    requires AllDigits(tail) && IsMark(d) && !Absent(head, DecimalMark(d))
    ensures var u := head + [d] + tail;
      LastIndexOf(u, d) == |head| && 0 <= LastIndexOf(u, DecimalMark(d)) < |head|
  {
    hide LastIndexOf;
    var th := DecimalMark(d);
    LastIndexAt(head, d, tail);
    assert head + [d] + tail == head + ([d] + tail);
    LastIndexConcat(head, [d] + tail, th);
    LastIndexMeans(head, th);
  }

  lemma MixedJoins(head: string, d: char, tail: string)
    requires IsNumeral(head) && AllDigits(tail) && IsMark(d)
    ensures NormalizedMixed(head + [d] + tail, d, DecimalMark(d)) == DigitsOf(head) + ['.'] + tail
  {
    hide LastIndexOf, Remove, DigitsOf;
    var th := DecimalMark(d);
    var front := Remove(head, th);
    assert head + [d] + tail == head + ([d] + tail);
    RemoveConcat(head, [d] + tail, th);
    RemoveAbsent([d] + tail, th);
    assert front + ([d] + tail) == front + [d] + tail;
    LastIndexAt(front, d, tail);
    RemoveBothMarks(head, th, d);
    assert (front + [d] + tail)[..|front|] == front && (front + [d] + tail)[|front| + 1..] == tail;
  }

  lemma MixedIs(head: string, d: char, tail: string)
    requires IsNumeral(head) && AllDigits(tail) && IsMark(d) && !Absent(head, DecimalMark(d))
    ensures Normalized(head + [d] + tail) == DigitsOf(head) + ['.'] + tail
  {
    MarksOfMixed(head, d, tail);
    MixedJoins(head, d, tail);
    hide DigitsOf, NormalizedMixed, NormalizedSingle, LastIndexOf, IsNumeral, AllDigits, Absent;
  }

  lemma MixedMeans(u: string, k: int)
    requires IsNumeral(u) && IsLastMark(u, k)
    requires exists i | 0 <= i < k :: IsMark(u[i]) && u[i] != u[k]
    ensures Normalized(u) == DigitsOf(u[..k]) + ['.'] + u[k + 1..]
  {
    var head, d, tail := u[..k], u[k], u[k + 1..];
    DigitsAround(u, k);
    var i :| 0 <= i < k && IsMark(u[i]) && u[i] != u[k];
    assert head[i] == DecimalMark(d);
    hide DigitsOf, Normalized;
    MixedIs(head, d, tail);
  }

  lemma OnlyMarkMeans(head: string, d: char, tail: string)
    requires AllDigits(head) && AllDigits(tail) && IsMark(d)
    ensures Normalized(head + [d] + tail) == if 1 <= |tail| <= 2 then head + ['.'] + tail else head + tail
  {
    var u, th := head + [d] + tail, DecimalMark(d);
    LastIndexAt(head, d, tail);
    LastIndexAbsent(u, th);
    SplitOnce(head, d, tail);
    RemoveAt(head, d, tail);
    RemoveAbsent(head, d);
  }

  lemma SeveralMarksMean(head: string, d: char, tail: string)
    requires AllDigits(tail) && IsMark(d) && !Absent(head, d) && Absent(head, DecimalMark(d))
    ensures Normalized(head + [d] + tail) == Remove(head + [d] + tail, d)
  {
    var u, th := head + [d] + tail, DecimalMark(d);
    LastIndexAt(head, d, tail);
    LastIndexAbsent(u, th);
    SplitAt(head, d, tail);
    LastIndexMeans(head, d);
  }

  lemma SingleMeans(u: string, k: int)
    requires IsNumeral(u) && IsLastMark(u, k)
    requires forall i | 0 <= i < k && IsMark(u[i]) :: u[i] == u[k]
    ensures Normalized(u)
         == if MarksDecimals(u, k) then DigitsOf(u[..k]) + ['.'] + u[k + 1..] else DigitsOf(u)
  {
    var head, d, tail := u[..k], u[k], u[k + 1..];
    var th := DecimalMark(d);
    DigitsAround(u, k);
    hide Normalized, Remove, DigitsOf;
    assert forall i | 0 <= i < k :: head[i] == u[i];
    if Absent(head, d) {
      assert AllDigits(head);
      DigitsOfDigits(head);
      OnlyMarkMeans(head, d, tail);
    } else {
      SeveralMarksMean(head, d, tail);
      assert Absent(u, th);
      RemoveAbsent(u, th);
      RemoveBothMarks(u, th, d);
      var i :| 0 <= i < |head| && head[i] == d;
      assert u[i] == d;
    }
  }

  ghost predicate IsOneLine(s: string) {
    forall c | c in s :: c !in {'\n', '\r', '\U{2028}', '\U{2029}'}
  }

  ghost predicate IsLeadingMinus(s: string, i: int) {
    0 <= i < |s| && s[i] == '-' && forall j | 0 <= j < i :: !IsDigit(s[j]) && !IsMark(s[j])
  }

  /** The signs of a negative number: brackets around a line, or a minus before all digits and marks. */
  ghost predicate IsMarkedNegative(t: string) {
    || (exists inner: string :: t == "(" + inner + ")" && IsOneLine(inner))
    || exists i :: IsLeadingMinus(t, i)
  }

  lemma ParenthesesMean(t: string)
    ensures InParentheses(t) <==> exists inner: string :: t == "(" + inner + ")" && IsOneLine(inner)
  {
    if InParentheses(t) {
      var inner := t[1..|t| - 1];
      assert t == "(" + inner + ")";
      assert forall i | 0 <= i < |inner| :: inner[i] == t[i + 1];
    }
    if inner: string :| t == "(" + inner + ")" && IsOneLine(inner) {
      assert forall i | 0 < i < |t| - 1 :: t[i] == inner[i - 1] && inner[i - 1] in inner;
    }
  }

  lemma {:induction false} KeptIsNumeral(s: string)
    ensures Remove(KeepNumerals(s), '-') == Numeral(s)
  {
    if s != "" {
      KeptIsNumeral(s[1..]);
      RemoveStep(s, '-');
      if IsNumeralChar(s[0]) {
        RemoveStep(KeepNumerals(s), '-');
      }
    }
  }

  lemma LeadingMinusShifts(s: string, i: int)
    requires s != "" && s[0] != '-' && !IsDigit(s[0]) && !IsMark(s[0])
    ensures IsLeadingMinus(s[1..], i) <==> i >= 0 && IsLeadingMinus(s, i + 1)
  {
    if 0 <= i < |s| - 1 {
      assert forall j | 0 < j <= i :: s[j] == s[1..][j - 1];
    }
  }

  lemma {:induction false} KeptBeginsWithMinus(s: string)
    ensures KeepNumerals(s) != "" && KeepNumerals(s)[0] == '-' <==> exists i :: IsLeadingMinus(s, i)
  {
    if s != "" {
      RemoveStep(s, '-');
      if s[0] == '-' {
        assert IsLeadingMinus(s, 0);
      } else if !IsNumeralChar(s[0]) {
        KeptBeginsWithMinus(s[1..]);
        hide KeepNumerals;
        if i :| IsLeadingMinus(s[1..], i) {
          LeadingMinusShifts(s, i);
        }
        if i :| IsLeadingMinus(s, i) {
          assert i > 0;
          LeadingMinusShifts(s, i - 1);
        }
      }
    }
  }

  lemma {:induction false} RemoveTwice(s: string, c: char)
    ensures Remove(Remove(s, c), c) == Remove(s, c) && (Remove(s, c) == "" <==> forall i | 0 <= i < |s| :: s[i] == c)
  {
    if s != "" {
      RemoveTwice(s[1..], c);
      RemoveStep(s, c);
      if s[0] != c {
        RemoveStep(Remove(s, c), c);
      } else {
        assert forall i | 0 < i < |s| :: s[i] == s[1..][i - 1];
      }
    }
  }

  lemma CompactIs(t: string)
    ensures var kept := KeepNumerals(t);
      && Remove(Compact(t), '-') == Numeral(t)
      && (Compact(t) == "" || Compact(t) == "-" <==> Numeral(t) == "")
      && (Compact(t) != "" ==> kept != "" && Compact(t)[0] == kept[0])
  {
    KeptIsNumeral(t);
    CompactedIs(KeepNumerals(t));
    hide KeepNumerals, Remove, Numeral;
  }

  lemma CompactedIs(kept: string)
    ensures var compact := if kept == "" then "" else [kept[0]] + Remove(kept[1..], '-');
      && Remove(compact, '-') == Remove(kept, '-')
      && (compact == "" || compact == "-" <==> Remove(kept, '-') == "")
  {
    if kept != "" {
      var tail := Remove(kept[1..], '-');
      RemoveTwice(kept[1..], '-');
      RemoveStep(kept, '-');
      RemoveStep([kept[0]] + tail, '-');
      assert ([kept[0]] + tail)[1..] == tail;
    }
  }

  lemma ToNumberOfPoint(negative: bool, a: string, b: string)
    requires AllDigits(a) && AllDigits(b)
    ensures ToNumber(negative, a + ['.'] + b)
         == if a + b == "" then None else Some(Decimal(Negate(negative, NatValue(a + b)), |b|))
  {
    LastIndexAt(a, '.', b);
    assert (a + ['.'] + b)[..|a|] == a && (a + ['.'] + b)[|a| + 1..] == b;
  }

  /**
    What every text is read as: nothing without a digit or mark; its digits otherwise, negative if it is marked so, with
    decimals after the last mark if that follows a mark of the other kind, or is the only one and stands before one or
    two digits.  Marks without digits are zero, but nothing when they are of both kinds or negative.
   */
  lemma ParsesExactly(text: string)
    ensures var t := Trim(text);
      var u, negative := Numeral(t), IsMarkedNegative(t);
      && (u == "" ==> ParseNumber(text) == None)
      && (u != "" && (forall i | 0 <= i < |u| :: !IsMark(u[i])) ==>
            ParseNumber(text) == Some(Decimal(Negate(negative, NatValue(DigitsOf(u))), 0)))
      && forall k | IsLastMark(u, k) ::
           ParseNumber(text)
           == if DigitsOf(u) == "" && (negative || MarksDecimals(u, k)) then None
              else Some(Decimal(Negate(negative, NatValue(DigitsOf(u))), Decimals(u, k)))
  {
    var t := Trim(text);
    var u, negative := Numeral(t), IsMarkedNegative(t);
    CompactIs(t);
    ParenthesesMean(t);
    KeptBeginsWithMinus(t);
    assert u != "" ==> ParseNumber(text) == ToNumber(negative, Normalized(u));
    hide ParseNumber, Compact, KeepNumerals, Trim, IsMarkedNegative, InParentheses;
    if u != "" && forall i | 0 <= i < |u| :: !IsMark(u[i]) {
      DigitsOfDigits(u);
      NormalizedDigits(u);
      LastIndexAbsent(u, '.');
    }
    forall k | IsLastMark(u, k)
      ensures ParseNumber(text)
           == if DigitsOf(u) == "" && (negative || MarksDecimals(u, k)) then None
              else Some(Decimal(Negate(negative, NatValue(DigitsOf(u))), Decimals(u, k)))
    {
      NumeralReads(negative, u, k);
    }
  }

  lemma NumeralReads(negative: bool, u: string, k: int)
    requires IsNumeral(u) && IsLastMark(u, k)
    ensures ToNumber(negative, Normalized(u))
         == if DigitsOf(u) == "" && (negative || MarksDecimals(u, k)) then None
            else Some(Decimal(Negate(negative, NatValue(DigitsOf(u))), Decimals(u, k)))
  {
    DigitsAround(u, k);
    if exists i | 0 <= i < k :: IsMark(u[i]) && u[i] != u[k] {
      MixedMeans(u, k);
    } else {
      SingleMeans(u, k);
    }
    ToNumberOfPoint(negative, DigitsOf(u[..k]), u[k + 1..]);
    LastIndexAbsent(DigitsOf(u), '.');
  }
}
