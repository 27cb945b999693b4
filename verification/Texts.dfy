/** Decimal text and the few string operations the source uses. */
module Texts {
  predicate IsDigit(c: char) {
    '0' <= c <= '9'
  }

  predicate AllDigits(s: string) {
    forall i | 0 <= i < |s| :: IsDigit(s[i])
  }

  function DigitChar(d: nat): (c: char)
    requires d < 10
    ensures IsDigit(c) && DigitValue(c) == d
  {
    ('0' as int + d) as char
  }

  function DigitValue(c: char): (d: nat)
    requires IsDigit(c)
    ensures d < 10
  {
    c as int - '0' as int
  }

  /** `m` with `k` more zeros: m times ten to the k. */
  function Shift(m: int, k: nat): (r: int)
    ensures m >= 0 ==> r >= m
    ensures m <= 0 ==> r <= m
    ensures m != 0 && k > 0 ==> r != m
  {
    if k == 0 then m else 10 * Shift(m, k - 1)
  }

  /** The number a digit string denotes; leading zeros are allowed. */
  function NatValue(s: string): nat
    requires AllDigits(s)
  {
    if s == "" then 0 else 10 * NatValue(s[..|s| - 1]) + DigitValue(s[|s| - 1])
  }

  /** A number in decimal, without leading zeros. */
  function Dec(n: nat): (s: string)
    ensures |s| > 0 && AllDigits(s)
  {
    if n < 10 then [DigitChar(n)] else Dec(n / 10) + [DigitChar(n % 10)]
  }

  lemma {:induction false} NatValueOfDec(n: nat)
    ensures NatValue(Dec(n)) == n
  {
    if n >= 10 {
      NatValueOfDec(n / 10);
      assert Dec(n)[..|Dec(n)| - 1] == Dec(n / 10);
    } else {
      assert Dec(n)[..0] == "";
    }
  }

  lemma DecInjective(m: nat, n: nat)
    requires Dec(m) == Dec(n)
    ensures m == n
  {
    NatValueOfDec(m);
    NatValueOfDec(n);
  }

  lemma {:induction false} NatValueOfConcat(a: string, b: string)
    requires AllDigits(a) && AllDigits(b)
    ensures AllDigits(a + b) && NatValue(a + b) == Shift(NatValue(a), |b|) + NatValue(b)
  {
    if b == "" {
      assert a + b == a;
    } else {
      NatValueOfConcat(a, b[..|b| - 1]);
      assert (a + b)[..|a + b| - 1] == a + b[..|b| - 1];
    }
  }

  /** The space characters of `String.prototype.trim` and of `\s`. */
  predicate IsSpace(c: char) {
    || '\t' <= c <= '\r' || c == ' ' || c == '\U{00A0}' || c == '\U{1680}' || '\U{2000}' <= c <= '\U{200A}'
    || c == '\U{2028}' || c == '\U{2029}' || c == '\U{202F}' || c == '\U{205F}' || c == '\U{3000}' || c == '\U{FEFF}'
  }

  function TrimStart(s: string): string {
    if s != "" && IsSpace(s[0]) then TrimStart(s[1..]) else s
  }

  function TrimEnd(s: string): string {
    if s != "" && IsSpace(s[|s| - 1]) then TrimEnd(s[..|s| - 1]) else s
  }

  function Trim(s: string): string {
    TrimEnd(TrimStart(s))
  }

  lemma TrimmedStays(s: string)
    requires s == "" || (!IsSpace(s[0]) && !IsSpace(s[|s| - 1]))
    ensures Trim(s) == s
  {
  }

  /** Lower case of the Latin letters; the Kelvin sign is the one other character that lands in a-z. */
  function LowerChar(c: char): char {
    if 'A' <= c <= 'Z' then (c as int + 32) as char else if c == '\U{212A}' then 'k' else c
  }

  function Lower(s: string): (r: string)
    ensures |r| == |s| && forall i | 0 <= i < |s| :: r[i] == LowerChar(s[i])
  {
    if s == "" then "" else [LowerChar(s[0])] + Lower(s[1..])
  }

  predicate NoColon(s: string) {
    forall i | 0 <= i < |s| :: s[i] != ':'
  }

  /** How many characters follow the last colon. */
  function TailLength(s: string): (n: nat)
    ensures n <= |s|
  {
    if s == "" || s[|s| - 1] == ':' then 0 else 1 + TailLength(s[..|s| - 1])
  }

  lemma {:induction false} TailLengthIs(s: string, t: string)
    requires NoColon(t)
    ensures TailLength(s + ":" + t) == |t|
  {
    if t != "" {
      assert (s + ":" + t)[..|s + ":" + t| - 1] == s + ":" + t[..|t| - 1];
      TailLengthIs(s, t[..|t| - 1]);
    }
  }

  /** Text with a last colon splits there in one way only. */
  lemma SplitAtLastColon(s: string, t: string, s': string, t': string)
    requires NoColon(t) && NoColon(t') && s + ":" + t == s' + ":" + t'
    ensures s == s' && t == t'
  {
    TailLengthIs(s, t);
    TailLengthIs(s', t');
    assert s == (s + ":" + t)[..|s|] && s' == (s' + ":" + t')[..|s'|];
    assert t == (s + ":" + t)[|s| + 1..] && t' == (s' + ":" + t')[|s'| + 1..];
  }

  lemma HeadLength(a: string, x: string, b: string, y: string)
    requires NoColon(b) && a + ":" + x == b + ":" + y
    ensures |a| >= |b|
  {
    var s := a + ":" + x;
    assert s[|a|] == ':';
    assert forall i | 0 <= i < |b| :: s[i] == b[i];
  }

  /** Text whose head before a colon is colon-free splits there in one way only. */
  lemma SplitAtFirstColon(a: string, x: string, b: string, y: string)
    requires NoColon(a) && NoColon(b) && a + ":" + x == b + ":" + y
    ensures a == b && x == y
  {
    HeadLength(a, x, b, y);
    HeadLength(b, y, a, x);
    assert (a + ":" + x)[..|a|] == a && (b + ":" + y)[..|b|] == b;
    assert (a + ":" + x)[|a| + 1..] == x && (b + ":" + y)[|b| + 1..] == y;
  }

  // ----------------------------------------------------------------------- characters by their alphabets

  const DIGITS := "0123456789"
  const SMALL_LETTERS := "abcdefghijklmnopqrstuvwxyz"
  const CAPITALS := "ABCDEFGHIJKLMNOPQRSTUVWXYZ"

  lemma DigitMeans(c: char)
    ensures IsDigit(c) <==> c in DIGITS
  {
    if IsDigit(c) {
      assert DIGITS[c as int - '0' as int] == c;
    }
  }

  lemma SmallLetter(c: char)
    ensures 'a' <= c <= 'z' <==> c in SMALL_LETTERS
  {
    if 'a' <= c <= 'z' {
      assert SMALL_LETTERS[c as int - 'a' as int] == c;
    }
  }

  lemma Capital(c: char)
    ensures 'A' <= c <= 'Z' <==> c in CAPITALS
  {
    if 'A' <= c <= 'Z' {
      assert CAPITALS[c as int - 'A' as int] == c;
    }
  }
}
