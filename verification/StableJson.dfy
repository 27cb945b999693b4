/**
  `stableSerialize` (src/system/application-cache.js:35-47) on JSON values, as text in UTF-16 code units.
  Two values serialise alike exactly when they are the same value up to the order of object keys.
 */
module StableJson {
  import opened Options

  type Unit = n: nat | n < 0x1_0000
  type Text = seq<Unit>

  const QUOTE: Unit := 0x22
  const COMMA: Unit := 0x2C
  const COLON: Unit := 0x3A
  const OPEN_ARRAY: Unit := 0x5B
  const BACKSLASH: Unit := 0x5C
  const CLOSE_ARRAY: Unit := 0x5D
  const OPEN_OBJECT: Unit := 0x7B
  const CLOSE_OBJECT: Unit := 0x7D
  const LITERAL_NULL: Text := [0x6E, 0x75, 0x6C, 0x6C]
  const LITERAL_TRUE: Text := [0x74, 0x72, 0x75, 0x65]
  const LITERAL_FALSE: Text := [0x66, 0x61, 0x6C, 0x73, 0x65]

  /** A finite number is known by its ECMAScript text; an object lists its fields in insertion order. */
  datatype Json =
    | Null
    | Bool(b: bool)
    | Num(token: Text)
    | Str(s: Text)
    | Arr(items: seq<Json>)
    | Obj(fields: seq<Field>)

  datatype Field = Field(name: Text, value: Json)

  /** Digits, sign, point and exponent letter. */
  predicate IsNumeric(u: Unit) {
    0x30 <= u <= 0x39 || u == 0x2D || u == 0x2B || u == 0x2E || u == 0x65
  }

  predicate IsNumberToken(t: Text) {
    && t != [] && (0x30 <= t[0] <= 0x39 || t[0] == 0x2D)
    && forall i | 0 <= i < |t| :: IsNumeric(t[i])
  }

  ghost predicate DistinctNames(fields: seq<Field>) {
    forall i, j | 0 <= i < j < |fields| :: fields[i].name != fields[j].name
  }

  ghost predicate WellFormed(j: Json) {
    match j
    case Num(token) => IsNumberToken(token)
    case Arr(items) => forall i | 0 <= i < |items| :: WellFormed(items[i])
    case Obj(fields) => DistinctNames(fields) && forall i | 0 <= i < |fields| :: WellFormed(fields[i].value)
    case _ => true
  }

  /** The same value, whatever the order of object keys. */
  ghost predicate Same(a: Json, b: Json)
    decreases a
  {
    match (a, b)
    case (Arr(xs), Arr(ys)) => |xs| == |ys| && forall i | 0 <= i < |xs| :: Same(xs[i], ys[i])
    case (Obj(fs), Obj(gs)) =>
      && (forall n :: HasName(fs, n) <==> HasName(gs, n))
      && (forall i, k | 0 <= i < |fs| && 0 <= k < |gs| && fs[i].name == gs[k].name :: Same(fs[i].value, gs[k].value))
    case (_, _) => a == b
  }

  ghost predicate HasName(fields: seq<Field>, n: Text) {
    exists i :: 0 <= i < |fields| && fields[i].name == n
  }

  // -------------------------------------------------------------------------------------- strings

  predicate IsHigh(u: Unit) {
    0xD800 <= u < 0xDC00
  }

  predicate IsLow(u: Unit) {
    0xDC00 <= u < 0xE000
  }

  function HexDigit(d: nat): Unit
    requires d < 16
  {
    if d < 10 then 0x30 + d else 0x57 + d
  }

  function HexValue(u: Unit): Option<nat> {
    if 0x30 <= u <= 0x39 then Some(u - 0x30) else if 0x61 <= u <= 0x66 then Some(u - 0x57) else None
  }

  function UnicodeEscape(u: Unit): Text {
    [BACKSLASH, 0x75, HexDigit(u / 4096), HexDigit(u / 256 % 16), HexDigit(u / 16 % 16), HexDigit(u % 16)]
  }

  /** The letter after the backslash, for the characters with a short escape. */
  function ShortEscape(u: Unit): Option<Unit> {
    if u == 0x08 then Some(0x62) else if u == 0x09 then Some(0x74) else if u == 0x0A then Some(0x6E)
    else if u == 0x0C then Some(0x66) else if u == 0x0D then Some(0x72)
    else if u == QUOTE then Some(QUOTE) else if u == BACKSLASH then Some(BACKSLASH) else None
  }

  function ShortValue(u: Unit): Option<Unit> {
    if u == 0x62 then Some(0x08) else if u == 0x74 then Some(0x09) else if u == 0x6E then Some(0x0A)
    else if u == 0x66 then Some(0x0C) else if u == 0x72 then Some(0x0D)
    else if u == QUOTE then Some(QUOTE) else if u == BACKSLASH then Some(BACKSLASH) else None
  }

  /** Escaped string content: short escapes, `\u00xx` for other controls, `\udxxx` for lone surrogates. */
  function Escape(s: Text): Text {
    if s == [] then []
    else if IsHigh(s[0]) && |s| > 1 && IsLow(s[1]) then [s[0], s[1]] + Escape(s[2..])
    else EscapeUnit(s[0]) + Escape(s[1..])
  }

  function EscapeUnit(u: Unit): Text {
    if ShortEscape(u).Some? then [BACKSLASH, ShortEscape(u).value]
    else if u < 0x20 || IsHigh(u) || IsLow(u) then UnicodeEscape(u)
    else [u]
  }

  function Quote(s: Text): Text {
    [QUOTE] + Escape(s) + [QUOTE]
  }

  /** A reader for string content up to its closing quote, with the text that follows. */
  ghost function ReadString(t: Text): Option<(Text, Text)> {
    if t == [] then None
    else if t[0] == QUOTE then Some(([], t[1..]))
    else if t[0] != BACKSLASH then Prepend(t[0], ReadString(t[1..]))
    else if |t| < 2 then None
    else if t[1] != 0x75 then
      if ShortValue(t[1]).Some? then Prepend(ShortValue(t[1]).value, ReadString(t[2..])) else None
    else if |t| < 6 then None
    else
      match (HexValue(t[2]), HexValue(t[3]), HexValue(t[4]), HexValue(t[5]))
      case (Some(a), Some(b), Some(c), Some(d)) =>
        var u := 4096 * a + 256 * b + 16 * c + d;
        if u < 0x1_0000 then Prepend(u, ReadString(t[6..])) else None
      case _ => None
  }

  ghost function Prepend(u: Unit, rest: Option<(Text, Text)>): Option<(Text, Text)> {
    if rest.Some? then Some(([u] + rest.value.0, rest.value.1)) else None
  }

  lemma HexDigitValue(d: nat)
    requires d < 16
    ensures HexValue(HexDigit(d)) == Some(d)
  {
  }

  lemma HexDigits(u: Unit)
    ensures u / 4096 < 16 && u == 4096 * (u / 4096) + 256 * (u / 256 % 16) + 16 * (u / 16 % 16) + u % 16
  {
    assert u / 256 == (u / 16) / 16 && u / 4096 == (u / 256) / 16;
  }

  lemma ReadRaw(u: Unit, y: Text)
    requires u != QUOTE && u != BACKSLASH
    ensures ReadString([u] + y) == Prepend(u, ReadString(y))
  {
    assert ([u] + y)[1..] == y;
  }

  lemma ReadShort(u: Unit, y: Text)
    requires ShortEscape(u).Some?
    ensures ReadString([BACKSLASH, ShortEscape(u).value] + y) == Prepend(u, ReadString(y))
  {
    assert ([BACKSLASH, ShortEscape(u).value] + y)[2..] == y;
  }

  lemma ReadUnicode(u: Unit, y: Text)
    ensures ReadString(UnicodeEscape(u) + y) == Prepend(u, ReadString(y))
  {
    var t := UnicodeEscape(u) + y;
    HexDigits(u);
    HexDigitValue(u / 4096);
    HexDigitValue(u / 256 % 16);
    HexDigitValue(u / 16 % 16);
    HexDigitValue(u % 16);
    assert t[6..] == y;
    assert t[0] == BACKSLASH && t[1] == 0x75 && t[2] == HexDigit(u / 4096) && t[3] == HexDigit(u / 256 % 16);
    assert t[4] == HexDigit(u / 16 % 16) && t[5] == HexDigit(u % 16);
  }

  lemma ReadUnit(u: Unit, y: Text)
    ensures ReadString(EscapeUnit(u) + y) == Prepend(u, ReadString(y))
  {
    if ShortEscape(u).Some? {
      ReadShort(u, y);
    } else if u < 0x20 || IsHigh(u) || IsLow(u) {
      ReadUnicode(u, y);
    } else {
      ReadRaw(u, y);
    }
  }

  lemma ReadPair(u: Unit, v: Unit, y: Text, s: Text, x: Text)
    requires IsHigh(u) && IsLow(v) && ReadString(y) == Some((s, x))
    ensures ReadString([u, v] + y) == Some(([u, v] + s, x))
  {
    hide ReadString;
    ReadRaw(v, y);
    ReadRaw(u, [v] + y);
    assert [u, v] + y == [u] + ([v] + y) && [u] + ([v] + s) == [u, v] + s;
  }

  lemma ReadOne(u: Unit, y: Text, s: Text, x: Text)
    requires ReadString(y) == Some((s, x))
    ensures ReadString(EscapeUnit(u) + y) == Some(([u] + s, x))
  {
    ReadUnit(u, y);
  }

  predicate StartsWithPair(s: Text) {
    |s| > 1 && IsHigh(s[0]) && IsLow(s[1])
  }

  lemma EscapePair(s: Text, z: Text)
    requires StartsWithPair(s)
    ensures Escape(s) + z == [s[0], s[1]] + (Escape(s[2..]) + z)
  {
  }

  lemma EscapeOne(s: Text, z: Text)
    requires s != [] && !StartsWithPair(s)
    ensures Escape(s) + z == EscapeUnit(s[0]) + (Escape(s[1..]) + z)
  {
  }

  lemma ReadEnd(x: Text)
    ensures ReadString(Escape([]) + ([QUOTE] + x)) == Some(([], x))
  {
    assert Escape([]) + ([QUOTE] + x) == [QUOTE] + x && ([QUOTE] + x)[1..] == x;
  }

  lemma {:induction false} ReadEscaped(s: Text, x: Text)
    ensures ReadString(Escape(s) + ([QUOTE] + x)) == Some((s, x))
  {
    var z := [QUOTE] + x;
    if s == [] {
      ReadEnd(x);
    } else if StartsWithPair(s) {
      ReadEscaped(s[2..], x);
      ReadPair(s[0], s[1], Escape(s[2..]) + z, s[2..], x);
      EscapePair(s, z);
      assert [s[0], s[1]] + s[2..] == s;
    } else {
      ReadEscaped(s[1..], x);
      ReadOne(s[0], Escape(s[1..]) + z, s[1..], x);
      EscapeOne(s, z);
      assert [s[0]] + s[1..] == s;
    }
  }

  /** A quoted string determines its content and where it ends. */
  lemma QuoteUnique(s: Text, t: Text, x: Text, y: Text)
    requires Quote(s) + x == Quote(t) + y
    ensures s == t && x == y
  {
    assert (Quote(s) + x)[1..] == Escape(s) + ([QUOTE] + x);
    assert (Quote(t) + y)[1..] == Escape(t) + ([QUOTE] + y);
    ReadEscaped(s, x);
    ReadEscaped(t, y);
  }

  // ------------------------------------------------------------------------------------- key order

  /** The default order of `Array.prototype.sort` on strings: by code unit. */
  predicate Less(a: Text, b: Text) {
    b != [] && (a == [] || a[0] < b[0] || (a[0] == b[0] && Less(a[1..], b[1..])))
  }

  lemma {:induction false} LessTotal(a: Text, b: Text)
    ensures Less(a, b) || a == b || Less(b, a)
    ensures !(Less(a, b) && Less(b, a)) && !(Less(a, b) && a == b)
  {
    if a != [] && b != [] && a[0] == b[0] {
      LessTotal(a[1..], b[1..]);
      assert a == [a[0]] + a[1..] && b == [b[0]] + b[1..];
    }
  }

  lemma {:induction false} LessTransitive(a: Text, b: Text, c: Text)
    requires Less(a, b) && Less(b, c)
    ensures Less(a, c)
  {
    if a != [] && a[0] == b[0] == c[0] {
      LessTransitive(a[1..], b[1..], c[1..]);
    }
  }

  function Insert(f: Field, fields: seq<Field>): (r: seq<Field>)
    ensures |r| == |fields| + 1 && forall g :: g in r <==> g == f || g in fields
  {
    if fields == [] || Less(f.name, fields[0].name) then [f] + fields
    else [fields[0]] + Insert(f, fields[1..])
  }

  function SortFields(fields: seq<Field>): (r: seq<Field>)
    ensures |r| == |fields| && forall g :: g in r <==> g in fields
  {
    if fields == [] then [] else Insert(fields[0], SortFields(fields[1..]))
  }

  ghost predicate Sorted(fields: seq<Field>) {
    forall i, j | 0 <= i < j < |fields| :: Less(fields[i].name, fields[j].name)
  }

  lemma {:induction false} InsertSorted(f: Field, fields: seq<Field>)
    requires Sorted(fields) && !HasName(fields, f.name)
    ensures Sorted(Insert(f, fields))
  {
    if fields != [] {
      LessTotal(f.name, fields[0].name);
      if Less(f.name, fields[0].name) {
        forall i | 0 < i < |fields|
          ensures Less(f.name, fields[i].name)
        {
          LessTransitive(f.name, fields[0].name, fields[i].name);
        }
      } else {
        forall i | 0 <= i < |fields[1..]|
          ensures fields[1..][i].name != f.name
        {
          assert fields[1..][i] == fields[i + 1];
        }
        InsertSorted(f, fields[1..]);
        var r := Insert(f, fields[1..]);
        forall i | 0 <= i < |r|
          ensures Less(fields[0].name, r[i].name)
        {
          assert r[i] in r;
        }
      }
    }
  }

  lemma {:induction false} SortSorted(fields: seq<Field>)
    requires DistinctNames(fields)
    ensures Sorted(SortFields(fields))
  {
    if fields != [] {
      SortSorted(fields[1..]);
      var rest := SortFields(fields[1..]);
      forall i | 0 <= i < |rest|
        ensures rest[i].name != fields[0].name
      {
        assert rest[i] in rest;
        var k :| 0 <= k < |fields[1..]| && fields[1..][k] == rest[i];
        assert fields[k + 1] == rest[i];
      }
      InsertSorted(fields[0], rest);
    }
  }

  /** Sorted field lists with the same names list them alike. */
  lemma {:induction false} SortedNamesUnique(fs: seq<Field>, gs: seq<Field>)
    requires Sorted(fs) && Sorted(gs) && forall n :: HasName(fs, n) <==> HasName(gs, n)
    ensures |fs| == |gs| && forall i | 0 <= i < |fs| :: fs[i].name == gs[i].name
  {
    if fs == [] || gs == [] {
      if fs != [] {
        assert HasName(fs, fs[0].name);
      }
      if gs != [] {
        assert HasName(gs, gs[0].name);
      }
    } else {
      assert HasName(fs, fs[0].name) && HasName(gs, gs[0].name);
      var i :| 0 <= i < |gs| && gs[i].name == fs[0].name;
      var k :| 0 <= k < |fs| && fs[k].name == gs[0].name;
      LessTotal(fs[0].name, gs[0].name);
      assert fs[0].name == gs[0].name;
      forall n
        ensures HasName(fs[1..], n) <==> HasName(gs[1..], n)
      {
        TailNames(fs, n);
        TailNames(gs, n);
      }
      SortedNamesUnique(fs[1..], gs[1..]);
    }
  }

  lemma TailNames(fs: seq<Field>, n: Text)
    requires Sorted(fs) && fs != []
    ensures HasName(fs[1..], n) <==> HasName(fs, n) && n != fs[0].name
  {
    forall i | 0 < i < |fs|
      ensures fs[i].name != fs[0].name
    {
      LessTotal(fs[0].name, fs[i].name);
    }
    if HasName(fs, n) && n != fs[0].name {
      var i :| 0 <= i < |fs| && fs[i].name == n;
      assert fs[1..][i - 1].name == n;
    }
  }

  // ---------------------------------------------------------------------------------- serialisation

  function Serialize(j: Json): (t: Text)
    decreases j
  {
    match j
    case Null => LITERAL_NULL
    case Bool(b) => if b then LITERAL_TRUE else LITERAL_FALSE
    case Num(token) => token
    case Str(s) => Quote(s)
    case Arr(items) => [OPEN_ARRAY] + SerializeItems(items, j) + [CLOSE_ARRAY]
    case Obj(fields) => [OPEN_OBJECT] + SerializeFields(SortFields(fields), j) + [CLOSE_OBJECT]
  }

  function SerializeItems(items: seq<Json>, j: Json): Text
    requires forall i | 0 <= i < |items| :: items[i] < j
    decreases j, |items|
  {
    if items == [] then []
    else if |items| == 1 then Serialize(items[0])
    else Serialize(items[0]) + [COMMA] + SerializeItems(items[1..], j)
  }

  function SerializeFields(fields: seq<Field>, j: Json): Text
    requires forall f | f in fields :: f.value < j
    decreases j, |fields|
  {
    if fields == [] then []
    else if |fields| == 1 then Quote(fields[0].name) + [COLON] + Serialize(fields[0].value)
    else Quote(fields[0].name) + [COLON] + Serialize(fields[0].value) + [COMMA] + SerializeFields(fields[1..], j)
  }

  /** Text that can follow a value: nothing, or a comma or closing bracket. */
  predicate Follows(t: Text) {
    t == [] || t[0] == COMMA || t[0] == CLOSE_ARRAY || t[0] == CLOSE_OBJECT
  }

  /** How many characters at the start of the text can belong to a number token. */
  ghost function NumericLength(t: Text): nat {
    if t == [] || !IsNumeric(t[0]) then 0 else 1 + NumericLength(t[1..])
  }

  lemma {:induction false} TokenLength(a: Text, x: Text)
    requires (forall i | 0 <= i < |a| :: IsNumeric(a[i])) && Follows(x)
    ensures NumericLength(a + x) == |a|
  {
    if a == [] {
      assert a + x == x;
    } else {
      assert (a + x)[1..] == a[1..] + x;
      TokenLength(a[1..], x);
    }
  }

  lemma TokenUnique(a: Text, b: Text, x: Text, y: Text)
    requires (forall i | 0 <= i < |a| :: IsNumeric(a[i])) && (forall i | 0 <= i < |b| :: IsNumeric(b[i]))
    requires Follows(x) && Follows(y) && a + x == b + y
    ensures a == b && x == y
  {
    TokenLength(a, x);
    TokenLength(b, y);
    assert a == (a + x)[..|a|] && x == (a + x)[|a|..] && b == (b + y)[..|b|] && y == (b + y)[|b|..];
  }

  /** The kinds of values, told apart by the first character. */
  function Kind(u: Unit): nat {
    if u == 0x6E then 0 else if u == 0x74 then 1 else if u == 0x66 then 2 else if u == QUOTE then 3
    else if u == OPEN_ARRAY then 4 else if u == OPEN_OBJECT then 5 else if IsNumeric(u) then 6 else 7
  }

  function KindOf(j: Json): nat {
    match j
    case Null => 0
    case Bool(b) => if b then 1 else 2
    case Str(_) => 3
    case Arr(_) => 4
    case Obj(_) => 5
    case Num(_) => 6
  }

  lemma FirstUnit(j: Json)
    requires WellFormed(j)
    ensures Serialize(j) != [] && Kind(Serialize(j)[0]) == KindOf(j)
  {
  }

  /** Unique readability: a serialised value determines the value, up to key order, and where it ends. */
  lemma {:induction false} Unique(a: Json, b: Json, x: Text, y: Text)
    requires WellFormed(a) && WellFormed(b) && Follows(x) && Follows(y)
    requires Serialize(a) + x == Serialize(b) + y
    ensures Same(a, b) && x == y
    decreases a
  {
    FirstUnit(a);
    FirstUnit(b);
    assert Serialize(a)[0] == (Serialize(a) + x)[0] == (Serialize(b) + y)[0] == Serialize(b)[0];
    assert KindOf(a) == KindOf(b);
    match a
    case Num(s) => TokenUnique(s, b.token, x, y);
    case Str(s) => QuoteUnique(s, b.s, x, y);
    case Arr(items) => ArraysUnique(items, b.items, a, b, x, y);
    case Obj(fields) => ObjectsUnique(fields, b.fields, a, b, x, y);
    case _ => assert x == (Serialize(a) + x)[|Serialize(a)|..] && y == (Serialize(b) + y)[|Serialize(b)|..];
  }

  lemma {:induction false} ArraysUnique(xs: seq<Json>, ys: seq<Json>, a: Json, b: Json, x: Text, y: Text)
    requires a == Arr(xs) && b == Arr(ys) && WellFormed(a) && WellFormed(b) && Serialize(a) + x == Serialize(b) + y
    ensures Same(a, b) && x == y
    decreases a, |xs| + 1
  {
    assert (Serialize(a) + x)[1..] == SerializeItems(xs, a) + ([CLOSE_ARRAY] + x);
    assert (Serialize(b) + y)[1..] == SerializeItems(ys, b) + ([CLOSE_ARRAY] + y);
    ItemsUnique(xs, ys, a, b, x, y);
  }

  lemma FieldsBelow(fs: seq<Field>, a: Json)
    requires a == Obj(fs) && WellFormed(a)
    ensures forall f | f in SortFields(fs) :: f.value < a && WellFormed(f.value)
  {
    forall f | f in SortFields(fs)
      ensures f.value < a && WellFormed(f.value)
    {
      assert f in fs;
      var i :| 0 <= i < |fs| && fs[i] == f;
    }
  }

  lemma DropBracket(t: Text, x: Text)
    ensures ([OPEN_OBJECT] + t + [CLOSE_OBJECT] + x)[1..] == t + ([CLOSE_OBJECT] + x)
  {
  }

  lemma ObjectBody(fs: seq<Field>, a: Json, x: Text)
    requires a == Obj(fs) && forall f | f in SortFields(fs) :: f.value < a
    ensures (Serialize(a) + x)[1..] == SerializeFields(SortFields(fs), a) + ([CLOSE_OBJECT] + x)
  {
    DropBracket(SerializeFields(SortFields(fs), a), x);
  }

  lemma {:induction false} ObjectsUnique(fs: seq<Field>, gs: seq<Field>, a: Json, b: Json, x: Text, y: Text)
    requires a == Obj(fs) && b == Obj(gs) && WellFormed(a) && WellFormed(b) && Serialize(a) + x == Serialize(b) + y
    ensures Same(a, b) && x == y
    decreases a, |fs| + 1
  {
    FieldsBelow(fs, a);
    FieldsBelow(gs, b);
    ObjectBody(fs, a, x);
    ObjectBody(gs, b, y);
    FieldsUnique(SortFields(fs), SortFields(gs), a, b, x, y);
    SameFromSorted(fs, gs, a, b);
  }

  /** The text after the first item of a list that `x` follows. */
  ghost function AfterItem(xs: seq<Json>, a: Json, x: Text): Text
    requires xs != [] && forall i | 0 <= i < |xs| :: xs[i] < a
  {
    if |xs| == 1 then x else [COMMA] + (SerializeItems(xs[1..], a) + x)
  }

  lemma SplitItem(xs: seq<Json>, a: Json, x: Text)
    requires xs != [] && forall i | 0 <= i < |xs| :: xs[i] < a
    ensures SerializeItems(xs, a) + x == Serialize(xs[0]) + AfterItem(xs, a, x)
  {
  }

  lemma FirstOfItems(xs: seq<Json>, a: Json, x: Text)
    requires forall i | 0 <= i < |xs| :: xs[i] < a && WellFormed(xs[i])
    requires x != [] && x[0] == CLOSE_ARRAY
    ensures (SerializeItems(xs, a) + x)[0] == CLOSE_ARRAY <==> xs == []
  {
    if xs != [] {
      FirstUnit(xs[0]);
      SplitItem(xs, a, x);
    }
  }

  lemma {:induction false} ItemsUnique(xs: seq<Json>, ys: seq<Json>, a: Json, b: Json, x: Text, y: Text)
    requires (forall i | 0 <= i < |xs| :: xs[i] < a && WellFormed(xs[i]))
    requires (forall i | 0 <= i < |ys| :: ys[i] < b && WellFormed(ys[i]))
    requires SerializeItems(xs, a) + ([CLOSE_ARRAY] + x) == SerializeItems(ys, b) + ([CLOSE_ARRAY] + y)
    ensures |xs| == |ys| && (forall i | 0 <= i < |xs| :: Same(xs[i], ys[i])) && x == y
    decreases a, |xs|
  {
    var x', y' := [CLOSE_ARRAY] + x, [CLOSE_ARRAY] + y;
    FirstOfItems(xs, a, x');
    FirstOfItems(ys, b, y');
    if xs == [] {
      assert SerializeItems(xs, a) + x' == x' && SerializeItems(ys, b) + y' == y';
      assert x'[1..] == x && y'[1..] == y;
    } else {
      SplitItem(xs, a, x');
      SplitItem(ys, b, y');
      var u, v := AfterItem(xs, a, x'), AfterItem(ys, b, y');
      Unique(xs[0], ys[0], u, v);
      assert u[0] == v[0];
      assert u[1..] == v[1..];
      if |xs| == 1 {
        assert x'[1..] == x && y'[1..] == y;
      } else {
        assert u[1..] == SerializeItems(xs[1..], a) + x' && v[1..] == SerializeItems(ys[1..], b) + y';
        ItemsUnique(xs[1..], ys[1..], a, b, x, y);
        forall i | 0 <= i < |xs|
          ensures Same(xs[i], ys[i])
        {
          if i > 0 {
            assert Same(xs[1..][i - 1], ys[1..][i - 1]);
          }
        }
      }
    }
  }

  /** The text after the first field's name, and after its value. */
  ghost function AfterName(fs: seq<Field>, a: Json, x: Text): Text
    requires fs != [] && forall f | f in fs :: f.value < a
  {
    [COLON] + (Serialize(fs[0].value) + AfterField(fs, a, x))
  }

  ghost function AfterField(fs: seq<Field>, a: Json, x: Text): Text
    requires fs != [] && forall f | f in fs :: f.value < a
  {
    if |fs| == 1 then x else [COMMA] + (SerializeFields(fs[1..], a) + x)
  }

  lemma Regroup(n: Text, v: Text, r: Text, x: Text)
    ensures n + [COLON] + v + x == n + ([COLON] + (v + x))
    ensures n + [COLON] + v + [COMMA] + r + x == n + ([COLON] + (v + ([COMMA] + (r + x))))
  {
  }

  lemma SplitField(fs: seq<Field>, a: Json, x: Text)
    requires fs != [] && forall f | f in fs :: f.value < a
    ensures SerializeFields(fs, a) + x == Quote(fs[0].name) + AfterName(fs, a, x)
  {
    var n, v := Quote(fs[0].name), Serialize(fs[0].value);
    if |fs| == 1 {
      Regroup(n, v, [], x);
    } else {
      Regroup(n, v, SerializeFields(fs[1..], a), x);
    }
  }

  lemma FirstOfFields(fs: seq<Field>, a: Json, x: Text)
    requires forall f | f in fs :: f.value < a
    requires x != [] && x[0] == CLOSE_OBJECT
    ensures (SerializeFields(fs, a) + x)[0] == CLOSE_OBJECT <==> fs == []
  {
    if fs != [] {
      SplitField(fs, a, x);
      assert Quote(fs[0].name)[0] == QUOTE;
    }
  }

  lemma {:induction false} FieldsUnique(fs: seq<Field>, gs: seq<Field>, a: Json, b: Json, x: Text, y: Text)
    requires (forall f | f in fs :: f.value < a && WellFormed(f.value))
    requires (forall g | g in gs :: g.value < b && WellFormed(g.value))
    requires SerializeFields(fs, a) + ([CLOSE_OBJECT] + x) == SerializeFields(gs, b) + ([CLOSE_OBJECT] + y)
    ensures |fs| == |gs| && x == y
    ensures forall i | 0 <= i < |fs| :: fs[i].name == gs[i].name && Same(fs[i].value, gs[i].value)
    decreases a, |fs|, 1
  {
    var x', y' := [CLOSE_OBJECT] + x, [CLOSE_OBJECT] + y;
    FirstOfFields(fs, a, x');
    FirstOfFields(gs, b, y');
    if fs == [] {
      assert SerializeFields(fs, a) + x' == x' && SerializeFields(gs, b) + y' == y';
      assert x'[1..] == x && y'[1..] == y;
    } else {
      SplitField(fs, a, x');
      SplitField(gs, b, y');
      QuoteUnique(fs[0].name, gs[0].name, AfterName(fs, a, x'), AfterName(gs, b, y'));
      var u, v := AfterField(fs, a, x'), AfterField(gs, b, y');
      assert AfterName(fs, a, x')[1..] == Serialize(fs[0].value) + u;
      assert AfterName(gs, b, y')[1..] == Serialize(gs[0].value) + v;
      assert fs[0] in fs && gs[0] in gs;
      Unique(fs[0].value, gs[0].value, u, v);
      assert u[0] == v[0];
      assert u[1..] == v[1..];
      if |fs| == 1 {
        assert x'[1..] == x && y'[1..] == y;
      } else {
        FieldsRest(fs, gs, a, b, x, y);
      }
    }
  }

  lemma {:induction false} FieldsRest(fs: seq<Field>, gs: seq<Field>, a: Json, b: Json, x: Text, y: Text)
    requires |fs| > 1 && |gs| > 1
    requires (forall f | f in fs :: f.value < a && WellFormed(f.value))
    requires (forall g | g in gs :: g.value < b && WellFormed(g.value))
    requires fs[0].name == gs[0].name && Same(fs[0].value, gs[0].value)
    requires AfterField(fs, a, [CLOSE_OBJECT] + x)[1..] == AfterField(gs, b, [CLOSE_OBJECT] + y)[1..]
    ensures |fs| == |gs| && x == y
    ensures forall i | 0 <= i < |fs| :: fs[i].name == gs[i].name && Same(fs[i].value, gs[i].value)
    decreases a, |fs|, 0
  {
    assert AfterField(fs, a, [CLOSE_OBJECT] + x)[1..] == SerializeFields(fs[1..], a) + ([CLOSE_OBJECT] + x);
    assert AfterField(gs, b, [CLOSE_OBJECT] + y)[1..] == SerializeFields(gs[1..], b) + ([CLOSE_OBJECT] + y);
    FieldsUnique(fs[1..], gs[1..], a, b, x, y);
    forall i | 0 <= i < |fs|
      ensures fs[i].name == gs[i].name && Same(fs[i].value, gs[i].value)
    {
      if i > 0 {
        assert fs[i] == fs[1..][i - 1] && gs[i] == gs[1..][i - 1];
      }
    }
  }

  /** Entries with one name stand at one place of two lists that are sorted alike. */
  lemma SamePlace(p: seq<Field>, q: seq<Field>, f: Field, g: Field)
    requires Sorted(p) && Sorted(q) && |p| == |q|
    requires forall i | 0 <= i < |p| :: p[i].name == q[i].name && Same(p[i].value, q[i].value)
    requires f in p && g in q && f.name == g.name
    ensures Same(f.value, g.value)
  {
    hide Same, Less;
    var i :| 0 <= i < |p| && p[i] == f;
    var k :| 0 <= k < |q| && q[k] == g;
    LessTotal(p[i].name, p[k].name);
  }

  lemma SameFromSorted(fs: seq<Field>, gs: seq<Field>, a: Json, b: Json)
    requires a == Obj(fs) && b == Obj(gs) && DistinctNames(fs) && DistinctNames(gs)
    requires var p, q := SortFields(fs), SortFields(gs);
      |p| == |q| && forall i | 0 <= i < |p| :: p[i].name == q[i].name && Same(p[i].value, q[i].value)
    ensures Same(a, b)
  {
    hide SortFields, Sorted;
    var p, q := SortFields(fs), SortFields(gs);
    SortSorted(fs);
    SortSorted(gs);
    forall i, k | 0 <= i < |fs| && 0 <= k < |gs| && fs[i].name == gs[k].name
      ensures Same(fs[i].value, gs[k].value)
    {
      assert fs[i] in p && gs[k] in q;
      SamePlace(p, q, fs[i], gs[k]);
    }
    forall n
      ensures HasName(fs, n) <==> HasName(gs, n)
    {
      NamesKept(fs, p, n);
      NamesKept(gs, q, n);
      assert HasName(p, n) <==> HasName(q, n);
    }
  }

  lemma NamesKept(fs: seq<Field>, p: seq<Field>, n: Text)
    requires forall f :: f in fs <==> f in p
    ensures HasName(fs, n) <==> HasName(p, n)
  {
    if HasName(fs, n) {
      var i :| 0 <= i < |fs| && fs[i].name == n;
      assert fs[i] in p;
    }
    if HasName(p, n) {
      var i :| 0 <= i < |p| && p[i].name == n;
      assert p[i] in fs;
    }
  }

  /** Key order does not matter: the same value serialises the same. */
  lemma {:induction false} SameSerializes(a: Json, b: Json)
    requires WellFormed(a) && WellFormed(b) && Same(a, b)
    ensures Serialize(a) == Serialize(b)
    decreases a
  {
    match (a, b)
    case (Arr(xs), Arr(ys)) => SameItems(xs, ys, a, b);
    case (Obj(fs), Obj(gs)) =>
      var p, q := SortFields(fs), SortFields(gs);
      SortSorted(fs);
      SortSorted(gs);
      forall n
        ensures HasName(p, n) <==> HasName(q, n)
      {
        NamesKept(fs, p, n);
        NamesKept(gs, q, n);
      }
      SortedNamesUnique(p, q);
      forall i | 0 <= i < |p|
        ensures p[i].value < a && q[i].value < b && WellFormed(p[i].value) && WellFormed(q[i].value)
        ensures Same(p[i].value, q[i].value)
      {
        assert p[i] in fs && q[i] in gs;
      }
      SameFields(p, q, a, b);
    case _ =>
  }

  lemma {:induction false} SameItems(xs: seq<Json>, ys: seq<Json>, a: Json, b: Json)
    requires |xs| == |ys|
    requires forall i | 0 <= i < |xs| ::
      xs[i] < a && ys[i] < b && WellFormed(xs[i]) && WellFormed(ys[i]) && Same(xs[i], ys[i])
    ensures SerializeItems(xs, a) == SerializeItems(ys, b)
    decreases a, |xs|
  {
    if xs != [] {
      SameSerializes(xs[0], ys[0]);
      SameItems(xs[1..], ys[1..], a, b);
    }
  }

  lemma {:induction false} SameFields(fs: seq<Field>, gs: seq<Field>, a: Json, b: Json)
    requires |fs| == |gs|
    requires forall i | 0 <= i < |fs| ::
      && fs[i].value < a && gs[i].value < b && WellFormed(fs[i].value) && WellFormed(gs[i].value)
      && fs[i].name == gs[i].name && Same(fs[i].value, gs[i].value)
    ensures SerializeFields(fs, a) == SerializeFields(gs, b)
    decreases a, |fs|
  {
    if fs != [] {
      SameSerializes(fs[0].value, gs[0].value);
      SameFields(fs[1..], gs[1..], a, b);
    }
  }

  /** Values serialise alike exactly when they are the same up to key order. */
  lemma SerializeInjective(a: Json, b: Json)
    requires WellFormed(a) && WellFormed(b)
    ensures Serialize(a) == Serialize(b) <==> Same(a, b)
  {
    if Serialize(a) == Serialize(b) {
      assert Serialize(a) + [] == Serialize(b) + [];
      Unique(a, b, [], []);
    }
    if Same(a, b) {
      SameSerializes(a, b);
    }
  }

  // ------------------------------------------------------------------------ the escapes, one by one

  /** The unit written as four small hexadecimal digits. */
  ghost predicate IsHexOf(t: Text, u: Unit) {
    && |t| == 4
    && (forall i | 0 <= i < 4 :: 0x30 <= t[i] <= 0x39 || 0x61 <= t[i] <= 0x66)
    && u == 4096 * Nibble(t[0]) + 256 * Nibble(t[1]) + 16 * Nibble(t[2]) + Nibble(t[3])
  }

  ghost function Nibble(u: Unit): int {
    if u <= 0x39 then u - 0x30 else u - 0x61 + 10
  }

  /**
    As section 25.5.2 of ECMA-262 has it: a unit stands for itself unless it is a control, a quotation mark, a backslash
    or a surrogate; five controls and those two marks have a short escape, and the others their code; a pair of
    surrogates stands for itself.
   */
  lemma EscapesAre(u: Unit, low: Unit, rest: Text)
    ensures EscapeUnit(u) == [u] <==> 0x20 <= u && u != 0x22 && u != 0x5C && !(0xD800 <= u <= 0xDFFF)
    ensures EscapeUnit(0x08) == [0x5C, 0x62] && EscapeUnit(0x09) == [0x5C, 0x74] && EscapeUnit(0x0A) == [0x5C, 0x6E]
    ensures EscapeUnit(0x0C) == [0x5C, 0x66] && EscapeUnit(0x0D) == [0x5C, 0x72]
    ensures EscapeUnit(0x22) == [0x5C, 0x22] && EscapeUnit(0x5C) == [0x5C, 0x5C]
    ensures EscapeUnit(u) == [u] || u in {0x08, 0x09, 0x0A, 0x0C, 0x0D, 0x22, 0x5C}
            || (EscapeUnit(u)[..2] == [0x5C, 0x75] && IsHexOf(EscapeUnit(u)[2..], u))
    ensures Escape([u, low] + rest)
         == if 0xD800 <= u <= 0xDBFF && 0xDC00 <= low <= 0xDFFF then [u, low] + Escape(rest)
            else EscapeUnit(u) + Escape([low] + rest)
  {
    HexIsRead(u);
    PairsStand(u, low, rest);
    hide Escape, UnicodeEscape, IsHexOf;
  }

  lemma HexIsRead(u: Unit)
    ensures UnicodeEscape(u)[..2] == [0x5C, 0x75] && IsHexOf(UnicodeEscape(u)[2..], u) && |UnicodeEscape(u)| == 6
  {
    HexDigits(u);
  }

  lemma PairsStand(u: Unit, low: Unit, rest: Text)
    ensures Escape([u, low] + rest)
         == if IsHigh(u) && IsLow(low) then [u, low] + Escape(rest) else EscapeUnit(u) + Escape([low] + rest)
  {
    hide EscapeUnit;
    assert ([u, low] + rest)[1..] == [low] + rest && ([u, low] + rest)[2..] == rest;
  }
}
