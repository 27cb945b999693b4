/** Stable sorting by a comparison, as `Array.prototype.sort` does it, and its three properties. */
module Sorting {
  ghost predicate TotalPreorder<T(!new)>(le: (T, T) -> bool) {
    && (forall a, b :: le(a, b) || le(b, a))
    && (forall a, b, c :: le(a, b) && le(b, c) ==> le(a, c))
  }

  ghost predicate SortedBy<T>(s: seq<T>, le: (T, T) -> bool) {
    forall i, j | 0 <= i < j < |s| :: le(s[i], s[j])
  }

  function Insert<T>(x: T, s: seq<T>, le: (T, T) -> bool): seq<T> {
    if s == [] || le(x, s[0]) then [x] + s else [s[0]] + Insert(x, s[1..], le)
  }

  function Sort<T>(s: seq<T>, le: (T, T) -> bool): seq<T> {
    if s == [] then [] else Insert(s[0], Sort(s[1..], le), le)
  }

  lemma {:induction false} InsertPermutes<T>(x: T, s: seq<T>, le: (T, T) -> bool)
    ensures multiset(Insert(x, s, le)) == multiset(s)[x := multiset(s)[x] + 1]
  {
    if s != [] && !le(x, s[0]) {
      InsertPermutes(x, s[1..], le);
      assert s == [s[0]] + s[1..];
    }
  }

  lemma {:induction false} SortPermutes<T>(s: seq<T>, le: (T, T) -> bool)
    ensures multiset(Sort(s, le)) == multiset(s)
  {
    if s != [] {
      SortPermutes(s[1..], le);
      InsertPermutes(s[0], Sort(s[1..], le), le);
      assert s == [s[0]] + s[1..];
    }
  }

  lemma {:induction false} InsertSorts<T(!new)>(x: T, s: seq<T>, le: (T, T) -> bool)
    requires TotalPreorder(le) && SortedBy(s, le)
    ensures SortedBy(Insert(x, s, le), le)
  {
    if s != [] {
      if le(x, s[0]) {
        forall j | 0 < j < |s|
          ensures le(x, s[j])
        {
          assert le(s[0], s[j]);
        }
      } else {
        InsertSorts(x, s[1..], le);
        InsertPermutes(x, s[1..], le);
        var r := Insert(x, s[1..], le);
        forall j | 0 <= j < |r|
          ensures le(s[0], r[j])
        {
          assert r[j] in multiset(r);
          assert r[j] == x || r[j] in s[1..];
        }
      }
    }
  }

  lemma {:induction false} SortSorts<T(!new)>(s: seq<T>, le: (T, T) -> bool)
    requires TotalPreorder(le)
    ensures SortedBy(Sort(s, le), le)
  {
    if s != [] {
      SortSorts(s[1..], le);
      InsertSorts(s[0], Sort(s[1..], le), le);
    }
  }

  lemma {:induction false} SortOfSorted<T>(s: seq<T>, le: (T, T) -> bool)
    requires SortedBy(s, le)
    ensures Sort(s, le) == s
  {
    if s != [] {
      SortOfSorted(s[1..], le);
      assert |s| > 1 ==> le(s[0], s[1]);
      assert s == [s[0]] + s[1..];
    }
  }

  /** Where an element lands: after everything it is not below. */
  lemma {:induction false} InsertLands<T>(x: T, s: seq<T>, le: (T, T) -> bool) returns (k: nat)
    ensures k <= |s| && Insert(x, s, le) == s[..k] + [x] + s[k..]
    ensures forall m | 0 <= m < k :: !le(x, s[m])
  {
    if s == [] || le(x, s[0]) {
      k := 0;
    } else {
      k := InsertLands(x, s[1..], le);
      k := k + 1;
      assert s == [s[0]] + s[1..];
    }
  }

  /** Elements that tie keep their order. */
  lemma {:induction false} SortIsStable<T>(s: seq<T>, le: (T, T) -> bool, i: nat, j: nat) returns (a: nat, b: nat)
    requires i < j < |Sort(s, le)| && le(Sort(s, le)[j], Sort(s, le)[i])
    ensures a < b < |s| && s[a] == Sort(s, le)[i] && s[b] == Sort(s, le)[j]
  {
    hide Insert;
    var rest := Sort(s[1..], le);
    var k := InsertLands(s[0], rest, le);
    if i == k {
      SortPermutes(s[1..], le);
      assert rest[j - 1] in multiset(s[1..]);
      a := 0;
      b :| 0 < b < |s| && s[b] == rest[j - 1];
    } else {
      a, b := SortIsStable(s[1..], le, if i < k then i else i - 1, if j < k then j else j - 1);
      a, b := a + 1, b + 1;
    }
  }

  ghost predicate HasDistinct<T, K(!new)>(s: seq<T>, key: T -> K) {
    forall i, j | 0 <= i < j < |s| :: key(s[i]) != key(s[j])
  }

  /** Keys distinct in a list stay distinct in every rearrangement of it. */
  lemma DistinctPermuted<T, K(!new)>(a: seq<T>, b: seq<T>, key: T -> K)
    requires HasDistinct(a, key) && multiset(a) == multiset(b)
    ensures HasDistinct(b, key)
  {
    forall i, j | 0 <= i < j < |b|
      ensures key(b[i]) != key(b[j])
    {
      assert b[i] in multiset(b) && b[j] in multiset(b);
      assert b[i] in a && b[j] in a;
      Twice(b, i, j);
      OnceAtMost(a, b[i], key);
    }
  }

  lemma Twice<T>(s: seq<T>, i: nat, j: nat)
    requires i < j < |s|
    ensures s[i] == s[j] ==> multiset(s)[s[i]] >= 2
  {
    assert s == s[..j] + [s[j]] + s[j + 1..];
    assert s[..j][i] == s[i];
    assert s[i] in multiset(s[..j]);
  }

  lemma {:induction false} OnceAtMost<T, K(!new)>(s: seq<T>, x: T, key: T -> K)
    requires HasDistinct(s, key)
    ensures multiset(s)[x] <= 1
  {
    if s != [] {
      var rest := s[1..];
      assert forall i | 0 <= i < |rest| :: rest[i] == s[i + 1];
      OnceAtMost(rest, x, key);
      assert s == [s[0]] + rest;
      assert x == s[0] ==> x !in rest;
      assert x !in rest ==> x !in multiset(rest);
    }
  }

  /** Descending by the first differing number. */
  predicate AtLeast(xs: seq<real>, ys: seq<real>)
    requires |xs| == |ys|
  {
    xs == [] || xs[0] > ys[0] || (xs[0] == ys[0] && AtLeast(xs[1..], ys[1..]))
  }

  lemma {:induction false} AtLeastTotal(xs: seq<real>, ys: seq<real>)
    requires |xs| == |ys|
    ensures AtLeast(xs, ys) || AtLeast(ys, xs)
    ensures AtLeast(xs, ys) && AtLeast(ys, xs) <==> xs == ys
  {
    if xs != [] {
      AtLeastTotal(xs[1..], ys[1..]);
      assert xs == [xs[0]] + xs[1..] && ys == [ys[0]] + ys[1..];
    }
  }

  lemma {:induction false} AtLeastTransitive(xs: seq<real>, ys: seq<real>, zs: seq<real>)
    requires |xs| == |ys| == |zs| && AtLeast(xs, ys) && AtLeast(ys, zs)
    ensures AtLeast(xs, zs)
  {
    if xs != [] && xs[0] == ys[0] == zs[0] {
      AtLeastTransitive(xs[1..], ys[1..], zs[1..]);
    }
  }

  /** What the order says of the first five numbers. */
  lemma FirstFive(xs: seq<real>, ys: seq<real>)
    requires |xs| == |ys| >= 5 && AtLeast(xs, ys)
    ensures xs[0] >= ys[0]
    ensures xs[0] == ys[0] ==> xs[1] >= ys[1]
    ensures xs[..2] == ys[..2] ==> xs[2] >= ys[2]
    ensures xs[..3] == ys[..3] ==> xs[3] >= ys[3]
    ensures xs[..4] == ys[..4] ==> xs[4] >= ys[4]
    ensures xs[..5] == ys[..5] ==> AtLeast(xs[5..], ys[5..])
  {
    NthOf(xs, ys, 1);
    NthOf(xs, ys, 2);
    NthOf(xs, ys, 3);
    NthOf(xs, ys, 4);
    NthOf(xs, ys, 5);
  }

  /** Where the first `n` numbers tie, the rest decides. */
  lemma {:induction false} NthOf(xs: seq<real>, ys: seq<real>, n: nat)
    requires |xs| == |ys| >= n && AtLeast(xs, ys)
    ensures xs[..n] == ys[..n] ==> AtLeast(xs[n..], ys[n..])
  {
    if n > 0 && xs[..n] == ys[..n] {
      assert xs[..n][0] == xs[0] && ys[..n][0] == ys[0];
      assert xs[1..][..n - 1] == xs[..n][1..] && ys[1..][..n - 1] == ys[..n][1..];
      NthOf(xs[1..], ys[1..], n - 1);
      assert xs[1..][n - 1..] == xs[n..] && ys[1..][n - 1..] == ys[n..];
    } else if n == 0 {
      assert xs[0..] == xs && ys[0..] == ys;
    }
  }
}
