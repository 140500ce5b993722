/**
 Comparison-based sorting and the string order behind it.

 The repository sorts with JavaScript's stable `Array.prototype.sort` and breaks
 ties on identifiers. Here a comparator is a strict relation `before(a, b)`
 ("a sorts ahead of b"); identifiers are ordered by code unit.
 */
module Sorting {

  /** A comparator that is consistent: irreflexive, transitive, and with
      transitive ties. Two different elements may still tie. */
  ghost predicate StrictWeak<T(!new)>(before: (T, T) -> bool) {
    && (forall x :: !before(x, x))
    && (forall x, y, z :: before(x, y) && before(y, z) ==> before(x, z))
    && (forall x, y, z :: before(x, z) ==> before(x, y) || before(y, z))
  }

  /** No two different elements of `s` tie. */
  ghost predicate NoTies<T(!new)>(before: (T, T) -> bool, s: seq<T>) {
    forall x, y :: x in s && y in s && x != y ==> before(x, y) || before(y, x)
  }

  /** Nothing later in `s` should have come earlier. */
  ghost predicate Sorted<T>(before: (T, T) -> bool, s: seq<T>) {
    forall i, j :: 0 <= i < j < |s| ==> !before(s[j], s[i])
  }

  ghost predicate StrictlySorted<T>(before: (T, T) -> bool, s: seq<T>) {
    forall i, j :: 0 <= i < j < |s| ==> before(s[i], s[j])
  }

  ghost predicate Distinct<T>(s: seq<T>) {
    forall i, j :: 0 <= i < j < |s| ==> s[i] != s[j]
  }

  /** Places `x` ahead of everything it does not have to follow. */
  function Insert<T>(before: (T, T) -> bool, x: T, s: seq<T>): seq<T> {
    if s == [] || !before(s[0], x) then [x] + s
    else [s[0]] + Insert(before, x, s[1..])
  }

  /** Stable sort. */
  function Sort<T>(before: (T, T) -> bool, s: seq<T>): seq<T> {
    if s == [] then [] else Insert(before, s[0], Sort(before, s[1..]))
  }

  lemma {:induction false} InsertPermutes<T>(before: (T, T) -> bool, x: T, s: seq<T>)
    ensures multiset(Insert(before, x, s)) == multiset{x} + multiset(s)
  {
    if s == [] || !before(s[0], x) {
    } else {
      InsertPermutes(before, x, s[1..]);
      assert s == [s[0]] + s[1..];
    }
  }

  lemma {:induction false} SortPermutes<T>(before: (T, T) -> bool, s: seq<T>)
    ensures multiset(Sort(before, s)) == multiset(s)
  {
    if s != [] {
      SortPermutes(before, s[1..]);
      InsertPermutes(before, s[0], Sort(before, s[1..]));
      assert s == [s[0]] + s[1..];
    }
  }

  lemma {:induction false} SameElements<T>(a: seq<T>, b: seq<T>)
    requires multiset(a) == multiset(b)
    ensures |a| == |b|
    ensures forall x :: x in a <==> x in b
  {
    assert |multiset(a)| == |multiset(b)|;
    forall x ensures x in a <==> x in b {
      assert x in a <==> x in multiset(a);
      assert x in b <==> x in multiset(b);
    }
  }

  lemma {:induction false} InsertSorted<T(!new)>(before: (T, T) -> bool, x: T, s: seq<T>)
    requires StrictWeak(before) && Sorted(before, s)
    ensures Sorted(before, Insert(before, x, s))
  {
    var r := Insert(before, x, s);
    if s == [] {
    } else if !before(s[0], x) {
      forall i, j | 0 <= i < j < |r| ensures !before(r[j], r[i]) {
        if i == 0 && j > 1 { assert !before(s[j - 1], s[0]); }
      }
    } else {
      var t := Insert(before, x, s[1..]);
      InsertSorted(before, x, s[1..]);
      InsertPermutes(before, x, s[1..]);
      forall i, j | 0 <= i < j < |r| ensures !before(r[j], r[i]) {
        if i == 0 {
          assert t[j - 1] in multiset(t);
          assert t[j - 1] == x || t[j - 1] in s[1..];
        }
      }
    }
  }

  lemma {:induction false} SortSorted<T(!new)>(before: (T, T) -> bool, s: seq<T>)
    requires StrictWeak(before)
    ensures Sorted(before, Sort(before, s))
  {
    if s != [] {
      SortSorted(before, s[1..]);
      InsertSorted(before, s[0], Sort(before, s[1..]));
    }
  }

  /** Distinct elements without ties sort strictly. */
  lemma {:induction false} SortStrict<T(!new)>(before: (T, T) -> bool, s: seq<T>)
    requires StrictWeak(before) && NoTies(before, s) && Distinct(s)
    ensures StrictlySorted(before, Sort(before, s))
  {
    var r := Sort(before, s);
    SortSorted(before, s);
    SortPermutes(before, s);
    SameElements(r, s);
    DistinctPermutes(s, r);
    forall i, j | 0 <= i < j < |r| ensures before(r[i], r[j]) {
      assert r[i] in r && r[j] in r;
    }
  }

  lemma {:induction false} DistinctIffMultiplicity<T>(s: seq<T>)
    ensures Distinct(s) <==> forall x :: multiset(s)[x] <= 1
  {
    if s != [] {
      var t := s[1..];
      assert s == [s[0]] + t;
      DistinctIffMultiplicity(t);
      assert forall x :: multiset(s)[x] == multiset(t)[x] + if x == s[0] then 1 else 0;
      assert s[0] in t <==> multiset(t)[s[0]] > 0;
      if Distinct(s) {
        assert Distinct(t);
        assert s[0] !in t;
      }
      if forall x :: multiset(s)[x] <= 1 {
        assert forall x :: multiset(t)[x] <= multiset(s)[x];
        assert Distinct(t);
        assert multiset(s)[s[0]] <= 1;
        assert s[0] !in t;
        forall i, j | 0 <= i < j < |s| ensures s[i] != s[j] {
          if i == 0 { assert t[j - 1] in t; } else { assert t[i - 1] != t[j - 1]; }
        }
      }
    }
  }

  lemma {:induction false} DistinctPermutes<T>(s: seq<T>, r: seq<T>)
    requires Distinct(s) && multiset(s) == multiset(r)
    ensures Distinct(r)
  {
    DistinctIffMultiplicity(s);
    DistinctIffMultiplicity(r);
  }

  /** A strictly sorted arrangement of given elements is unique. */
  lemma {:induction false} StrictlySortedUnique<T(!new)>(before: (T, T) -> bool, a: seq<T>, b: seq<T>)
    requires StrictWeak(before)
    requires StrictlySorted(before, a) && StrictlySorted(before, b)
    requires forall x :: x in a <==> x in b
    ensures a == b
  {
    if a == [] {
      assert forall i :: 0 <= i < |b| ==> b[i] in b;
    } else {
      assert a[0] in a;
      assert b != [];
      assert b[0] in b;
      var i :| 0 <= i < |b| && b[i] == a[0];
      var j :| 0 <= j < |a| && a[j] == b[0];
      assert a[0] == b[0];
      forall x ensures x in a[1..] <==> x in b[1..] {
        if x in a[1..] {
          var k :| 1 <= k < |a| && a[k] == x;
          assert x != a[0] && x in a;
        }
        if x in b[1..] {
          var k :| 1 <= k < |b| && b[k] == x;
          assert x != b[0] && x in b;
        }
      }
      StrictlySortedUnique(before, a[1..], b[1..]);
      assert a == [a[0]] + a[1..] && b == [b[0]] + b[1..];
    }
  }

  lemma {:induction false} StrictlySortedDistinct<T(!new)>(before: (T, T) -> bool, s: seq<T>)
    requires StrictWeak(before) && StrictlySorted(before, s)
    ensures Distinct(s)
  {
  }

  /** The elements of `s` that satisfy `keep`, in order. */
  function Filter<T>(s: seq<T>, keep: T -> bool): seq<T> {
    if s == [] then []
    else if keep(s[|s| - 1]) then Filter(s[..|s| - 1], keep) + [s[|s| - 1]]
    else Filter(s[..|s| - 1], keep)
  }

  lemma {:induction false} FilterIn<T>(s: seq<T>, keep: T -> bool)
    ensures forall x :: x in Filter(s, keep) <==> x in s && keep(x)
    ensures |Filter(s, keep)| <= |s|
  {
    if s != [] {
      FilterIn(s[..|s| - 1], keep);
      assert s == s[..|s| - 1] + [s[|s| - 1]];
    }
  }

  lemma {:induction false} FilterNone<T>(s: seq<T>, keep: T -> bool)
    requires forall x :: x in s ==> !keep(x)
    ensures Filter(s, keep) == []
  {
    if s != [] { FilterNone(s[..|s| - 1], keep); }
  }

  lemma {:induction false} FilterAll<T>(s: seq<T>, keep: T -> bool)
    requires forall x :: x in s ==> keep(x)
    ensures Filter(s, keep) == s
  {
    if s != [] {
      FilterAll(s[..|s| - 1], keep);
      assert s[..|s| - 1] + [s[|s| - 1]] == s;
    }
  }

  lemma {:induction false} FilterAgree<T>(s: seq<T>, p: T -> bool, q: T -> bool)
    requires forall x :: x in s ==> p(x) == q(x)
    ensures Filter(s, p) == Filter(s, q)
  {
    if s != [] { FilterAgree(s[..|s| - 1], p, q); }
  }

  lemma {:induction false} FilterAppend<T>(s: seq<T>, t: seq<T>, keep: T -> bool)
    ensures Filter(s + t, keep) == Filter(s, keep) + Filter(t, keep)
  {
    if t == [] {
      assert s + t == s;
    } else {
      var t0 := t[..|t| - 1];
      FilterAppend(s, t0, keep);
      assert (s + t)[..|s + t| - 1] == s + t0;
    }
  }

  lemma {:induction false} FilterKeepsStrict<T(!new)>(before: (T, T) -> bool, s: seq<T>, keep: T -> bool)
    requires StrictlySorted(before, s)
    ensures StrictlySorted(before, Filter(s, keep))
  {
    if s != [] {
      FilterKeepsStrict(before, s[..|s| - 1], keep);
      FilterIn(s[..|s| - 1], keep);
      var f := Filter(s[..|s| - 1], keep);
      forall i | 0 <= i < |f| ensures before(f[i], s[|s| - 1]) {
        assert f[i] in f;
      }
    }
  }

  lemma {:induction false} FilterMultiset<T>(s: seq<T>, keep: T -> bool)
    ensures forall x :: multiset(Filter(s, keep))[x] == if keep(x) then multiset(s)[x] else 0
  {
    if s != [] {
      FilterMultiset(s[..|s| - 1], keep);
      assert s == s[..|s| - 1] + [s[|s| - 1]];
    }
  }

  /** Code-unit order on strings: JavaScript's `<`, and the order used for `localeCompare`. */
  predicate LexLess(a: string, b: string) {
    b != [] && (a == [] || a[0] < b[0] || (a[0] == b[0] && LexLess(a[1..], b[1..])))
  }

  /** What the order is: at the first place where the strings differ, the one that has
      ended or has the smaller character comes first. */
  lemma {:induction false} LexFirstDifference(a: string, b: string)
    ensures LexLess(a, b) <==>
            exists i :: 0 <= i <= |a| && i < |b| && a[..i] == b[..i] && (i == |a| || a[i] < b[i])
  {
    if b != [] && a != [] && a[0] == b[0] {
      LexFirstDifference(a[1..], b[1..]);
      if i :| 0 <= i <= |a[1..]| && i < |b[1..]| && a[1..][..i] == b[1..][..i]
              && (i == |a[1..]| || a[1..][i] < b[1..][i]) {
        assert a[..i + 1] == [a[0]] + a[1..][..i] && b[..i + 1] == [b[0]] + b[1..][..i];
      }
      if i :| 0 <= i <= |a| && i < |b| && a[..i] == b[..i] && (i == |a| || a[i] < b[i]) {
        assert i > 0 && a[1..][..i - 1] == a[..i][1..] && b[1..][..i - 1] == b[..i][1..];
      }
    } else if b != [] {
      assert a[..0] == b[..0];
      if i :| 0 <= i <= |a| && i < |b| && a[..i] == b[..i] && (i == |a| || a[i] < b[i]) {
        assert i > 0 ==> a[..i][0] == b[..i][0];
      }
    }
  }

  lemma {:induction false} LexTransitive(a: string, b: string, c: string)
    requires LexLess(a, b) && LexLess(b, c)
    ensures LexLess(a, c)
    decreases |a|
  {
    if a != [] && a[0] == b[0] == c[0] {
      LexTransitive(a[1..], b[1..], c[1..]);
    }
  }

  lemma {:induction false} LexIrreflexive(a: string)
    ensures !LexLess(a, a)
  {
    if a != [] { LexIrreflexive(a[1..]); }
  }

  lemma {:induction false} LexAsymmetric(a: string, b: string)
    requires LexLess(a, b)
    ensures !LexLess(b, a)
  {
    if LexLess(b, a) {
      LexTransitive(a, b, a);
      LexIrreflexive(a);
    }
  }

  lemma {:induction false} LexTotal(a: string, b: string)
    ensures a == b || LexLess(a, b) || LexLess(b, a)
  {
    if a != [] && b != [] && a[0] == b[0] {
      LexTotal(a[1..], b[1..]);
      assert a == [a[0]] + a[1..] && b == [b[0]] + b[1..];
    }
  }

  /** Code-unit order is a strict total order on strings. */
  lemma {:induction false} LexStrictTotal()
    ensures StrictWeak(LexLess)
    ensures forall a, b :: a == b || LexLess(a, b) || LexLess(b, a)
  {
    forall a ensures !LexLess(a, a) { LexIrreflexive(a); }
    forall a, b, c | LexLess(a, b) && LexLess(b, c) ensures LexLess(a, c) { LexTransitive(a, b, c); }
    forall a, b ensures a == b || LexLess(a, b) || LexLess(b, a) { LexTotal(a, b); }
    forall x, y, z | LexLess(x, z) ensures LexLess(x, y) || LexLess(y, z) {
      LexTotal(x, y);
    }
  }
}
