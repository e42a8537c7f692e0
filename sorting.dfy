/** Python's `list.sort(key=...)` and `sorted(..., key=...)` on a real-valued key.
    Both are stable; `reverse=True` keeps equal keys in input order as well, so a
    descending sort is the stable ascending sort by the negated key. */
module Sorting {

  predicate SortedBy<T>(s: seq<T>, key: T -> real) {
    forall i, j :: 0 <= i < j < |s| ==> key(s[i]) <= key(s[j])
  }

  /** The elements of `s` have pairwise different projections under `f`. */
  predicate DistinctBy<T, U(==)>(s: seq<T>, f: T -> U) {
    forall i, j :: 0 <= i < j < |s| ==> f(s[i]) != f(s[j])
  }

  /** Puts `x` in front of the first element whose key is not smaller, so that `x`
      stays ahead of the elements with an equal key. */
  function Insert<T>(x: T, s: seq<T>, key: T -> real): (r: seq<T>)
    ensures |r| == |s| + 1
    ensures multiset(r) == multiset(s) + multiset{x}
  {
    if s == [] || key(x) <= key(s[0]) then [x] + s
    else
      assert s == [s[0]] + s[1..];
      [s[0]] + Insert(x, s[1..], key)
  }

  function SortBy<T>(s: seq<T>, key: T -> real): (r: seq<T>)
    ensures |r| == |s|
    ensures multiset(r) == multiset(s)
  {
    if s == [] then []
    else
      assert s == [s[0]] + s[1..];
      Insert(s[0], SortBy(s[1..], key), key)
  }

  lemma {:induction false} InsertSorted<T>(x: T, s: seq<T>, key: T -> real)
    requires SortedBy(s, key)
    ensures SortedBy(Insert(x, s, key), key)
  {
    if s != [] && key(x) > key(s[0]) {
      InsertSorted(x, s[1..], key);
      var t := Insert(x, s[1..], key);
      assert t[0] == x || t[0] == s[1] by {
        if |s| == 1 || key(x) <= key(s[1]) {
        } else {
          assert t == [s[1]] + Insert(x, s[2..], key);
        }
      }
    }
  }

  /** The sort's result is ordered by the key. */
  lemma {:induction false} SortSorted<T>(s: seq<T>, key: T -> real)
    ensures SortedBy(SortBy(s, key), key)
  {
    if s != [] {
      SortSorted(s[1..], key);
      InsertSorted(s[0], SortBy(s[1..], key), key);
    }
  }

  /** The sort holds the same elements as its input. */
  lemma SortMembers<T>(s: seq<T>, key: T -> real)
    ensures forall x :: x in SortBy(s, key) <==> x in s
  {
    var r := SortBy(s, key);
    forall x ensures x in r <==> x in s {
      assert x in r <==> x in multiset(r);
      assert x in s <==> x in multiset(s);
    }
  }

  /** Sorting an already sorted sequence changes nothing (a stable sort moves no element
      past an equal one). */
  lemma {:induction false} SortOfSorted<T>(s: seq<T>, key: T -> real)
    requires SortedBy(s, key)
    ensures SortBy(s, key) == s
  {
    if s != [] {
      SortOfSorted(s[1..], key);
      assert s == [s[0]] + s[1..];
    }
  }

  /** The elements of `s` whose key is `k`, in their order in `s`. */
  function WithKey<T>(s: seq<T>, key: T -> real, k: real): seq<T> {
    if s == [] then []
    else (if key(s[0]) == k then [s[0]] else []) + WithKey(s[1..], key, k)
  }

  /** `x` lands ahead of every element with its key, and only moves past elements
      with a smaller one. */
  lemma {:induction false} InsertWithKey<T>(x: T, s: seq<T>, key: T -> real, k: real)
    ensures WithKey(Insert(x, s, key), key, k) ==
      (if key(x) == k then [x] else []) + WithKey(s, key, k)
  {
    if s == [] || key(x) <= key(s[0]) {
      WithKeyCons(x, s, key, k);
    } else {
      var px := if key(x) == k then [x] else [];
      var p0 := if key(s[0]) == k then [s[0]] else [];
      var u := Insert(x, s[1..], key);
      var w := WithKey(s[1..], key, k);
      assert Insert(x, s, key) == [s[0]] + u;
      WithKeyCons(s[0], u, key, k);
      InsertWithKey(x, s[1..], key, k);
      assert s == [s[0]] + s[1..];
      WithKeyCons(s[0], s[1..], key, k);
      assert p0 == [] || px == [];
      SwapPieces(p0, px, w);
    }
  }

  /** Of two pieces at most one of which is non-empty, either can go first. */
  lemma SwapPieces<T>(p0: seq<T>, px: seq<T>, w: seq<T>)
    requires p0 == [] || px == []
    ensures p0 + (px + w) == px + (p0 + w)
  {
    if p0 == [] {
      assert p0 + (px + w) == px + w == px + (p0 + w);
    } else {
      assert p0 + (px + w) == p0 + w == px + (p0 + w);
    }
  }

  lemma WithKeyCons<T>(x: T, s: seq<T>, key: T -> real, k: real)
    ensures WithKey([x] + s, key, k) == (if key(x) == k then [x] else []) + WithKey(s, key, k)
  {
    var t := [x] + s;
    assert t[0] == x && t[1..] == s;
  }

  /** The sort is stable: the elements of any one key keep their input order. */
  lemma {:induction false} SortStable<T>(s: seq<T>, key: T -> real, k: real)
    ensures WithKey(SortBy(s, key), key, k) == WithKey(s, key, k)
  {
    if s != [] {
      SortStable(s[1..], key, k);
      InsertWithKey(s[0], SortBy(s[1..], key), key, k);
    }
  }

  /** Among elements of equal key, the rank `f` increases along `s`. */
  predicate TiesRanked<T>(s: seq<T>, key: T -> real, f: T -> int) {
    forall i, j :: 0 <= i < j < |s| && key(s[i]) == key(s[j]) ==> f(s[i]) < f(s[j])
  }

  lemma {:induction false} InsertTiesRanked<T>(x: T, s: seq<T>, key: T -> real, f: T -> int)
    requires TiesRanked(s, key, f)
    requires forall y :: y in s ==> f(x) < f(y)
    ensures TiesRanked(Insert(x, s, key), key, f)
  {
    if s == [] || key(x) <= key(s[0]) {
      ConsTiesRanked(x, s, key, f);
    } else {
      var u := Insert(x, s[1..], key);
      TailTiesRanked(s, key, f);
      InsertTiesRanked(x, s[1..], key, f);
      forall z | z in u && key(z) == key(s[0]) ensures f(s[0]) < f(z) {
        assert z in multiset(u);
        assert z in multiset(s[1..]);
        var m :| 0 <= m < |s[1..]| && s[1..][m] == z;
        assert s[m + 1] == z;
      }
      ConsTiesRanked(s[0], u, key, f);
    }
  }

  lemma TailTiesRanked<T>(s: seq<T>, key: T -> real, f: T -> int)
    requires s != [] && TiesRanked(s, key, f)
    ensures TiesRanked(s[1..], key, f)
  {
    assert forall i :: 0 <= i < |s[1..]| ==> s[1..][i] == s[i + 1];
  }

  lemma ConsTiesRanked<T>(y: T, u: seq<T>, key: T -> real, f: T -> int)
    requires TiesRanked(u, key, f)
    requires forall z :: z in u && key(z) == key(y) ==> f(y) < f(z)
    ensures TiesRanked([y] + u, key, f)
  {
    var r := [y] + u;
    assert forall i :: 0 < i < |r| ==> r[i] == u[i - 1];
  }

  /** The sort keeps elements of equal key in input order, stated through a rank: if `f`
      increases along the input, it increases among the tied elements of the result. */
  lemma {:induction false} SortTiesKeepRank<T>(s: seq<T>, key: T -> real, f: T -> int)
    requires forall i, j :: 0 <= i < j < |s| ==> f(s[i]) < f(s[j])
    ensures TiesRanked(SortBy(s, key), key, f)
  {
    if s != [] {
      var t := SortBy(s[1..], key);
      assert forall i, j :: 0 <= i < j < |s[1..]| ==> s[1..][i] == s[i + 1] && s[1..][j] == s[j + 1];
      SortTiesKeepRank(s[1..], key, f);
      forall y | y in t ensures f(s[0]) < f(y) {
        assert y in multiset(t);
        assert y in multiset(s[1..]);
        var m :| 0 <= m < |s[1..]| && s[1..][m] == y;
        assert s[m + 1] == y;
      }
      InsertTiesRanked(s[0], t, key, f);
    }
  }

  lemma {:induction false} InsertDistinct<T, U>(x: T, s: seq<T>, key: T -> real, f: T -> U)
    requires DistinctBy(s, f)
    requires forall y :: y in s ==> f(y) != f(x)
    ensures DistinctBy(Insert(x, s, key), f)
  {
    if s != [] && key(x) > key(s[0]) {
      InsertDistinct(x, s[1..], key, f);
      var t := Insert(x, s[1..], key);
      forall y | y in t ensures f(y) != f(s[0]) {
        assert y in multiset(t);
        assert y == x || y in multiset(s[1..]);
      }
    }
  }

  /** Sorting keeps elements with pairwise different projections pairwise different. */
  lemma {:induction false} SortDistinct<T, U>(s: seq<T>, key: T -> real, f: T -> U)
    requires DistinctBy(s, f)
    ensures DistinctBy(SortBy(s, key), f)
  {
    if s != [] {
      SortDistinct(s[1..], key, f);
      forall y | y in SortBy(s[1..], key) ensures f(y) != f(s[0]) {
        assert y in multiset(SortBy(s[1..], key));
        assert y in multiset(s[1..]);
        var j :| 0 <= j < |s[1..]| && s[1..][j] == y;
        assert s[j + 1] == y;
      }
      InsertDistinct(s[0], SortBy(s[1..], key), key, f);
    }
  }
}
