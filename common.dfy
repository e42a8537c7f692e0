/** Values and sequence helpers shared by every module: optional values, results for the
    code paths that raise, Python's slicing, `str.split`/`str.join` and `str.strip`. */
module Common {

  /** A value that may be absent (Python's `None`). */
  datatype Option<+T> = None | Some(value: T) {
    function GetOr(default: T): T {
      match this
      case Some(v) => v
      case None => default
    }
  }

  /** The outcome of a call that may raise: `Failure` carries the exception's description. */
  datatype Result<+T, +E> = Success(value: T) | Failure(error: E)

  function Min(a: int, b: int): int { if a < b then a else b }

  /** Python's `s[:k]` for any integer `k`: a negative `k` counts back from the end. */
  function PyTake<T>(s: seq<T>, k: int): (r: seq<T>)
    ensures r <= s
    ensures k >= 0 ==> |r| == Min(k, |s|)
    ensures k < 0 ==> |r| == if |s| + k > 0 then |s| + k else 0
  {
    if k >= 0 then s[..Min(k, |s|)]
    else if |s| + k > 0 then s[..|s| + k]
    else []
  }

  /** Python's `s[:n]` for a non-negative bound (the caps on stored text). */
  function Cut<T>(s: seq<T>, n: nat): (r: seq<T>)
    ensures r <= s && |r| == Min(n, |s|)
  {
    s[..Min(n, |s|)]
  }

  function Last<T>(s: seq<T>): T
    requires s != []
  {
    s[|s| - 1]
  }

  function AllButLast<T>(s: seq<T>): seq<T>
    requires s != []
  {
    s[..|s| - 1]
  }

  /** `[x for x in s if keep(x)]`. */
  function Filter<T>(s: seq<T>, keep: T -> bool): (r: seq<T>)
    ensures |r| <= |s|
  {
    if s == [] then []
    else Filter(AllButLast(s), keep) + (if keep(Last(s)) then [Last(s)] else [])
  }

  lemma FilterSnoc<T>(p: seq<T>, x: T, keep: T -> bool)
    ensures Filter(p + [x], keep) == Filter(p, keep) + (if keep(x) then [x] else [])
  {
    assert AllButLast(p + [x]) == p;
  }

  lemma {:induction false} FilterAppend<T>(a: seq<T>, b: seq<T>, keep: T -> bool)
    ensures Filter(a + b, keep) == Filter(a, keep) + Filter(b, keep)
    decreases |b|
  {
    if b == [] {
      assert a + b == a;
    } else {
      var b' := AllButLast(b);
      var x := Last(b);
      var px := if keep(x) then [x] else [];
      assert a + b == (a + b') + [x];
      assert b == b' + [x];
      calc {
        Filter(a + b, keep);
        { FilterSnoc(a + b', x, keep); }
        Filter(a + b', keep) + px;
        { FilterAppend(a, b', keep); }
        (Filter(a, keep) + Filter(b', keep)) + px;
        { AppendAssoc(Filter(a, keep), Filter(b', keep), px); }
        Filter(a, keep) + (Filter(b', keep) + px);
        { FilterSnoc(b', x, keep); }
        Filter(a, keep) + Filter(b, keep);
      }
    }
  }

  /** The filter keeps exactly the elements that pass. */
  lemma {:induction false} FilterMembers<T>(s: seq<T>, keep: T -> bool)
    ensures forall x :: x in Filter(s, keep) <==> x in s && keep(x)
  {
    if s != [] {
      FilterMembers(AllButLast(s), keep);
      assert s == AllButLast(s) + [Last(s)];
    }
  }

  lemma {:induction false} FilterSubset<T>(s: seq<T>, keep: T -> bool, i: int)
    requires 0 <= i < |Filter(s, keep)|
    ensures Filter(s, keep)[i] in s
  {
    var p := AllButLast(s);
    if i < |Filter(p, keep)| {
      FilterSubset(p, keep, i);
      assert Filter(s, keep)[i] == Filter(p, keep)[i];
    } else {
      assert Filter(s, keep)[i] == Last(s);
    }
  }

  /** Filtering keeps the relative order of the elements it keeps: a sequence strictly
      increasing under `f` stays so. */
  lemma {:induction false} FilterKeepsOrder<T>(s: seq<T>, keep: T -> bool, f: T -> int)
    requires forall i, j :: 0 <= i < j < |s| ==> f(s[i]) < f(s[j])
    ensures forall i, j :: 0 <= i < j < |Filter(s, keep)| ==> f(Filter(s, keep)[i]) < f(Filter(s, keep)[j])
  {
    if s != [] {
      var p := AllButLast(s);
      assert forall i :: 0 <= i < |p| ==> p[i] == s[i];
      FilterKeepsOrder(p, keep, f);
      var q := Filter(p, keep);
      var r := Filter(s, keep);
      assert r == q + (if keep(Last(s)) then [Last(s)] else []);
      forall i, j | 0 <= i < j < |r| ensures f(r[i]) < f(r[j]) {
        if j < |q| {
          assert r[i] == q[i] && r[j] == q[j];
        } else {
          assert r[j] == Last(s) && r[i] == q[i];
          FilterSubset(p, keep, i);
          var m :| 0 <= m < |p| && p[m] == q[i];
          assert f(s[m]) < f(s[|s| - 1]);
        }
      }
    }
  }

  /** The first position of `c` in `s`, or none. */
  function FirstIndex(s: string, c: char): (r: Option<nat>)
    ensures r.Some? ==> r.value < |s| && s[r.value] == c && forall k :: 0 <= k < r.value ==> s[k] != c
    ensures r.None? ==> forall k :: 0 <= k < |s| ==> s[k] != c
  {
    if s == [] then None
    else if s[0] == c then Some(0)
    else match FirstIndex(s[1..], c)
      case None => None
      case Some(k) => Some(k + 1)
  }

  /** The last position of `c` in `s`, or none. */
  function LastIndex(s: string, c: char): (r: Option<nat>)
    ensures r.Some? ==> r.value < |s| && s[r.value] == c && forall k :: r.value < k < |s| ==> s[k] != c
    ensures r.None? ==> forall k :: 0 <= k < |s| ==> s[k] != c
  {
    if s == [] then None
    else if Last(s) == c then Some(|s| - 1)
    else LastIndex(AllButLast(s), c)
  }

  /** The index of the first `x` in `xs`, or `|xs|` when there is none. */
  function FirstPos<T(==)>(xs: seq<T>, x: T): (k: nat)
    ensures k <= |xs|
    ensures k < |xs| <==> x in xs
    ensures k < |xs| ==> xs[k] == x
    ensures forall i :: 0 <= i < k ==> xs[i] != x
  {
    if xs == [] then 0
    else if xs[0] == x then 0
    else
      assert xs == [xs[0]] + xs[1..];
      assert forall i :: 1 <= i < |xs| ==> xs[i] == xs[1..][i - 1];
      1 + FirstPos(xs[1..], x)
  }

  /** Appending an element moves no first position of an earlier element. */
  lemma FirstPosSnoc<T>(p: seq<T>, y: T, x: T)
    ensures FirstPos(p + [y], x) == if x in p then FirstPos(p, x) else if x == y then |p| else |p| + 1
  {
    var s := p + [y];
    var k := FirstPos(s, x);
    assert forall i :: 0 <= i < |p| ==> s[i] == p[i];
    if x in p {
      var k0 := FirstPos(p, x);
      assert s[k0] == x;
      assert k <= k0;
      assert k < |p| && p[k] == x;
    } else if x == y {
      assert s[|p|] == x;
      assert k <= |p|;
    } else {
      assert x !in s;
    }
  }

  /** No element occurs twice. */
  ghost predicate NoRepeats<T>(s: seq<T>) {
    forall i, j :: 0 <= i < j < |s| ==> s[i] != s[j]
  }

  /** Filtering a list without repeats gives a list without repeats. */
  lemma {:induction false} FilterNoRepeats<T>(s: seq<T>, keep: T -> bool)
    requires NoRepeats(s)
    ensures NoRepeats(Filter(s, keep))
  {
    if s != [] {
      var p := AllButLast(s);
      assert forall i :: 0 <= i < |p| ==> p[i] == s[i];
      FilterNoRepeats(p, keep);
      assert Last(s) !in p by {
        forall i | 0 <= i < |p| ensures p[i] != Last(s) { assert p[i] == s[i]; }
      }
      var q := Filter(p, keep);
      var r := Filter(s, keep);
      assert r == q + (if keep(Last(s)) then [Last(s)] else []);
      forall i, j | 0 <= i < j < |r| ensures r[i] != r[j] {
        if j >= |q| {
          FilterSubset(p, keep, i);
        } else {
          assert r[i] == q[i] && r[j] == q[j];
        }
      }
    }
  }

  /** `[y for x in s for y in f(x)]`. */
  function FlatMap<T, U>(s: seq<T>, f: T -> seq<U>): seq<U> {
    if s == [] then [] else FlatMap(AllButLast(s), f) + f(Last(s))
  }

  lemma FlatMapSnoc<T, U>(s: seq<T>, x: T, f: T -> seq<U>)
    ensures FlatMap(s + [x], f) == FlatMap(s, f) + f(x)
  {
    assert AllButLast(s + [x]) == s;
  }

  lemma {:induction false} FlatMapAppend<T, U>(a: seq<T>, b: seq<T>, f: T -> seq<U>)
    ensures FlatMap(a + b, f) == FlatMap(a, f) + FlatMap(b, f)
    decreases |b|
  {
    if b == [] {
      assert a + b == a;
    } else {
      var b' := AllButLast(b);
      var x := Last(b);
      assert a + b == (a + b') + [x];
      assert b == b' + [x];
      calc {
        FlatMap(a + b, f);
        { FlatMapSnoc(a + b', x, f); }
        FlatMap(a + b', f) + f(x);
        { FlatMapAppend(a, b', f); }
        (FlatMap(a, f) + FlatMap(b', f)) + f(x);
        { AppendAssoc(FlatMap(a, f), FlatMap(b', f), f(x)); }
        FlatMap(a, f) + (FlatMap(b', f) + f(x));
        { FlatMapSnoc(b', x, f); }
        FlatMap(a, f) + FlatMap(b, f);
      }
    }
  }

  lemma AppendAssoc<T>(x: seq<T>, y: seq<T>, z: seq<T>)
    ensures (x + y) + z == x + (y + z)
  {
  }

  /** The text `s` ends with `p`. */
  predicate EndsWith<T(==)>(s: seq<T>, p: seq<T>) {
    |p| <= |s| && s[|s| - |p|..] == p
  }

  /** The text `s` starts with `p`. */
  predicate StartsWith<T(==)>(s: seq<T>, p: seq<T>) {
    |p| <= |s| && s[..|p|] == p
  }

  // ---------------------------------------------------------------------------
  // Python's `s.split(sep)` for a one-element separator, and `sep.join(groups)`.
  // Split is built from the right end so that extending the input by one element
  // extends the result in one step, as a left-to-right scan does.
  // ---------------------------------------------------------------------------

  function Split<T(==)>(s: seq<T>, sep: T): (groups: seq<seq<T>>)
    ensures |groups| >= 1
  {
    if s == [] then [[]]
    else
      var g := Split(AllButLast(s), sep);
      if Last(s) == sep then g + [[]]
      else AllButLast(g) + [Last(g) + [Last(s)]]
  }

  function Join<T>(groups: seq<seq<T>>, sep: seq<T>): seq<T> {
    if groups == [] then []
    else if |groups| == 1 then groups[0]
    else Join(AllButLast(groups), sep) + sep + Last(groups)
  }

  /** One more element at the end of the input changes only the last group, or opens a new one. */
  lemma SplitSnoc<T>(s: seq<T>, x: T, sep: T)
    ensures Split(s + [x], sep) ==
      (var g := Split(s, sep); if x == sep then g + [[]] else AllButLast(g) + [Last(g) + [x]])
  {
    assert AllButLast(s + [x]) == s;
  }

  /** Joining the pieces back with the separator gives the original text. */
  lemma {:induction false} JoinSplit<T>(s: seq<T>, sep: T)
    ensures Join(Split(s, sep), [sep]) == s
  {
    if s != [] {
      var p := AllButLast(s);
      var x := Last(s);
      var g := Split(p, sep);
      assert s == p + [x];
      JoinSplit(p, sep);
      SplitSnoc(p, x, sep);
      if x == sep {
        JoinOpenGroup(g, [sep]);
      } else {
        JoinExtendLast(g, [sep], x);
      }
    }
  }

  /** Opening an empty last group adds one separator to the join. */
  lemma JoinOpenGroup<T>(g: seq<seq<T>>, sep: seq<T>)
    requires g != []
    ensures Join(g + [[]], sep) == Join(g, sep) + sep
  {
    var h := g + [[]];
    assert AllButLast(h) == g && Last(h) == [];
    assert Join(h, sep) == Join(g, sep) + sep + [];
  }

  /** Extending the last group by `x` extends the join by `x`. */
  lemma JoinExtendLast<T>(g: seq<seq<T>>, sep: seq<T>, x: T)
    requires g != []
    ensures Join(AllButLast(g) + [Last(g) + [x]], sep) == Join(g, sep) + [x]
  {
    var h := AllButLast(g) + [Last(g) + [x]];
    if |g| == 1 {
      assert h == [g[0] + [x]];
    } else {
      assert AllButLast(h) == AllButLast(g) && Last(h) == Last(g) + [x];
      var j := Join(AllButLast(g), sep);
      assert Join(h, sep) == j + sep + (Last(g) + [x]);
      assert Join(g, sep) == j + sep + Last(g);
      assert j + sep + (Last(g) + [x]) == (j + sep + Last(g)) + [x];
    }
  }

  /** No piece contains the separator. */
  lemma {:induction false} SplitPiecesAvoidSep<T>(s: seq<T>, sep: T)
    ensures forall k :: 0 <= k < |Split(s, sep)| ==> sep !in Split(s, sep)[k]
  {
    if s != [] {
      SplitPiecesAvoidSep(AllButLast(s), sep);
    }
  }

  /** Splitting a join of separator-free groups gives the groups back. */
  lemma {:induction false} SplitJoin<T>(groups: seq<seq<T>>, sep: T)
    requires groups != []
    requires forall k :: 0 <= k < |groups| ==> sep !in groups[k]
    ensures Split(Join(groups, [sep]), sep) == groups
  {
    if |groups| == 1 {
      SplitNoSep(groups[0], sep);
    } else {
      var init := AllButLast(groups);
      forall k | 0 <= k < |init| ensures sep !in init[k] {
        assert init[k] == groups[k];
      }
      SplitJoin(init, sep);
      SplitAfterSep(Join(init, [sep]), Last(groups), sep);
      assert groups == init + [Last(groups)];
    }
  }

  /** A separator followed by separator-free text `t` opens the group `t`. */
  lemma SplitAfterSep<T>(s: seq<T>, t: seq<T>, sep: T)
    requires sep !in t
    ensures Split(s + [sep] + t, sep) == Split(s, sep) + [t]
  {
    var g := Split(s, sep);
    SplitAppendFree(s + [sep], t, sep);
    SplitSnoc(s, sep, sep);
    assert Split(s + [sep], sep) == g + [[]];
    assert AllButLast(g + [[]]) == g;
    assert Last(g + [[]]) + t == t;
  }

  lemma {:induction false} SplitNoSep<T>(s: seq<T>, sep: T)
    requires sep !in s
    ensures Split(s, sep) == [s]
  {
    if s != [] {
      SplitNoSep(AllButLast(s), sep);
      assert AllButLast(s) + [Last(s)] == s;
    }
  }

  /** Appending separator-free text `t` extends the last group by `t`. */
  lemma {:induction false} SplitAppendFree<T>(s: seq<T>, t: seq<T>, sep: T)
    requires sep !in t
    ensures Split(s + t, sep) == AllButLast(Split(s, sep)) + [Last(Split(s, sep)) + t]
  {
    var g := Split(s, sep);
    if t == [] {
      assert s + t == s;
      assert Last(g) + t == Last(g);
      assert g == AllButLast(g) + [Last(g)];
    } else {
      var t' := AllButLast(t);
      var x := Last(t);
      assert sep !in t';
      assert x in t;
      assert s + t == (s + t') + [x];
      assert t' + [x] == t;
      var h := AllButLast(g) + [Last(g) + t'];
      calc {
        Split(s + t, sep);
        { SplitSnoc(s + t', x, sep); }
        AllButLast(Split(s + t', sep)) + [Last(Split(s + t', sep)) + [x]];
        { SplitAppendFree(s, t', sep); }
        AllButLast(h) + [Last(h) + [x]];
        { ExtendLastGroup(g, t', x); }
        AllButLast(g) + [Last(g) + (t' + [x])];
      }
    }
  }

  /** Extending the last group by `a` and then by `x` extends it by `a + [x]`. */
  lemma ExtendLastGroup<T>(g: seq<seq<T>>, a: seq<T>, x: T)
    requires g != []
    ensures var h := AllButLast(g) + [Last(g) + a];
      AllButLast(h) + [Last(h) + [x]] == AllButLast(g) + [Last(g) + (a + [x])]
  {
    var h := AllButLast(g) + [Last(g) + a];
    assert AllButLast(h) == AllButLast(g);
    assert Last(h) == Last(g) + a;
    assert Last(g) + a + [x] == Last(g) + (a + [x]);
  }

  /** A joined text contains an element only if some group or the separator does. */
  lemma {:induction false} JoinAvoids<T>(groups: seq<seq<T>>, sep: seq<T>, c: T)
    requires forall k :: 0 <= k < |groups| ==> c !in groups[k]
    requires c !in sep
    ensures c !in Join(groups, sep)
  {
    if |groups| > 1 {
      JoinAvoids(AllButLast(groups), sep, c);
    }
  }

  // ---------------------------------------------------------------------------
  // Python's `str.strip()` (no argument): the characters `str.isspace()` accepts.
  // ---------------------------------------------------------------------------

  predicate IsSpace(c: char) {
    || c == ' ' || c == '\t' || c == '\n' || c == '\r'
    || c == '\U{B}' || c == '\U{C}'
    || ('\U{1C}' <= c <= '\U{1F}')
    || c == '\U{85}' || c == '\U{A0}' || c == '\U{1680}'
    || ('\U{2000}' <= c <= '\U{200A}')
    || c == '\U{2028}' || c == '\U{2029}' || c == '\U{202F}' || c == '\U{205F}' || c == '\U{3000}'
  }

  function StripLeft(s: string): (r: string)
    ensures |r| <= |s|
    ensures r == s[|s| - |r|..]
    ensures r != [] ==> !IsSpace(r[0])
    ensures forall i :: 0 <= i < |s| - |r| ==> IsSpace(s[i])
  {
    if s != [] && IsSpace(s[0]) then
      var r := StripLeft(s[1..]);
      assert s[1..][|s| - 1 - |r|..] == s[|s| - |r|..];
      assert forall i :: 1 <= i < |s| ==> s[1..][i - 1] == s[i];
      r
    else s
  }

  function StripRight(s: string): (r: string)
    ensures |r| <= |s|
    ensures r == s[..|r|]
    ensures r != [] ==> !IsSpace(Last(r))
    ensures forall i :: |r| <= i < |s| ==> IsSpace(s[i])
  {
    if s != [] && IsSpace(Last(s)) then StripRight(AllButLast(s)) else s
  }

  /** `s.strip()`: the text between the leading and the trailing whitespace. */
  function Strip(s: string): (r: string)
    ensures r != [] ==> !IsSpace(r[0]) && !IsSpace(Last(r))
    ensures forall c :: c in r ==> c in s
    ensures r == [] <==> forall i :: 0 <= i < |s| ==> IsSpace(s[i])
  {
    var l := StripLeft(s);
    var r := StripRight(l);
    assert r != [] ==> r[0] == l[0];
    assert forall c :: c in r ==> c in l;
    assert r != [] ==> exists i :: 0 <= i < |s| && !IsSpace(s[i]) by {
      if r != [] { assert r[0] == l[0] == s[|s| - |l|]; }
    }
    r
  }

  // ASCII case mapping (Python's `str.lower`/`str.upper` restricted to ASCII letters).

  function LowerChar(c: char): char {
    if 'A' <= c <= 'Z' then (c as int + 32) as char else c
  }

  function UpperChar(c: char): char {
    if 'a' <= c <= 'z' then (c as int - 32) as char else c
  }

  function Lower(s: string): (r: string)
    ensures |r| == |s| && forall i :: 0 <= i < |s| ==> r[i] == LowerChar(s[i])
  {
    seq(|s|, i requires 0 <= i < |s| => LowerChar(s[i]))
  }

  function Upper(s: string): (r: string)
    ensures |r| == |s| && forall i :: 0 <= i < |s| ==> r[i] == UpperChar(s[i])
  {
    seq(|s|, i requires 0 <= i < |s| => UpperChar(s[i]))
  }

  predicate IsAsciiDigit(c: char) { '0' <= c <= '9' }

  predicate IsAsciiAlnum(c: char) { IsAsciiDigit(c) || 'a' <= c <= 'z' || 'A' <= c <= 'Z' }
}
