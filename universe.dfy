/** The equity universe of the Russell 2000-like ingestion (`build_r2000_like_universe`)
    and the request chunker `chunk_list`. The asset listing is the oracle's list of
    `symbol` values, `None` for a missing one. */
module Universe {
  import opened Common

  const EtfExclude: set<string> := {
    "SPY", "QQQ", "IWM", "DIA", "VTI", "VOO", "XLK", "XLF", "XLE", "XLV", "XLY", "XLP",
    "XLI", "XLU", "IEMG", "TLT", "HYG", "SCHX"}
  const MaxSymbolLength: nat := 5
  const DefaultMaxSymbols: int := 2000
  /** What `range(0, n, 0)` raises. */
  const ZeroStepError: string := "range() arg 3 must not be zero"

  // ---------------------------------------------------------------------------
  // The symbol filter.
  // ---------------------------------------------------------------------------

  /** `.dropna()`: the symbols that are present, in order. */
  function Present(xs: seq<Option<string>>): (r: seq<string>)
    ensures forall s :: s in r <==> Some(s) in xs
  {
    if xs == [] then []
    else
      assert forall o :: o in xs <==> o in AllButLast(xs) || o == Last(xs);
      Present(AllButLast(xs)) + (if Last(xs).Some? then [Last(xs).value] else [])
  }

  /** `.str.upper()`. */
  function Uppercased(xs: seq<string>): (r: seq<string>)
    ensures |r| == |xs| && forall i :: 0 <= i < |xs| ==> r[i] == Upper(xs[i])
  {
    seq(|xs|, i requires 0 <= i < |xs| => Upper(xs[i]))
  }

  /** `.unique()`: each value once, at its first occurrence. */
  function Unique(xs: seq<string>): (r: seq<string>)
    ensures forall x :: x in r <==> x in xs
  {
    if xs == [] then []
    else
      assert forall x :: x in xs <==> x in AllButLast(xs) || x == Last(xs);
      Unique(AllButLast(xs)) + (if Last(xs) in AllButLast(xs) then [] else [Last(xs)])
  }

  lemma {:induction false} UniqueNoRepeats(xs: seq<string>)
    ensures NoRepeats(Unique(xs))
  {
    if xs != [] {
      UniqueNoRepeats(AllButLast(xs));
    }
  }

  lemma PresentSnoc(p: seq<Option<string>>, o: Option<string>)
    ensures Present(p + [o]) == Present(p) + (if o.Some? then [o.value] else [])
  {
    assert AllButLast(p + [o]) == p && Last(p + [o]) == o;
  }

  /** `dropna` keeps every present symbol, with its repeats, in listing order: it maps
      a concatenation to the concatenation (and a single entry to itself or nothing,
      `PresentSingle`). */
  lemma {:induction false} PresentAppend(a: seq<Option<string>>, b: seq<Option<string>>)
    ensures Present(a + b) == Present(a) + Present(b)
    decreases |b|
  {
    if b == [] {
      assert a + b == a;
    } else {
      var b' := AllButLast(b);
      var o := Last(b);
      var po := if o.Some? then [o.value] else [];
      assert a + b == (a + b') + [o];
      assert b == b' + [o];
      calc {
        Present(a + b);
        { PresentSnoc(a + b', o); }
        Present(a + b') + po;
        { PresentAppend(a, b'); }
        (Present(a) + Present(b')) + po;
        { AppendAssoc(Present(a), Present(b'), po); }
        Present(a) + (Present(b') + po);
        { PresentSnoc(b', o); }
        Present(a) + Present(b);
      }
    }
  }

  lemma PresentSingle(o: Option<string>)
    ensures Present([o]) == if o.Some? then [o.value] else []
  {
    PresentSnoc([], o);
  }

  /** The listing with each present symbol upper-cased. */
  function UpperListing(assets: seq<Option<string>>): seq<Option<string>> {
    seq(|assets|, i requires 0 <= i < |assets| =>
      if assets[i].Some? then Some(Upper(assets[i].value)) else None)
  }

  /** The first listing position whose upper-cased symbol is `s`; `|assets|` when none is. */
  function FirstListed(assets: seq<Option<string>>, s: string): nat {
    FirstPos(UpperListing(assets), Some(s))
  }

  /** Dropping the missing symbols and upper-casing commute. */
  lemma {:induction false} UppercasedPresent(assets: seq<Option<string>>)
    ensures Uppercased(Present(assets)) == Present(UpperListing(assets))
  {
    if assets != [] {
      var p := AllButLast(assets);
      var o := Last(assets);
      var uo := if o.Some? then Some(Upper(o.value)) else None;
      var piece := if o.Some? then [o.value] else [];
      assert assets == p + [o];
      assert UpperListing(assets) == UpperListing(p) + [uo];
      calc {
        Uppercased(Present(assets));
        { PresentSnoc(p, o); }
        Uppercased(Present(p) + piece);
        { UppercasedAppend(Present(p), piece); }
        Uppercased(Present(p)) + Uppercased(piece);
        { UppercasedPresent(p); }
        Present(UpperListing(p)) + Uppercased(piece);
        { PresentSnoc(UpperListing(p), uo); }
        Present(UpperListing(assets));
      }
    }
  }

  lemma UppercasedAppend(a: seq<string>, b: seq<string>)
    ensures Uppercased(a + b) == Uppercased(a) + Uppercased(b)
  {
  }

  /** `dropna` keeps the relative order of the present symbols: of two present values,
      the one first met in the result is the one first met in the listing. */
  lemma {:induction false} PresentFirstOrder(xs: seq<Option<string>>, x: string, y: string)
    requires x in Present(xs) && y in Present(xs)
    ensures FirstPos(Present(xs), x) < FirstPos(Present(xs), y) <==> FirstPos(xs, Some(x)) < FirstPos(xs, Some(y))
  {
    if x != y {
      var a := FirstPos(Present(xs), x);
      var b := FirstPos(Present(xs), y);
      assert Present(xs)[a] == x && Present(xs)[b] == y;
      if a < b {
        PresentOrderForward(xs, x, y);
      } else {
        PresentOrderForward(xs, y, x);
      }
    }
  }

  lemma {:induction false} PresentOrderForward(xs: seq<Option<string>>, x: string, y: string)
    requires x in Present(xs) && y in Present(xs)
    requires FirstPos(Present(xs), x) < FirstPos(Present(xs), y)
    ensures FirstPos(xs, Some(x)) < FirstPos(xs, Some(y))
  {
    var p := AllButLast(xs);
    var o := Last(xs);
    assert xs == p + [o];
    var q := Present(p);
    PresentSnoc(p, o);
    FirstPosSnoc(p, o, Some(x));
    FirstPosSnoc(p, o, Some(y));
    if o.None? {
      assert Present(xs) == q;
      PresentOrderForward(p, x, y);
    } else {
      assert Present(xs) == q + [o.value];
      FirstPosSnoc(q, o.value, x);
      FirstPosSnoc(q, o.value, y);
      if x in q && y in q {
        PresentOrderForward(p, x, y);
      } else if x in q {
        assert Some(x) in p;
      }
    }
  }

  /** `.unique()` keeps each value at its first occurrence: the values come out in the
      order of their first positions. */
  lemma {:induction false} UniqueFirstOrder(xs: seq<string>)
    ensures forall i, j :: 0 <= i < j < |Unique(xs)| ==>
      FirstPos(xs, Unique(xs)[i]) < FirstPos(xs, Unique(xs)[j])
  {
    if xs != [] {
      var p := AllButLast(xs);
      var l := Last(xs);
      assert xs == p + [l];
      UniqueFirstOrder(p);
      var u := Unique(p);
      var r := Unique(xs);
      assert r == u + (if l in p then [] else [l]);
      forall i, j | 0 <= i < j < |r| ensures FirstPos(xs, r[i]) < FirstPos(xs, r[j]) {
        assert r[i] == u[i] && u[i] in p;
        FirstPosSnoc(p, l, r[i]);
        FirstPosSnoc(p, l, r[j]);
        if j < |u| {
          assert r[j] == u[j] && u[j] in p;
        }
      }
    }
  }

  /** `s.isalnum()` on ASCII text: non-empty, letters and digits only. */
  predicate IsAlnum(s: string) {
    s != [] && forall i :: 0 <= i < |s| ==> IsAsciiAlnum(s[i])
  }

  predicate Plausible(s: string) { IsAlnum(s) && |s| <= MaxSymbolLength }

  predicate NotEtf(s: string) { s !in EtfExclude }

  /** The symbols before the cap: upper-cased, unique, plausible, not an ETF. */
  function Candidates(assets: seq<Option<string>>): seq<string> {
    Filter(Filter(Unique(Uppercased(Present(assets))), Plausible), NotEtf)
  }

  /** `symbols[:max_symbols]`. */
  function BuildUniverse(assets: seq<Option<string>>, maxSymbols: int): seq<string> {
    PyTake(Candidates(assets), maxSymbols)
  }

  lemma UpperIdempotent(s: string)
    ensures Upper(Upper(s)) == Upper(s)
  {
  }

  /** The candidates are exactly the upper-cased listed symbols that are plausible and
      not ETFs, each once. */
  lemma CandidatesExactly(assets: seq<Option<string>>)
    ensures forall s :: s in Candidates(assets) <==>
      (exists a :: Some(a) in assets && Upper(a) == s) && Plausible(s) && NotEtf(s)
    ensures NoRepeats(Candidates(assets))
  {
    var present := Present(assets);
    var upper := Uppercased(present);
    var uniq := Unique(upper);
    FilterMembers(uniq, Plausible);
    FilterMembers(Filter(uniq, Plausible), NotEtf);
    forall s ensures s in upper <==> exists a :: Some(a) in assets && Upper(a) == s {
      if s in upper {
        var i :| 0 <= i < |upper| && upper[i] == s;
        assert Some(present[i]) in assets by { assert present[i] in present; }
      }
      if exists a :: Some(a) in assets && Upper(a) == s {
        var a :| Some(a) in assets && Upper(a) == s;
        var i :| 0 <= i < |present| && present[i] == a;
        assert upper[i] == s;
      }
    }
    UniqueNoRepeats(upper);
    FilterNoRepeats(uniq, Plausible);
    FilterNoRepeats(Filter(uniq, Plausible), NotEtf);
  }

  /** The candidates come in listing order: of two candidates, the one listed first
      (under upper-casing) comes first. */
  lemma CandidatesListingOrder(assets: seq<Option<string>>)
    ensures forall i, j :: 0 <= i < j < |Candidates(assets)| ==>
      FirstListed(assets, Candidates(assets)[i]) < FirstListed(assets, Candidates(assets)[j])
  {
    var v := Uppercased(Present(assets));
    UppercasedPresent(assets);
    var u := Unique(v);
    UniqueFirstOrder(v);
    var f := (x: string) => FirstPos(v, x);
    assert forall i, j :: 0 <= i < j < |u| ==> f(u[i]) < f(u[j]);
    FilterKeepsOrder(u, Plausible, f);
    FilterKeepsOrder(Filter(u, Plausible), NotEtf, f);
    var c := Candidates(assets);
    FilterMembers(u, Plausible);
    FilterMembers(Filter(u, Plausible), NotEtf);
    forall i, j | 0 <= i < j < |c| ensures FirstListed(assets, c[i]) < FirstListed(assets, c[j]) {
      assert c[i] in c && c[j] in c;
      assert f(c[i]) < f(c[j]);
      PresentFirstOrder(UpperListing(assets), c[i], c[j]);
    }
  }

  /** The cap keeps the earliest-listed candidates: the universe is in listing order, and
      a candidate left out is listed after every symbol of the universe. */
  lemma UniverseKeepsEarliest(assets: seq<Option<string>>, maxSymbols: int)
    ensures forall i, j :: 0 <= i < j < |BuildUniverse(assets, maxSymbols)| ==>
      FirstListed(assets, BuildUniverse(assets, maxSymbols)[i]) <
      FirstListed(assets, BuildUniverse(assets, maxSymbols)[j])
    ensures forall s, u ::
      s in Candidates(assets) && s !in BuildUniverse(assets, maxSymbols) && u in BuildUniverse(assets, maxSymbols)
      ==> FirstListed(assets, u) < FirstListed(assets, s)
  {
    var c := Candidates(assets);
    var b := BuildUniverse(assets, maxSymbols);
    CandidatesListingOrder(assets);
    assert forall i :: 0 <= i < |b| ==> b[i] == c[i];
    forall s, u | s in c && s !in b && u in b ensures FirstListed(assets, u) < FirstListed(assets, s) {
      var i :| 0 <= i < |b| && b[i] == u;
      var j :| 0 <= j < |c| && c[j] == s;
      assert c[i] == u;
      assert j >= |b|;
    }
  }

  /** A prefix of a sequence without repeats has none. */
  lemma PrefixNoRepeats(c: seq<string>, u: seq<string>)
    requires u <= c && NoRepeats(c)
    ensures NoRepeats(u)
  {
    forall i, j | 0 <= i < j < |u| ensures u[i] != u[j] {
      assert u[i] == c[i] && u[j] == c[j];
    }
  }

  /** A candidate is upper-case, alphanumeric, at most five characters, not an ETF and
      listed. */
  lemma CandidateShape(assets: seq<Option<string>>, s: string)
    requires s in Candidates(assets)
    ensures Upper(s) == s && IsAlnum(s) && 1 <= |s| <= MaxSymbolLength && s !in EtfExclude
    ensures exists a :: Some(a) in assets && Upper(a) == s
  {
    CandidatesExactly(assets);
    var a :| Some(a) in assets && Upper(a) == s;
    UpperIdempotent(a);
  }

  /** Every universe symbol is upper-case, alphanumeric, at most five characters, not an
      ETF, and listed; no symbol is repeated; there are at most `max_symbols` of them, and
      they are the first candidates in listing order. */
  lemma UniverseShape(assets: seq<Option<string>>, maxSymbols: int)
    ensures forall s :: s in BuildUniverse(assets, maxSymbols) ==>
      && Upper(s) == s && IsAlnum(s) && 1 <= |s| <= MaxSymbolLength && s !in EtfExclude
      && exists a :: Some(a) in assets && Upper(a) == s
    ensures NoRepeats(BuildUniverse(assets, maxSymbols))
    ensures maxSymbols >= 0 ==> |BuildUniverse(assets, maxSymbols)| <= maxSymbols
    ensures BuildUniverse(assets, maxSymbols) <= Candidates(assets)
  {
    var c := Candidates(assets);
    var u := BuildUniverse(assets, maxSymbols);
    forall s | s in u
      ensures && Upper(s) == s && IsAlnum(s) && 1 <= |s| <= MaxSymbolLength && s !in EtfExclude
              && exists a :: Some(a) in assets && Upper(a) == s
    {
      assert s in c;
      CandidateShape(assets, s);
    }
    CandidatesExactly(assets);
    PrefixNoRepeats(c, u);
  }

  /** With a cap at least as large as the candidate list, every plausible non-ETF listed
      symbol is in the universe. */
  lemma UniverseComplete(assets: seq<Option<string>>, maxSymbols: int, a: string)
    requires maxSymbols >= |Candidates(assets)|
    requires Some(a) in assets && Plausible(Upper(a)) && NotEtf(Upper(a))
    ensures Upper(a) in BuildUniverse(assets, maxSymbols)
  {
    CandidatesExactly(assets);
    assert BuildUniverse(assets, maxSymbols) == Candidates(assets);
  }

  // ---------------------------------------------------------------------------
  // `chunk_list(items, size)`: `[items[i:i+size] for i in range(0, len(items), size)]`.
  // ---------------------------------------------------------------------------

  /** Consecutive slices of `size` items; the last may be shorter. */
  function Chunks<T>(items: seq<T>, size: nat): (r: seq<seq<T>>)
    requires size > 0
    decreases |items|
  {
    if items == [] then []
    else [items[..Min(size, |items|)]] + Chunks(items[Min(size, |items|)..], size)
  }

  /** A zero size raises; a negative size makes the range empty. */
  function ChunkList<T>(items: seq<T>, size: int): Result<seq<seq<T>>, string> {
    if size == 0 then Failure(ZeroStepError)
    else if size < 0 then Success([])
    else Success(Chunks(items, size))
  }

  function Flatten<T>(xss: seq<seq<T>>): seq<T> {
    if xss == [] then [] else xss[0] + Flatten(xss[1..])
  }

  /** Concatenating the chunks gives the items back. */
  lemma {:induction false} ChunksFlatten<T>(items: seq<T>, size: nat)
    requires size > 0
    ensures Flatten(Chunks(items, size)) == items
    decreases |items|
  {
    if items != [] {
      var m := Min(size, |items|);
      ChunksFlatten(items[m..], size);
      var cs := Chunks(items, size);
      assert cs[1..] == Chunks(items[m..], size);
      assert items == items[..m] + items[m..];
    }
  }

  /** Every chunk is non-empty and at most `size` long; all but the last are exactly
      `size` long. */
  lemma {:induction false} ChunksBounds<T>(items: seq<T>, size: nat)
    requires size > 0
    ensures forall k :: 0 <= k < |Chunks(items, size)| ==>
      0 < |Chunks(items, size)[k]| <= size && (k < |Chunks(items, size)| - 1 ==> |Chunks(items, size)[k]| == size)
    decreases |items|
  {
    if items != [] {
      var m := Min(size, |items|);
      ChunksBounds(items[m..], size);
      var cs := Chunks(items, size);
      var rest := Chunks(items[m..], size);
      assert cs == [items[..m]] + rest;
      assert |cs| > 1 ==> rest != [] && |items| > size;
      forall k | 0 <= k < |cs| ensures 0 < |cs[k]| <= size && (k < |cs| - 1 ==> |cs[k]| == size) {
        if k > 0 {
          assert cs[k] == rest[k - 1];
        }
      }
    }
  }

  /** There are `ceil(len(items) / size)` chunks: just enough to hold every item. */
  lemma {:induction false} ChunksCount<T>(items: seq<T>, size: nat)
    requires size > 0
    ensures |items| <= |Chunks(items, size)| * size
    ensures |Chunks(items, size)| > 0 ==> (|Chunks(items, size)| - 1) * size < |items|
    decreases |items|
  {
    if items != [] {
      var m := Min(size, |items|);
      ChunksCount(items[m..], size);
      var n := |Chunks(items[m..], size)|;
      assert |Chunks(items, size)| == n + 1;
      assert (n + 1) * size == n * size + size;
      if n > 0 {
        assert (n - 1) * size + size == n * size;
      }
    }
  }

  /** Chunk `k` is the slice `items[k*size : (k+1)*size]`, as the comprehension writes it. */
  lemma {:induction false} ChunksSlices<T>(items: seq<T>, size: nat, k: nat)
    requires size > 0 && k < |Chunks(items, size)|
    ensures k * size < |items|
    ensures Chunks(items, size)[k] == items[k * size .. Min((k + 1) * size, |items|)]
    decreases k
  {
    var m := Min(size, |items|);
    var rest := items[m..];
    assert Chunks(items, size) == [items[..m]] + Chunks(rest, size);
    if k > 0 {
      assert Chunks(items, size)[k] == Chunks(rest, size)[k - 1];
      assert rest != [];
      assert m == size;
      ChunksSlices(rest, size, k - 1);
      MulSucc(k - 1, size);
      MulSucc(k, size);
      var lo := (k - 1) * size;
      var hi := Min(k * size, |rest|);
      assert hi + size == Min((k + 1) * size, |items|);
      SliceOfDrop(items, size, lo, hi);
    }
  }

  lemma SliceOfDrop<T>(items: seq<T>, m: nat, lo: nat, hi: nat)
    requires m <= |items| && lo <= hi <= |items| - m
    ensures items[m..][lo..hi] == items[lo + m .. hi + m]
  {
  }

  lemma MulSucc(j: nat, size: nat)
    ensures j * size + size == (j + 1) * size
  {
  }

  /** `chunk_list` raises on a zero size and gives no chunks for a negative one; for a
      positive size its chunks are the items, in order, in pieces of `size` with a shorter
      last piece. */
  lemma ChunkListRules<T>(items: seq<T>, size: int)
    ensures size == 0 <==> ChunkList(items, size).Failure?
    ensures size < 0 ==> ChunkList(items, size) == Success([])
    ensures size > 0 ==> && ChunkList(items, size).Success?
                         && Flatten(ChunkList(items, size).value) == items
                         && |items| <= |ChunkList(items, size).value| * size
  {
    if size > 0 {
      ChunksFlatten(items, size);
      ChunksCount(items, size);
    }
  }
}
