/** The allocator service's `optimize_portfolio`: equal weights over the requested assets,
    with the method echoed. Weights are exact reals. */
module Allocator {
  import opened Common

  const DefaultMethod: string := "HRP"

  /** The request; an absent `method` is the default. */
  datatype OptReq = OptReq(approach: Option<string>, assets: seq<string>)

  datatype Allocation = Allocation(weights: map<string, real>, approach: string)

  /** `len(assets) or 1`. */
  function Divisor(assets: seq<string>): (n: nat)
    ensures n >= 1
  {
    if |assets| == 0 then 1 else |assets|
  }

  /** `{a: 1.0 / n for a in assets}`. */
  function EqualWeights(assets: seq<string>): (w: map<string, real>)
    ensures w.Keys == set a | a in assets
    ensures forall a :: a in w ==> w[a] == 1.0 / Divisor(assets) as real
  {
    map a | a in assets :: 1.0 / Divisor(assets) as real
  }

  function OptimizePortfolio(req: OptReq): Allocation {
    Allocation(EqualWeights(req.assets), req.approach.GetOr(DefaultMethod))
  }

  /** The sum of the weights of `keys`, each taken once per occurrence. */
  function SumOver(keys: seq<string>, w: map<string, real>): real
    requires forall k :: k in keys ==> k in w
  {
    if keys == [] then 0.0 else SumOver(AllButLast(keys), w) + w[Last(keys)]
  }

  /** Summing equal weights over `m` keys gives `m / n`. */
  lemma {:induction false} SumOfEqual(keys: seq<string>, w: map<string, real>, x: real)
    requires forall k :: k in keys ==> k in w && w[k] == x
    ensures SumOver(keys, w) == |keys| as real * x
  {
    if keys != [] {
      SumOfEqual(AllButLast(keys), w, x);
    }
  }

  /** The weights are keyed by exactly the requested assets, each gets `1/n` with `n` the
      number of requested entries (1 for none), an empty request gets empty weights, and
      the method is echoed or HRP. */
  lemma AllocationRules(req: OptReq)
    ensures OptimizePortfolio(req).weights.Keys == set a | a in req.assets
    ensures forall a :: a in req.assets ==>
      OptimizePortfolio(req).weights[a] == 1.0 / (if req.assets == [] then 1 else |req.assets|) as real
    ensures req.assets == [] ==> OptimizePortfolio(req).weights == map[]
    ensures OptimizePortfolio(req).approach == if req.approach.Some? then req.approach.value else "HRP"
  {
  }

  /** The weights of any list of the distinct weighted assets sum to their share of the
      request; for a non-empty request without repeats they sum to one. */
  lemma {:induction false} WeightsSum(assets: seq<string>, keys: seq<string>)
    requires NoRepeats(keys) && (set k | k in keys) == (set a | a in assets)
    ensures SumOver(keys, EqualWeights(assets)) == |keys| as real / Divisor(assets) as real
    ensures assets != [] && NoRepeats(assets) ==> SumOver(assets, EqualWeights(assets)) == 1.0
  {
    var w := EqualWeights(assets);
    var x := 1.0 / Divisor(assets) as real;
    SumOfEqual(keys, w, x);
    SumOfEqual(assets, w, x);
  }

  /** A request that repeats an asset has weights summing to less than one. */
  lemma RepeatsUnderweight(assets: seq<string>, keys: seq<string>)
    requires NoRepeats(keys) && (set k | k in keys) == (set a | a in assets)
    requires exists i, j :: 0 <= i < j < |assets| && assets[i] == assets[j]
    ensures SumOver(keys, EqualWeights(assets)) < 1.0
  {
    WeightsSum(assets, keys);
    var i, j :| 0 <= i < j < |assets| && assets[i] == assets[j];
    DistinctShorter(assets, keys, i, j);
    var n := Divisor(assets) as real;
    assert |keys| as real < n;
    BelowOne(|keys| as real, n);
  }

  lemma BelowOne(x: real, n: real)
    requires 0.0 <= x < n
    ensures x / n < 1.0
  {
  }

  /** A list without repeats of the values of a list with a repeat is shorter. */
  lemma DistinctShorter(assets: seq<string>, keys: seq<string>, i: nat, j: nat)
    requires NoRepeats(keys) && (set k | k in keys) == (set a | a in assets)
    requires i < j < |assets| && assets[i] == assets[j]
    ensures |keys| < |assets|
  {
    DistinctCard(keys);
    var rest := assets[..j] + assets[j + 1..];
    assert (set a | a in assets) == (set a | a in rest) by {
      forall a | a in assets ensures a in rest {
        var m :| 0 <= m < |assets| && assets[m] == a;
        if m == j {
          assert rest[i] == a;
        } else if m < j {
          assert rest[m] == a;
        } else {
          assert rest[m - 1] == a;
        }
      }
    }
    SetOfSeqBound(rest);
  }

  lemma {:induction false} DistinctCard(keys: seq<string>)
    requires NoRepeats(keys)
    ensures |set k | k in keys| == |keys|
  {
    if keys != [] {
      var p := AllButLast(keys);
      DistinctCard(p);
      assert keys == p + [Last(keys)];
      assert Last(keys) !in p;
      assert (set k | k in keys) == (set k | k in p) + {Last(keys)};
    }
  }

  lemma {:induction false} SetOfSeqBound(s: seq<string>)
    ensures |set k | k in s| <= |s|
  {
    if s != [] {
      var p := AllButLast(s);
      SetOfSeqBound(p);
      assert s == p + [Last(s)];
      assert (set k | k in s) == (set k | k in p) + {Last(s)};
    }
  }
}
