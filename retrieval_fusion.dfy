/** The fused pool of `search_hybrid`: the dense and the lexical pool merged per chunk
    `id` (minimal distance, maximal BM25 rank), scored by the weighted formula, sorted
    ascending and cut to `pool_n`. The two pools are the engines' outputs. */
module Fusion {
  import opened Common
  import opened Sorting
  import opened RetrievalRows

  function HitId(h: Hit): int { h.chunk.id }

  /** The ids of `a ++ b` in order of first appearance (the `group by id` of the union). */
  function MergedIds(hits: seq<Hit>): (ids: seq<int>)
    ensures forall i, j :: 0 <= i < j < |ids| ==> ids[i] != ids[j]
    ensures forall id :: id in ids <==> exists h :: h in hits && HitId(h) == id
  {
    if hits == [] then []
    else
      var p := MergedIds(AllButLast(hits));
      assert forall h :: h in hits <==> h in AllButLast(hits) || h == Last(hits);
      if HitId(Last(hits)) in p then p else p + [HitId(Last(hits))]
  }

  /** `min(dist)` over the dense hits of one id; `None` (SQL NULL) when it has none. */
  function MinScore(hits: seq<Hit>, id: int): (m: Option<real>)
    ensures m.None? <==> forall h :: h in hits ==> HitId(h) != id
    ensures m.Some? ==>
      && (exists h :: h in hits && HitId(h) == id && h.score == m.value)
      && (forall h :: h in hits && HitId(h) == id ==> m.value <= h.score)
  {
    if hits == [] then None
    else
      var p := MinScore(AllButLast(hits), id);
      var h := Last(hits);
      assert forall x :: x in hits <==> x in AllButLast(hits) || x == h;
      if HitId(h) != id then p
      else if p.Some? && p.value <= h.score then p
      else Some(h.score)
  }

  /** `max(bm25)` over the lexical hits of one id; `None` when it has none. */
  function MaxScore(hits: seq<Hit>, id: int): (m: Option<real>)
    ensures m.None? <==> forall h :: h in hits ==> HitId(h) != id
    ensures m.Some? ==>
      && (exists h :: h in hits && HitId(h) == id && h.score == m.value)
      && (forall h :: h in hits && HitId(h) == id ==> h.score <= m.value)
  {
    if hits == [] then None
    else
      var p := MaxScore(AllButLast(hits), id);
      var h := Last(hits);
      assert forall x :: x in hits <==> x in AllButLast(hits) || x == h;
      if HitId(h) != id then p
      else if p.Some? && h.score <= p.value then p
      else Some(h.score)
  }

  function MinReal(a: real, b: real): real { if a <= b then a else b }

  /** `coalesce(dist, 1.0) * alpha + (1.0 - least(coalesce(bm25, 0), 1.0)) * (1 - alpha)`:
      lower is better. `alpha` 1 ranks by distance alone, 0 by lexical rank alone, and
      ranks above 1 count as 1. */
  function HybridScore(dist: Option<real>, bm25: Option<real>, alpha: real): (score: real)
    ensures alpha == 1.0 ==> score == dist.GetOr(1.0)
    ensures alpha == 0.0 ==> score == 1.0 - MinReal(bm25.GetOr(0.0), 1.0)
    ensures bm25.Some? && bm25.value >= 1.0 ==> score == dist.GetOr(1.0) * alpha
  {
    dist.GetOr(1.0) * alpha + (1.0 - MinReal(bm25.GetOr(0.0), 1.0)) * (1.0 - alpha)
  }

  /** For a weight in [0, 1] and a non-negative distance the score is not negative. */
  lemma HybridScoreNonNegative(dist: Option<real>, bm25: Option<real>, alpha: real)
    requires 0.0 <= alpha <= 1.0 && dist.GetOr(1.0) >= 0.0
    ensures HybridScore(dist, bm25, alpha) >= 0.0
  {
    var d := dist.GetOr(1.0);
    var b := 1.0 - MinReal(bm25.GetOr(0.0), 1.0);
    assert d * alpha >= 0.0 by { MulNonNegative(d, alpha); }
    assert b * (1.0 - alpha) >= 0.0 by { MulNonNegative(b, 1.0 - alpha); }
  }

  /** A smaller distance never worsens the score (for a non-negative weight), and a
      larger lexical rank never worsens it (for a weight at most 1). */
  lemma HybridScoreMonotone(d1: real, d2: real, b1: real, b2: real, alpha: real)
    requires 0.0 <= alpha <= 1.0 && d1 <= d2 && b2 <= b1
    ensures HybridScore(Some(d1), Some(b1), alpha) <= HybridScore(Some(d2), Some(b2), alpha)
  {
    MulNonNegative(d2 - d1, alpha);
    MulNonNegative(MinReal(b1, 1.0) - MinReal(b2, 1.0), 1.0 - alpha);
    assert d2 * alpha - d1 * alpha == (d2 - d1) * alpha;
    var x1 := (1.0 - MinReal(b1, 1.0)) * (1.0 - alpha);
    var x2 := (1.0 - MinReal(b2, 1.0)) * (1.0 - alpha);
    assert x2 - x1 == (MinReal(b1, 1.0) - MinReal(b2, 1.0)) * (1.0 - alpha);
  }

  lemma MulNonNegative(x: real, y: real)
    requires x >= 0.0 && y >= 0.0
    ensures x * y >= 0.0
  {
  }

  /** The chunk of the first hit with that id (the join with `text_chunks` on its key). */
  function ChunkFor(hits: seq<Hit>, id: int): (c: Chunk)
    requires exists h :: h in hits && HitId(h) == id
    ensures c.id == id && exists h :: h in hits && h.chunk == c
  {
    if HitId(hits[0]) == id then hits[0].chunk
    else
      assert forall h :: h in hits ==> h == hits[0] || h in hits[1..];
      ChunkFor(hits[1..], id)
  }

  /** The fused row of one id. */
  function FusedRow(dense: seq<Hit>, sparse: seq<Hit>, id: int, alpha: real): Row
    requires exists h :: h in dense + sparse && HitId(h) == id
  {
    var d := MinScore(dense, id);
    var b := MaxScore(sparse, id);
    Row(ChunkFor(dense + sparse, id), d, b, Some(HybridScore(d, b, alpha)), None)
  }

  /** The fused rows of the given ids, in that order. */
  function FusedRows(dense: seq<Hit>, sparse: seq<Hit>, ids: seq<int>, alpha: real): (rows: seq<Row>)
    requires forall id :: id in ids ==> exists h :: h in dense + sparse && HitId(h) == id
    ensures |rows| == |ids|
    ensures forall i :: 0 <= i < |ids| ==> ids[i] in ids && rows[i] == FusedRow(dense, sparse, ids[i], alpha)
  {
    seq(|ids|, i requires 0 <= i < |ids| => assert ids[i] in ids; FusedRow(dense, sparse, ids[i], alpha))
  }

  function HybridKey(r: Row): real { r.hybridScore.GetOr(0.0) }

  /** The rows before sorting: one per id of either pool, first the dense ids. */
  function Merged(dense: seq<Hit>, sparse: seq<Hit>, alpha: real): seq<Row> {
    FusedRows(dense, sparse, MergedIds(dense + sparse), alpha)
  }

  /** `search_hybrid` over the two pools: `order by hybrid_score asc limit :pool`. */
  function Fuse(dense: seq<Hit>, sparse: seq<Hit>, alpha: real, poolN: nat): seq<Row> {
    Cut(SortBy(Merged(dense, sparse, alpha), HybridKey), poolN)
  }

  // ---------------------------------------------------------------------------
  // Properties of the fused pool.
  // ---------------------------------------------------------------------------

  /** Ascending by the fused score, and never longer than `pool_n`. */
  lemma FuseSorted(dense: seq<Hit>, sparse: seq<Hit>, alpha: real, poolN: nat)
    ensures SortedBy(Fuse(dense, sparse, alpha, poolN), HybridKey)
    ensures |Fuse(dense, sparse, alpha, poolN)| <= poolN
  {
    var s := SortBy(Merged(dense, sparse, alpha), HybridKey);
    SortSorted(Merged(dense, sparse, alpha), HybridKey);
    assert forall i :: 0 <= i < |Cut(s, poolN)| ==> Cut(s, poolN)[i] == s[i];
  }

  /** Each fused row is one chunk of the pools, with the minimal distance and maximal
      rank of its id and the weighted score of those. */
  lemma FuseRows(dense: seq<Hit>, sparse: seq<Hit>, alpha: real, poolN: nat)
    ensures forall r :: r in Fuse(dense, sparse, alpha, poolN) ==>
      && (exists h :: h in dense + sparse && h.chunk == r.chunk)
      && r.dist == MinScore(dense, r.chunk.id)
      && r.bm25 == MaxScore(sparse, r.chunk.id)
      && r.hybridScore == Some(HybridScore(r.dist, r.bm25, alpha))
      && (r.dist.Some? || r.bm25.Some?)
  {
    var m := Merged(dense, sparse, alpha);
    SortMembers(m, HybridKey);
    forall r | r in Fuse(dense, sparse, alpha, poolN)
      ensures && (exists h :: h in dense + sparse && h.chunk == r.chunk)
              && r.dist == MinScore(dense, r.chunk.id)
              && r.bm25 == MaxScore(sparse, r.chunk.id)
              && r.hybridScore == Some(HybridScore(r.dist, r.bm25, alpha))
              && (r.dist.Some? || r.bm25.Some?)
    {
      assert r in SortBy(m, HybridKey);
      var i :| 0 <= i < |m| && m[i] == r;
      var id := MergedIds(dense + sparse)[i];
      var h :| h in dense + sparse && HitId(h) == id;
      assert h in dense || h in sparse;
    }
  }

  /** At most one row per id. */
  lemma FuseDistinctIds(dense: seq<Hit>, sparse: seq<Hit>, alpha: real, poolN: nat)
    ensures DistinctBy(Fuse(dense, sparse, alpha, poolN), (r: Row) => r.chunk.id)
  {
    var m := Merged(dense, sparse, alpha);
    var ids := MergedIds(dense + sparse);
    assert DistinctBy(m, (r: Row) => r.chunk.id) by {
      forall i, j | 0 <= i < j < |m| ensures m[i].chunk.id != m[j].chunk.id {
        assert m[i].chunk.id == ids[i] && m[j].chunk.id == ids[j];
      }
    }
    SortDistinct(m, HybridKey, (r: Row) => r.chunk.id);
    var s := SortBy(m, HybridKey);
    assert forall i :: 0 <= i < |Cut(s, poolN)| ==> Cut(s, poolN)[i] == s[i];
  }

  /** Every id of either pool is fused. */
  lemma MergedCoversPools(dense: seq<Hit>, sparse: seq<Hit>, alpha: real)
    ensures forall h :: h in dense + sparse ==> exists r :: r in Merged(dense, sparse, alpha) && r.chunk.id == HitId(h)
  {
    var m := Merged(dense, sparse, alpha);
    var ids := MergedIds(dense + sparse);
    forall h | h in dense + sparse ensures exists r :: r in m && r.chunk.id == HitId(h) {
      assert HitId(h) in ids;
      var i :| 0 <= i < |ids| && ids[i] == HitId(h);
      assert m[i] == FusedRow(dense, sparse, ids[i], alpha);
      assert m[i].chunk.id == HitId(h);
    }
  }

  /** The cut drops only rows scored no better than every row it keeps. */
  lemma FuseKeepsBest(dense: seq<Hit>, sparse: seq<Hit>, alpha: real, poolN: nat)
    ensures forall r :: r in Merged(dense, sparse, alpha) ==>
      r in Fuse(dense, sparse, alpha, poolN) ||
      forall o :: o in Fuse(dense, sparse, alpha, poolN) ==> HybridKey(o) <= HybridKey(r)
  {
    var m := Merged(dense, sparse, alpha);
    SortSorted(m, HybridKey);
    SortMembers(m, HybridKey);
    CutSortedBest(SortBy(m, HybridKey), HybridKey, poolN);
  }

  /** A prefix of a sorted sequence holds keys no larger than any element it leaves out. */
  lemma CutSortedBest<T>(s: seq<T>, key: T -> real, n: nat)
    requires SortedBy(s, key)
    ensures forall x :: x in s ==> x in Cut(s, n) || forall o :: o in Cut(s, n) ==> key(o) <= key(x)
  {
    var out := Cut(s, n);
    forall x | x in s && x !in out ensures forall o :: o in out ==> key(o) <= key(x) {
      var j :| 0 <= j < |s| && s[j] == x;
      assert j >= |out|;
      forall o | o in out ensures key(o) <= key(x) {
        var i :| 0 <= i < |out| && out[i] == o;
        assert s[i] == o;
      }
    }
  }
}
