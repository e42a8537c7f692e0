/** `retrieve`: the end-to-end pipeline. It builds the dense or the fused pool (each
    search first runs its index guards), short-circuits on an empty pool, deduplicates
    per document when asked to or when sources are given, optionally reranks, and
    cuts to `top_k`. */
module Retrieve {
  import opened Common
  import opened Sorting
  import opened RetrievalRows
  import opened IndexGuards
  import opened Fusion
  import opened Dedup
  import opened Rerank

  /** The arguments of `retrieve`. `sources` is `[]` for `None` (both are falsy). */
  datatype Config = Config(
    topK: int,
    alpha: real,
    useBm25: bool,
    poolN: nat,
    rerank: bool,
    rerankModel: string,
    sources: seq<string>,
    dedup: bool)

  /** The defaults of `retrieve`: `top_k=20, alpha=0.5, use_bm25=False, pool_n=200,
      rerank=False, rerank_model="BAAI/bge-reranker-large", sources=None, dedup=True`. */
  const DefaultConfig: Config := Config(20, 0.5, false, 200, false, DefaultCrossEncoder, [], true)

  /** What the outside world answers: the ANN and the lexical engines' hits for the
      query (each already limited to `pool_n`), how the index DDL fares, which
      cross-encoders load and what they score, and the Cohere key and service. */
  datatype World = World(
    dense: seq<Hit>,
    sparse: seq<Hit>,
    generatedColumnOk: bool,
    ftsDdlOk: bool,
    vecDdlOk: bool,
    loads: string -> bool,
    scorer: (string, string, seq<string>) -> seq<real>,
    cohereKey: Option<string>,
    cohere: (string, seq<string>, int) -> CohereReply)

  /** `search_dense`'s rows: each hit with its distance as `dist`. */
  function DenseRows(hits: seq<Hit>): (rows: seq<Row>)
    ensures |rows| == |hits|
    ensures forall i :: 0 <= i < |hits| ==> rows[i].chunk == hits[i].chunk && rows[i].dist == Some(hits[i].score)
  {
    seq(|hits|, i requires 0 <= i < |hits| => Row(hits[i].chunk, Some(hits[i].score), None, None, None))
  }

  /** `rerank_model.lower().startswith("cohere")`. */
  predicate IsCohereModel(m: string) {
    StartsWith(Lower(m), "cohere")
  }

  /** The guard state after the searches `retrieve` calls. */
  function GuardsAfter(g: GuardState, cfg: Config, w: World): GuardState {
    var g1 := VecStep(g, w.vecDdlOk);
    if cfg.useBm25 && g1.vecReady then FtsStep(g1, w.generatedColumnOk, w.ftsDdlOk) else g1
  }

  /** The candidate pool, or the failure of a guard. */
  function PoolSpec(g: GuardState, cfg: Config, w: World): Result<seq<Row>, string> {
    var g1 := VecStep(g, w.vecDdlOk);
    if !g1.vecReady then Failure(VecDdlError)
    else if cfg.useBm25 && !FtsStep(g1, w.generatedColumnOk, w.ftsDdlOk).ftsReady then Failure(FtsDdlError)
    else if cfg.useBm25 then Success(Fuse(w.dense, w.sparse, cfg.alpha, cfg.poolN))
    else Success(DenseRows(w.dense))
  }

  /** The pool after the optional deduplication. */
  function Deduped(pool: seq<Row>, cfg: Config): seq<Row> {
    if cfg.dedup || cfg.sources != [] then DedupSpec(pool, cfg.sources) else pool
  }

  function Reranked(query: string, pool: seq<Row>, cfg: Config, w: World): Result<seq<Row>, string> {
    if !cfg.rerank then Success(pool)
    else if IsCohereModel(cfg.rerankModel) then Success(CohereSpec(query, pool, cfg.topK, w.cohereKey, w.cohere))
    else CrossEncoderSpec(query, pool, cfg.rerankModel, cfg.topK, w.loads, w.scorer)
  }

  /** What `retrieve` returns. */
  function RetrieveSpec(g: GuardState, query: string, cfg: Config, w: World): Result<seq<Row>, string> {
    var pool := PoolSpec(g, cfg, w);
    if pool.Failure? then Failure(pool.error)
    else if pool.value == [] then Success([])
    else
      var r := Reranked(query, Deduped(pool.value, cfg), cfg, w);
      if r.Failure? then r else Success(PyTake(r.value, cfg.topK))
  }

  method RunRetrieve(guards: Guards, query: string, cfg: Config, w: World) returns (res: Result<seq<Row>, string>)
    modifies guards
    ensures guards.State() == GuardsAfter(old(guards.State()), cfg, w)
    ensures res == RetrieveSpec(old(guards.State()), query, cfg, w)
  {
    var pool: seq<Row>;
    var v := guards.EnsureVectorIndex(w.vecDdlOk);
    if v.Failure? {
      return Failure(v.error);
    }
    if cfg.useBm25 {
      var f := guards.EnsureFtsColumn(w.generatedColumnOk, w.ftsDdlOk);
      if f.Failure? {
        return Failure(f.error);
      }
      pool := Fuse(w.dense, w.sparse, cfg.alpha, cfg.poolN);
    } else {
      pool := DenseRows(w.dense);
    }
    if pool == [] {
      return Success([]);
    }
    if cfg.dedup || cfg.sources != [] {
      pool := DedupByDocId(pool, cfg.sources);
    }
    if cfg.rerank {
      if IsCohereModel(cfg.rerankModel) {
        pool := RerankWithCohere(query, pool, cfg.topK, w.cohereKey, w.cohere);
      } else {
        var r := RerankCrossEncoder(query, pool, cfg.rerankModel, cfg.topK, w.loads, w.scorer);
        if r.Failure? {
          return r;
        }
        pool := r.value;
      }
    }
    res := Success(PyTake(pool, cfg.topK));
  }

  // ---------------------------------------------------------------------------
  // The promises of `retrieve`.
  // ---------------------------------------------------------------------------

  /** A pool with no rows gives an empty result, whatever else is configured. */
  lemma RetrieveEmptyPool(g: GuardState, query: string, cfg: Config, w: World)
    requires PoolSpec(g, cfg, w) == Success([])
    ensures RetrieveSpec(g, query, cfg, w) == Success([])
  {
  }

  /** Every row of `out` carries the chunk of some row of `src`. */
  predicate ChunksFrom(out: seq<Row>, src: seq<Row>) {
    forall o :: o in out ==> exists x :: x in src && x.chunk == o.chunk
  }

  /** For a non-negative `top_k` the result has exactly `min(top_k, n)` rows, `n` the
      size of the (deduplicated) pool, and every row is a chunk of the engines' hits. */
  lemma RetrieveBounded(g: GuardState, query: string, cfg: Config, w: World)
    ensures var r := RetrieveSpec(g, query, cfg, w);
      r.Success? ==>
        && (cfg.topK >= 0 ==>
              && PoolSpec(g, cfg, w).Success?
              && |r.value| == Min(cfg.topK, |Deduped(PoolSpec(g, cfg, w).value, cfg)|))
        && (forall o :: o in r.value ==> exists h :: h in w.dense + w.sparse && h.chunk == o.chunk)
  {
    var pool := PoolSpec(g, cfg, w);
    if pool.Success? && pool.value == [] {
      assert |Deduped(pool.value, cfg)| == 0 by {
        assert Collect([], cfg.sources) == Best([], map[]);
      }
    }
    if pool.Success? && pool.value != [] && cfg.topK >= 0 {
      RerankedLength(query, Deduped(pool.value, cfg), cfg, w);
    }
    if pool.Success? && pool.value != [] {
      PoolFromHits(g, cfg, w);
      PipelineFromPool(query, pool.value, cfg, w);
      var r := RetrieveSpec(g, query, cfg, w);
      if r.Success? {
        forall o | o in r.value ensures exists h :: h in w.dense + w.sparse && h.chunk == o.chunk {
          var x :| x in pool.value && x.chunk == o.chunk;
        }
      }
    }
  }

  /** Reranking and the cut leave `min(top_k, n)` rows of a pool of `n`. */
  lemma RerankedLength(query: string, pool: seq<Row>, cfg: Config, w: World)
    requires cfg.topK >= 0
    ensures var r := Reranked(query, pool, cfg, w);
      r.Success? ==> |PyTake(r.value, cfg.topK)| == Min(cfg.topK, |pool|)
  {
    var r := Reranked(query, pool, cfg, w);
    if cfg.rerank && r.Success? {
      if IsCohereModel(cfg.rerankModel) {
        assert |CohereSpec(query, pool, cfg.topK, w.cohereKey, w.cohere)| == Min(cfg.topK, |pool|);
      } else if pool != [] {
        var m := ChooseModel(cfg.rerankModel, w.loads);
        var scores := w.scorer(m.value, query, Passages(pool, CrossEncoderPassageLimit));
        assert |WithScores(pool, scores)| == |pool|;
      }
    }
  }

  /** Deduplication, reranking and the cut only pass on rows of the pool's chunks. */
  lemma PipelineFromPool(query: string, p: seq<Row>, cfg: Config, w: World)
    ensures var r := Reranked(query, Deduped(p, cfg), cfg, w);
      r.Success? ==> ChunksFrom(PyTake(r.value, cfg.topK), p)
  {
    var d := Deduped(p, cfg);
    DedupedFromPool(p, cfg);
    RerankedFromPool(query, d, cfg, w);
    var r := Reranked(query, d, cfg, w);
    if r.Success? {
      TakeFromPool(r.value, d, p, cfg.topK);
    }
  }

  /** Deduplication keeps only rows of the pool. */
  lemma DedupedFromPool(p: seq<Row>, cfg: Config)
    ensures forall o :: o in Deduped(p, cfg) ==> o in p
  {
    if cfg.dedup || cfg.sources != [] { DedupOnePerDocument(p, cfg.sources); }
  }

  /** A cut of rows carrying chunks of `d`, itself drawn from `p`, carries chunks of `p`. */
  lemma TakeFromPool(rs: seq<Row>, d: seq<Row>, p: seq<Row>, k: int)
    requires forall o :: o in d ==> o in p
    requires forall o :: o in rs ==> exists i :: 0 <= i < |d| && o.chunk == d[i].chunk
    ensures ChunksFrom(PyTake(rs, k), p)
  {
    var out := PyTake(rs, k);
    forall o | o in out ensures exists x :: x in p && x.chunk == o.chunk {
      assert o in rs;
      var i :| 0 <= i < |d| && o.chunk == d[i].chunk;
      assert d[i] in p;
    }
  }

  /** The pool consists of the engines' chunks. */
  lemma PoolFromHits(g: GuardState, cfg: Config, w: World)
    ensures var pool := PoolSpec(g, cfg, w);
      pool.Success? ==> forall o :: o in pool.value ==> exists h :: h in w.dense + w.sparse && h.chunk == o.chunk
  {
    var pool := PoolSpec(g, cfg, w);
    if pool.Success? {
      if cfg.useBm25 {
        FuseRows(w.dense, w.sparse, cfg.alpha, cfg.poolN);
      } else {
        var p := pool.value;
        forall o | o in p ensures exists h :: h in w.dense + w.sparse && h.chunk == o.chunk {
          var i :| 0 <= i < |p| && p[i] == o;
          assert w.dense[i] in w.dense + w.sparse;
        }
      }
    }
  }

  /** The reranked pool consists of the pool's chunks. */
  lemma RerankedFromPool(query: string, pool: seq<Row>, cfg: Config, w: World)
    ensures var r := Reranked(query, pool, cfg, w);
      r.Success? ==> forall o :: o in r.value ==> exists i :: 0 <= i < |pool| && o.chunk == pool[i].chunk
  {
    var r := Reranked(query, pool, cfg, w);
    if r.Success? {
      if !cfg.rerank {
        forall o | o in r.value ensures exists i :: 0 <= i < |pool| && o.chunk == pool[i].chunk {
          var i :| 0 <= i < |pool| && pool[i] == o;
        }
      } else if IsCohereModel(cfg.rerankModel) {
        CohereFromCandidates(query, pool, cfg.topK, w.cohereKey, w.cohere);
      } else {
        if pool != [] {
          CrossEncoderResult(query, pool, cfg.rerankModel, cfg.topK, w.loads, w.scorer);
        }
      }
    }
  }

  /** Every row Cohere returns is a candidate's chunk, on every path. */
  lemma CohereFromCandidates(query: string, cands: seq<Row>, topK: int, key: Option<string>,
                             service: (string, seq<string>, int) -> CohereReply)
    ensures forall o :: o in CohereSpec(query, cands, topK, key, service) ==>
      exists i :: 0 <= i < |cands| && o.chunk == cands[i].chunk
  {
    var out := CohereSpec(query, cands, topK, key, service);
    if key.None? || key.value == [] || cands == [] {
      PrefixFromCandidates(cands, cands, topK);
    } else {
      var reply := service(query, Passages(cands, CoherePassageLimit), Min(topK, |cands|));
      if reply.CohereRaised? {
        PrefixFromCandidates(cands, cands, topK);
      } else if !AssignScores(cands, reply.items).finished {
        PrefixFromCandidates(cands, AssignScores(cands, reply.items).rows, topK);
      } else {
        CohereSuccess(query, cands, topK, key, service);
      }
    }
  }

  lemma PrefixFromCandidates(cands: seq<Row>, rows: seq<Row>, topK: int)
    requires |rows| == |cands| && forall i :: 0 <= i < |cands| ==> rows[i].chunk == cands[i].chunk
    ensures forall o :: o in PyTake(rows, topK) ==> exists i :: 0 <= i < |cands| && o.chunk == cands[i].chunk
  {
    forall o | o in PyTake(rows, topK) ensures exists i :: 0 <= i < |cands| && o.chunk == cands[i].chunk {
      var i :| 0 <= i < |PyTake(rows, topK)| && PyTake(rows, topK)[i] == o;
      assert rows[i] == o;
    }
  }

  /** With deduplication on (or sources given), the result holds at most one row per
      document, each with a non-empty `document_id`, and, when sources are given, only
      rows from them; reranking and the cut keep all of this. */
  lemma RetrieveOnePerDocument(g: GuardState, query: string, cfg: Config, w: World)
    requires cfg.dedup || cfg.sources != []
    ensures var r := RetrieveSpec(g, query, cfg, w);
      r.Success? ==>
        && DistinctBy(r.value, DocOf)
        && (forall o :: o in r.value ==> o.chunk.documentId.Some? && o.chunk.documentId.value != [])
        && (cfg.sources != [] ==> forall o :: o in r.value ==>
              o.chunk.source.Some? && o.chunk.source.value in cfg.sources)
  {
    var pool := PoolSpec(g, cfg, w);
    if pool.Success? && pool.value != [] {
      var d := DedupSpec(pool.value, cfg.sources);
      DedupOnePerDocument(pool.value, cfg.sources);
      var r := Reranked(query, d, cfg, w);
      if r.Success? {
        RerankedFromPool(query, d, cfg, w);
        RerankedKeepsDistinct(query, d, cfg, w);
        CutKeepsDocuments(r.value, d, cfg.topK, cfg.sources);
      }
    }
  }

  /** A cut of rows that carry chunks of `d`, one per document, keeps one per document
      and keeps `d`'s document ids and sources. */
  lemma CutKeepsDocuments(rs: seq<Row>, d: seq<Row>, k: int, sources: seq<string>)
    requires DistinctBy(rs, DocOf)
    requires forall o :: o in rs ==> exists i :: 0 <= i < |d| && o.chunk == d[i].chunk
    requires forall o :: o in d ==> o.chunk.documentId.Some? && o.chunk.documentId.value != []
    requires sources != [] ==> forall o :: o in d ==> o.chunk.source.Some? && o.chunk.source.value in sources
    ensures DistinctBy(PyTake(rs, k), DocOf)
    ensures forall o :: o in PyTake(rs, k) ==> o.chunk.documentId.Some? && o.chunk.documentId.value != []
    ensures sources != [] ==> forall o :: o in PyTake(rs, k) ==>
      o.chunk.source.Some? && o.chunk.source.value in sources
  {
    var out := PyTake(rs, k);
    assert forall i :: 0 <= i < |out| ==> out[i] == rs[i];
    forall o | o in out
      ensures o.chunk.documentId.Some? && o.chunk.documentId.value != []
      ensures sources != [] ==> o.chunk.source.Some? && o.chunk.source.value in sources
    {
      assert o in rs;
      var i :| 0 <= i < |d| && o.chunk == d[i].chunk;
      assert d[i] in d;
    }
  }

  /** Reranking never puts two rows of one document into the result when the pool has none. */
  lemma RerankedKeepsDistinct(query: string, pool: seq<Row>, cfg: Config, w: World)
    requires DistinctBy(pool, DocOf)
    ensures var r := Reranked(query, pool, cfg, w); r.Success? ==> DistinctBy(r.value, DocOf)
  {
    var r := Reranked(query, pool, cfg, w);
    if cfg.rerank && r.Success? {
      if IsCohereModel(cfg.rerankModel) {
        var key := w.cohereKey;
        if key.None? || key.value == [] || pool == [] {
          PrefixDistinct(pool, pool, cfg.topK);
        } else {
          var reply := w.cohere(query, Passages(pool, CoherePassageLimit), Min(cfg.topK, |pool|));
          if reply.CohereRaised? {
            PrefixDistinct(pool, pool, cfg.topK);
          } else {
            var a := AssignScores(pool, reply.items);
            SameChunksDistinct(pool, a.rows);
            if !a.finished {
              PrefixDistinct(a.rows, a.rows, cfg.topK);
            } else {
              RankByRerankKeepsDistinct(a.rows, cfg.topK, DocOf);
            }
          }
        }
      } else if pool != [] {
        var m := ChooseModel(cfg.rerankModel, w.loads);
        var scores := w.scorer(m.value, query, Passages(pool, CrossEncoderPassageLimit));
        var ws := WithScores(pool, scores);
        SameChunksDistinct(pool, ws);
        RankByRerankKeepsDistinct(ws, cfg.topK, DocOf);
      }
    }
  }

  lemma SameChunksDistinct(a: seq<Row>, b: seq<Row>)
    requires DistinctBy(a, DocOf)
    requires |b| == |a| && forall i :: 0 <= i < |a| ==> b[i].chunk == a[i].chunk
    ensures DistinctBy(b, DocOf)
  {
    forall i, j | 0 <= i < j < |b| ensures DocOf(b[i]) != DocOf(b[j]) {
      assert DocOf(b[i]) == DocOf(a[i]) && DocOf(b[j]) == DocOf(a[j]);
    }
  }

  lemma PrefixDistinct(a: seq<Row>, b: seq<Row>, k: int)
    requires a == b && DistinctBy(b, DocOf)
    ensures DistinctBy(PyTake(b, k), DocOf)
  {
    var t := PyTake(b, k);
    assert forall i :: 0 <= i < |t| ==> t[i] == b[i];
  }

  /** After a successful call, the guards of the searches it used have run. */
  lemma RetrieveRanGuards(g: GuardState, query: string, cfg: Config, w: World)
    requires RetrieveSpec(g, query, cfg, w).Success?
    ensures GuardsAfter(g, cfg, w).vecReady
    ensures cfg.useBm25 ==> GuardsAfter(g, cfg, w).ftsReady
  {
  }

  /** Without deduplication, sources or reranking the result is the pool's first `top_k` rows. */
  lemma RetrievePlain(g: GuardState, query: string, cfg: Config, w: World)
    requires !cfg.dedup && cfg.sources == [] && !cfg.rerank
    requires PoolSpec(g, cfg, w).Success?
    ensures RetrieveSpec(g, query, cfg, w) == Success(PyTake(PoolSpec(g, cfg, w).value, cfg.topK))
  {
  }

  /** A model name selects Cohere exactly when its first six characters spell "cohere"
      in any letter case; the default cross-encoder does not. */
  lemma CohereDispatch(m: string)
    ensures IsCohereModel(m) <==>
      |m| >= 6 && forall i :: 0 <= i < 6 ==> m[i] == "cohere"[i] || m[i] == "COHERE"[i]
    ensures !IsCohereModel(DefaultCrossEncoder)
  {
    if |m| >= 6 {
      forall i | 0 <= i < 6
        ensures LowerChar(m[i]) == "cohere"[i] <==> m[i] == "cohere"[i] || m[i] == "COHERE"[i]
      {
        LowerCharIs(m[i], "cohere"[i], "COHERE"[i]);
      }
      assert Lower(m)[..6] == "cohere" <==> forall i :: 0 <= i < 6 ==> Lower(m)[i] == "cohere"[i];
    }
    assert Lower(DefaultCrossEncoder)[0] == 'b';
  }

  /** Only the lower-case letter and its upper-case form lower to a given letter. */
  lemma LowerCharIs(c: char, lo: char, up: char)
    requires 'a' <= lo <= 'z' && up as int == lo as int - 32
    ensures LowerChar(c) == lo <==> c == lo || c == up
  {
  }

  /** With reranking on, the Cohere path is taken exactly for a Cohere model name and
      the cross-encoder otherwise; with it off the pool passes unchanged. */
  lemma RerankDispatch(query: string, pool: seq<Row>, cfg: Config, w: World)
    ensures cfg.rerank && IsCohereModel(cfg.rerankModel) ==>
      Reranked(query, pool, cfg, w) == Success(CohereSpec(query, pool, cfg.topK, w.cohereKey, w.cohere))
    ensures cfg.rerank && !IsCohereModel(cfg.rerankModel) ==>
      Reranked(query, pool, cfg, w) == CrossEncoderSpec(query, pool, cfg.rerankModel, cfg.topK, w.loads, w.scorer)
    ensures !cfg.rerank ==> Reranked(query, pool, cfg, w) == Success(pool)
  {
  }

  /** A call that relies on every default searches dense only, deduplicates per document
      with no source filter, and keeps the first 20 rows: `min(20, n)` of the `n`
      documents of the ANN hits. A failing vector guard raises. */
  lemma RetrieveDefaults(g: GuardState, query: string, w: World)
    ensures RetrieveSpec(g, query, DefaultConfig, w) ==
      if VecStep(g, w.vecDdlOk).vecReady then Success(PyTake(DedupSpec(DenseRows(w.dense), []), 20))
      else Failure(VecDdlError)
    ensures RetrieveSpec(g, query, DefaultConfig, w).Success? ==>
      |RetrieveSpec(g, query, DefaultConfig, w).value| == Min(20, |DedupSpec(DenseRows(w.dense), [])|)
  {
    assert Collect([], []) == Best([], map[]);
    RetrieveBounded(g, query, DefaultConfig, w);
  }
}
