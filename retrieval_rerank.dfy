/** The two rerankers: a cross-encoder scores every (query, passage) pair, the Cohere
    service scores the documents it returns; both write `rerank_score` into the
    candidates and return them sorted by it, best first, cut to `top_k`. The models and
    the service are oracles. */
module Rerank {
  import opened Common
  import opened Sorting
  import opened RetrievalRows

  /** The descending sort key: `sorted(..., key=rerank_score, reverse=True)` is the
      stable ascending sort by the negated score. */
  function NegRerankKey(r: Row): real { -RerankKey(r) }

  /** `sorted(candidates, key=..., reverse=True)[:top_k]`. */
  function RankByRerank(cands: seq<Row>, topK: int): (out: seq<Row>)
    ensures topK >= 0 ==> |out| == Min(topK, |cands|)
    ensures forall r :: r in out ==> r in cands
  {
    var s := SortBy(cands, NegRerankKey);
    SortMembers(cands, NegRerankKey);
    PyTake(s, topK)
  }

  /** The `[:top_k]` cut keeps the best: a candidate left out scores no higher than any
      row kept. */
  lemma RankByRerankKeepsBest(cands: seq<Row>, topK: int)
    ensures forall c :: c in cands ==>
      || c in RankByRerank(cands, topK)
      || forall o :: o in RankByRerank(cands, topK) ==> RerankKey(c) <= RerankKey(o)
  {
    var s := SortBy(cands, NegRerankKey);
    SortSorted(cands, NegRerankKey);
    SortMembers(cands, NegRerankKey);
    var out := RankByRerank(cands, topK);
    assert out == PyTake(s, topK) && out <= s;
    forall c | c in cands && c !in out ensures forall o :: o in out ==> RerankKey(c) <= RerankKey(o) {
      var j :| 0 <= j < |s| && s[j] == c;
      assert j >= |out|;
      forall o | o in out ensures RerankKey(c) <= RerankKey(o) {
        var i :| 0 <= i < |out| && out[i] == o;
        assert s[i] == o;
        assert NegRerankKey(s[i]) <= NegRerankKey(s[j]);
      }
    }
  }

  /** `out` is a reranked selection of `cands`: best first, at most `top_k` rows (for a
      non-negative `top_k`), each carrying the chunk of a candidate. */
  predicate RankedFrom(out: seq<Row>, cands: seq<Row>, topK: int) {
    && (topK >= 0 ==> |out| <= topK)
    && (forall i, j :: 0 <= i < j < |out| ==> RerankKey(out[i]) >= RerankKey(out[j]))
    && (forall r :: r in out ==> exists i :: 0 <= i < |cands| && r.chunk == cands[i].chunk)
  }

  /** The ranking is ordered best first. */
  lemma RankByRerankDescending(cands: seq<Row>, topK: int)
    ensures forall i, j :: 0 <= i < j < |RankByRerank(cands, topK)| ==>
      RerankKey(RankByRerank(cands, topK)[i]) >= RerankKey(RankByRerank(cands, topK)[j])
  {
    var s := SortBy(cands, NegRerankKey);
    SortSorted(cands, NegRerankKey);
    var out := RankByRerank(cands, topK);
    forall i, j | 0 <= i < j < |out| ensures RerankKey(out[i]) >= RerankKey(out[j]) {
      assert out[i] == s[i] && out[j] == s[j];
      assert NegRerankKey(s[i]) <= NegRerankKey(s[j]);
    }
  }

  /** The ranking keeps whatever the candidates share elementwise: one row per document,
      a property of every row. */
  lemma RankByRerankKeepsDistinct<U>(cands: seq<Row>, topK: int, f: Row -> U)
    requires DistinctBy(cands, f)
    ensures DistinctBy(RankByRerank(cands, topK), f)
  {
    var s := SortBy(cands, NegRerankKey);
    SortDistinct(cands, NegRerankKey, f);
    var out := RankByRerank(cands, topK);
    assert forall i :: 0 <= i < |out| ==> out[i] == s[i];
  }

  // ---------------------------------------------------------------------------
  // `rerank_cross_encoder`.
  // ---------------------------------------------------------------------------

  const DefaultCrossEncoder: string := "BAAI/bge-reranker-large"
  const FallbackCrossEncoder: string := "cross-encoder/ms-marco-MiniLM-L-6-v2"
  const CrossEncoderPassageLimit: nat := 3500

  /** The passages the cross-encoder scores: each candidate's content cut to 3500 characters. */
  function Passages(cands: seq<Row>, limit: nat): (ps: seq<string>)
    ensures |ps| == |cands|
    ensures forall i :: 0 <= i < |cands| ==> ps[i] <= cands[i].chunk.content && |ps[i]| <= limit
    ensures forall i :: 0 <= i < |cands| && |cands[i].chunk.content| <= limit ==> ps[i] == cands[i].chunk.content
  {
    seq(|cands|, i requires 0 <= i < |cands| => Cut(cands[i].chunk.content, limit))
  }

  /** The model that is used: the requested one if it loads, else the MiniLM fallback;
      `None` when neither loads (the second load raises). */
  function ChooseModel(modelName: string, loads: string -> bool): (m: Option<string>)
    ensures m.Some? ==> loads(m.value) && (m.value == modelName || m.value == FallbackCrossEncoder)
    ensures loads(modelName) ==> m == Some(modelName)
    ensures m.None? <==> !loads(modelName) && !loads(FallbackCrossEncoder)
  {
    if loads(modelName) then Some(modelName)
    else if loads(FallbackCrossEncoder) then Some(FallbackCrossEncoder)
    else None
  }

  /** `for c, s in zip(candidates, scores): c["rerank_score"] = float(s)`: the first
      `min(len(candidates), len(scores))` candidates get their score. */
  function WithScores(cands: seq<Row>, scores: seq<real>): seq<Row> {
    seq(|cands|, i requires 0 <= i < |cands| => ScoredAt(cands, scores, i))
  }

  /** Candidate `i` with its logit, when there is one. */
  function ScoredAt(cands: seq<Row>, scores: seq<real>, i: nat): Row
    requires i < |cands|
  {
    if i < |scores| then cands[i].(rerankScore := Some(scores[i])) else cands[i]
  }

  /** What `rerank_cross_encoder` returns; `Failure` when no model loads. The scorer
      maps (model, query, passages) to one logit per passage. */
  function CrossEncoderSpec(query: string, cands: seq<Row>, modelName: string, topK: int,
                            loads: string -> bool, scorer: (string, string, seq<string>) -> seq<real>)
    : Result<seq<Row>, string>
  {
    var m := ChooseModel(modelName, loads);
    if m.None? then Failure("cross-encoder model could not be loaded")
    else if cands == [] then Success([])
    else
      var scores := scorer(m.value, query, Passages(cands, CrossEncoderPassageLimit));
      Success(RankByRerank(WithScores(cands, scores), topK))
  }

  method RerankCrossEncoder(query: string, candidates: seq<Row>, modelName: string, topK: int,
                            loads: string -> bool, scorer: (string, string, seq<string>) -> seq<real>)
    returns (res: Result<seq<Row>, string>)
    ensures res == CrossEncoderSpec(query, candidates, modelName, topK, loads, scorer)
  {
    var model := modelName;
    if !loads(model) {
      model := FallbackCrossEncoder;
      if !loads(model) {
        return Failure("cross-encoder model could not be loaded");
      }
    }
    var passages: seq<string> := [];
    for i := 0 to |candidates|
      invariant passages == Passages(candidates[..i], CrossEncoderPassageLimit)
    {
      passages := passages + [Cut(candidates[i].chunk.content, CrossEncoderPassageLimit)];
    }
    assert candidates[..|candidates|] == candidates;
    if passages == [] {
      return Success([]);
    }
    var scores := scorer(model, query, passages);
    var cs := candidates;
    var n := Min(|candidates|, |scores|);
    for i := 0 to n
      invariant |cs| == |candidates|
      invariant forall k :: 0 <= k < |cs| ==>
        cs[k] == if k < i then candidates[k].(rerankScore := Some(scores[k])) else candidates[k]
    {
      cs := cs[i := cs[i].(rerankScore := Some(scores[i]))];
    }
    assert cs == WithScores(candidates, scores);
    res := Success(RankByRerank(cs, topK));
  }

  /** With a model available: empty candidates give an empty list; otherwise the
      result is best first, at most `top_k` long (for a non-negative `top_k`), and
      each row is a candidate carrying the logit of its passage (a candidate past the
      end of the logits keeps its old score, as `zip` stops at the shorter list). For a
      non-negative `top_k` exactly `min(top_k, n)` of the `n` candidates come back. */
  lemma CrossEncoderResult(query: string, cands: seq<Row>, modelName: string, topK: int,
                           loads: string -> bool, scorer: (string, string, seq<string>) -> seq<real>)
    requires loads(modelName) || loads(FallbackCrossEncoder)
    ensures CrossEncoderSpec(query, cands, modelName, topK, loads, scorer).Success?
    ensures cands == [] ==> CrossEncoderSpec(query, cands, modelName, topK, loads, scorer) == Success([])
    ensures RankedFrom(CrossEncoderSpec(query, cands, modelName, topK, loads, scorer).value, cands, topK)
    ensures topK >= 0 ==>
      |CrossEncoderSpec(query, cands, modelName, topK, loads, scorer).value| == Min(topK, |cands|)
    ensures cands != [] ==>
      var scores := scorer(ChooseModel(modelName, loads).value, query, Passages(cands, CrossEncoderPassageLimit));
      forall o :: o in CrossEncoderSpec(query, cands, modelName, topK, loads, scorer).value ==>
        exists i :: 0 <= i < |cands| && o == ScoredAt(cands, scores, i)
  {
    if cands != [] {
      var m := ChooseModel(modelName, loads);
      var scores := scorer(m.value, query, Passages(cands, CrossEncoderPassageLimit));
      var scored := WithScores(cands, scores);
      RankedCandidates(cands, scored, topK);
      forall o | o in RankByRerank(scored, topK)
        ensures exists i :: 0 <= i < |cands| && o == ScoredAt(cands, scores, i)
      {
        var i :| 0 <= i < |scored| && scored[i] == o;
        assert o == ScoredAt(cands, scores, i);
      }
    }
  }

  /** A missing model raises before anything else, even for empty candidates. */
  lemma CrossEncoderNoModel(query: string, cands: seq<Row>, modelName: string, topK: int,
                            loads: string -> bool, scorer: (string, string, seq<string>) -> seq<real>)
    requires !loads(modelName) && !loads(FallbackCrossEncoder)
    ensures CrossEncoderSpec(query, cands, modelName, topK, loads, scorer).Failure?
  {
  }

  // ---------------------------------------------------------------------------
  // `rerank_with_cohere`.
  // ---------------------------------------------------------------------------

  const CoherePassageLimit: nat := 4000

  /** One result of a rerank call: the index of a document and its relevance. */
  datatype CohereItem = CohereItem(index: int, relevance: real)

  /** The reply of the rerank service to one call: it raised, or it sent results. */
  datatype CohereReply = CohereRaised | CohereResults(items: seq<CohereItem>)

  /** `candidates[idx]` is valid for `-len <= idx < len` (a negative index counts from the end). */
  predicate ValidIndex(n: int, idx: int) { -n <= idx < n }

  function Resolve(n: int, idx: int): (k: int)
    ensures ValidIndex(n, idx) ==> 0 <= k < n && (idx >= 0 ==> k == idx)
  {
    if idx < 0 then idx + n else idx
  }

  /** The candidates after the assignment loop, and whether it finished: an invalid
      index raises and leaves the assignments made before it in place. */
  datatype Assigned = Assigned(rows: seq<Row>, finished: bool)

  function AssignScores(cs: seq<Row>, items: seq<CohereItem>): (a: Assigned)
    ensures |a.rows| == |cs|
    ensures forall i :: 0 <= i < |cs| ==> a.rows[i].chunk == cs[i].chunk
    decreases |items|
  {
    if items == [] then Assigned(cs, true)
    else if !ValidIndex(|cs|, items[0].index) then Assigned(cs, false)
    else
      var k := Resolve(|cs|, items[0].index);
      AssignScores(cs[k := cs[k].(rerankScore := Some(items[0].relevance))], items[1..])
  }

  /** What `rerank_with_cohere` returns. `apiKey` is `COHERE_API_KEY`, and `service`
      answers (query, documents, top_n). */
  function CohereSpec(query: string, cands: seq<Row>, topK: int, apiKey: Option<string>,
                      service: (string, seq<string>, int) -> CohereReply): seq<Row>
  {
    if apiKey.None? || apiKey.value == [] || cands == [] then PyTake(cands, topK)
    else
      var docs := Passages(cands, CoherePassageLimit);
      var reply := service(query, docs, Min(topK, |docs|));
      if reply.CohereRaised? then PyTake(cands, topK)
      else
        var a := AssignScores(cands, reply.items);
        if !a.finished then PyTake(a.rows, topK)
        else RankByRerank(a.rows, topK)
  }

  method RerankWithCohere(query: string, candidates: seq<Row>, topK: int, apiKey: Option<string>,
                          service: (string, seq<string>, int) -> CohereReply)
    returns (out: seq<Row>)
    ensures out == CohereSpec(query, candidates, topK, apiKey, service)
  {
    if apiKey.None? || apiKey.value == [] || candidates == [] {
      return PyTake(candidates, topK);
    }
    var docs: seq<string> := [];
    for i := 0 to |candidates|
      invariant docs == Passages(candidates[..i], CoherePassageLimit)
    {
      docs := docs + [Cut(candidates[i].chunk.content, CoherePassageLimit)];
    }
    assert candidates[..|candidates|] == candidates;
    var reply := service(query, docs, Min(topK, |docs|));
    if reply.CohereRaised? {
      return PyTake(candidates, topK);
    }
    var items := reply.items;
    var cs := candidates;
    for i := 0 to |items|
      invariant |cs| == |candidates|
      invariant AssignScores(cs, items[i..]) == AssignScores(candidates, items)
    {
      assert items[i..][1..] == items[i + 1..];
      var idx := items[i].index;
      if !(-|cs| <= idx < |cs|) {
        return PyTake(cs, topK);
      }
      if idx < 0 {
        idx := idx + |cs|;
      }
      cs := cs[idx := cs[idx].(rerankScore := Some(items[i].relevance))];
    }
    assert items[|items|..] == [];
    out := RankByRerank(cs, topK);
  }

  /** No key, an empty key, no candidates or a raising service give `candidates[:top_k]`. */
  lemma CohereFallback(query: string, cands: seq<Row>, topK: int, apiKey: Option<string>,
                       service: (string, seq<string>, int) -> CohereReply)
    requires apiKey.None? || apiKey.value == [] || cands == [] ||
      service(query, Passages(cands, CoherePassageLimit), Min(topK, |cands|)).CohereRaised?
    ensures CohereSpec(query, cands, topK, apiKey, service) == PyTake(cands, topK)
  {
  }

  /** An index the service returns out of range interrupts the loop: the result is the
      candidates in their original order, cut to `top_k`, with the scores assigned so far. */
  lemma CohereInterruptedKeepsOrder(query: string, cands: seq<Row>, topK: int, apiKey: Option<string>,
                                    service: (string, seq<string>, int) -> CohereReply)
    requires apiKey.Some? && apiKey.value != [] && cands != []
    requires var reply := service(query, Passages(cands, CoherePassageLimit), Min(topK, |cands|));
      reply.CohereResults? && !AssignScores(cands, reply.items).finished
    ensures var out := CohereSpec(query, cands, topK, apiKey, service);
      && |out| == |PyTake(cands, topK)|
      && forall i :: 0 <= i < |out| ==> out[i].chunk == cands[i].chunk
  {
  }

  /** A candidate the service did not score keeps its earlier score, or sorts as 0.0. */
  lemma {:induction false} AssignScoresUnscored(cs: seq<Row>, items: seq<CohereItem>, k: int)
    requires 0 <= k < |cs|
    requires forall j :: 0 <= j < |items| ==> Resolve(|cs|, items[j].index) != k
    ensures AssignScores(cs, items).rows[k] == cs[k]
    decreases |items|
  {
    if items != [] && ValidIndex(|cs|, items[0].index) {
      var i := Resolve(|cs|, items[0].index);
      var cs' := cs[i := cs[i].(rerankScore := Some(items[0].relevance))];
      assert forall j :: 0 <= j < |items[1..]| ==> items[1..][j] == items[j + 1];
      AssignScoresUnscored(cs', items[1..], k);
    }
  }

  /** A candidate the service scored carries the relevance of its last result. */
  lemma {:induction false} AssignScoresScored(cs: seq<Row>, items: seq<CohereItem>, j: int)
    requires 0 <= j < |items|
    requires forall i :: 0 <= i < |items| ==> ValidIndex(|cs|, items[i].index)
    requires forall i :: j < i < |items| ==> Resolve(|cs|, items[i].index) != Resolve(|cs|, items[j].index)
    ensures AssignScores(cs, items).finished
    ensures AssignScores(cs, items).rows[Resolve(|cs|, items[j].index)].rerankScore == Some(items[j].relevance)
    decreases |items|
  {
    var k := Resolve(|cs|, items[0].index);
    var cs' := cs[k := cs[k].(rerankScore := Some(items[0].relevance))];
    var rest := items[1..];
    assert forall i :: 0 <= i < |rest| ==> rest[i] == items[i + 1];
    if j == 0 {
      AssignFinished(cs', rest);
      AssignScoresUnscored(cs', rest, k);
    } else {
      AssignScoresScored(cs', rest, j - 1);
    }
  }

  lemma {:induction false} AssignFinished(cs: seq<Row>, items: seq<CohereItem>)
    requires forall i :: 0 <= i < |items| ==> ValidIndex(|cs|, items[i].index)
    ensures AssignScores(cs, items).finished
    decreases |items|
  {
    if items != [] {
      var k := Resolve(|cs|, items[0].index);
      var cs' := cs[k := cs[k].(rerankScore := Some(items[0].relevance))];
      assert forall i :: 0 <= i < |items[1..]| ==> items[1..][i] == items[i + 1];
      AssignFinished(cs', items[1..]);
    }
  }

  /** On success the result is best first and at most `top_k` long, and every row is a
      candidate's chunk. */
  lemma CohereSuccess(query: string, cands: seq<Row>, topK: int, apiKey: Option<string>,
                      service: (string, seq<string>, int) -> CohereReply)
    requires apiKey.Some? && apiKey.value != [] && cands != []
    requires var reply := service(query, Passages(cands, CoherePassageLimit), Min(topK, |cands|));
      reply.CohereResults? && AssignScores(cands, reply.items).finished
    ensures RankedFrom(CohereSpec(query, cands, topK, apiKey, service), cands, topK)
  {
    var docs := Passages(cands, CoherePassageLimit);
    assert |docs| == |cands|;
    var reply := service(query, docs, Min(topK, |docs|));
    var a := AssignScores(cands, reply.items);
    assert a.finished;
    assert CohereSpec(query, cands, topK, apiKey, service) == RankByRerank(a.rows, topK);
    RankedCandidates(cands, a.rows, topK);
  }

  /** Ranking rescored candidates: best first, at most `top_k`, only candidates' chunks. */
  lemma RankedCandidates(cands: seq<Row>, rows: seq<Row>, topK: int)
    requires |rows| == |cands| && forall i :: 0 <= i < |cands| ==> rows[i].chunk == cands[i].chunk
    ensures RankedFrom(RankByRerank(rows, topK), cands, topK)
  {
    RankByRerankDescending(rows, topK);
    forall r | r in RankByRerank(rows, topK) ensures exists i :: 0 <= i < |cands| && r.chunk == cands[i].chunk {
      var i :| 0 <= i < |rows| && rows[i] == r;
    }
  }
}
