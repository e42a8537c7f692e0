/** The rows the retrieval layer passes around: a chunk of `text_chunks` with the score
    columns that the stage that produced it added. */
module RetrievalRows {
  import opened Common

  /** A row of `text_chunks` as selected by the searches (id, source, symbol,
      document_id, chunk_index, content). */
  datatype Chunk = Chunk(
    id: int,
    source: Option<string>,
    symbol: Option<string>,
    documentId: Option<string>,
    chunkIndex: int,
    content: string)

  /** A candidate: dense rows carry `dist`; fused rows carry `dist`, `bm25` and
      `hybrid_score` (either of the first two may be NULL); a reranker adds `rerank_score`. */
  datatype Row = Row(
    chunk: Chunk,
    dist: Option<real>,
    bm25: Option<real>,
    hybridScore: Option<real>,
    rerankScore: Option<real>)

  /** One hit of a search engine: the chunk and the engine's score for it
      (a distance for the ANN search, a relevance for the lexical one). */
  datatype Hit = Hit(chunk: Chunk, score: real)

  /** The comparison score of `_dedup_by_docid` (lower is better): the negated
      `rerank_score` if present, else `dist`, else `1 - bm25` with `bm25` defaulting to 0. */
  function InternalScore(r: Row): real {
    if r.rerankScore.Some? then -r.rerankScore.value
    else if r.dist.Some? then r.dist.value
    else 1.0 - r.bm25.GetOr(0.0)
  }

  /** `x.get("rerank_score", 0.0)`, the key both rerankers sort by. */
  function RerankKey(r: Row): real {
    r.rerankScore.GetOr(0.0)
  }

  function ChunkOf(r: Row): Chunk { r.chunk }
}
