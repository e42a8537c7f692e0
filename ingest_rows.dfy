/** The `text_chunks` rows the ingestion jobs write, and Python's truthiness of an optional
    text column. */
module TextChunkRows {
  import opened Common

  /** A row written to `text_chunks` (its `meta_data` and `created_at` are not modelled). */
  datatype StoredChunk = StoredChunk(
    source: string,
    documentId: Option<string>,
    symbol: Option<string>,
    chunkIndex: int,
    content: string,
    embedding: seq<real>)

  /** A column value that is neither `None` nor the empty string. */
  predicate Truthy(s: Option<string>) { s.Some? && s.value != [] }
}
