# Hybrid retrieval and ingestion rules, modelled in Dafny

This project models the core of a financial research assistant. The center is its hybrid
retrieval layer, which covers six steps:

- It builds a candidate pool from an ANN (pgvector) search, optionally fused with a
  lexical (`ts_rank_cd`) search.
- It keeps one row per document.
- It optionally reranks with a cross-encoder or with Cohere.
- It cuts the result to `top_k`.
- It creates the indexes it needs once per process.
- It writes the query vector as a pgvector literal.

Around the retrieval layer sit the ingestion rules that fill the chunk table:

- news chunks with a bounded document id;
- SEC filings split into paragraphs and embedded in batches with consecutive chunk indices;
- the ingestion-job status log;
- the SQL schema-script splitter;
- the equity-universe filter and its list chunker;
- the agent's routing graph, the intent dispatcher and its tool stubs;
- the equal-weight allocator.

## How the model is built

Each module follows one source component.

**Loops are methods.** Where the source loops or changes state, the model is a method.
Examples are the dedup loop, the reranker assignment loops, the paragraph buffer, the
news offset loop and the SEC batch loops. Each such method is proved equal to a
specification function. The lemmas state the source's promises about those functions.

**Mutable state is a class.** Objects whose fields the source updates in place are
classes:

- the index guards (`IndexGuards.Guards`);
- the job table (`JobStore.Jobs`);
- the agent state (`AgentGraph.AgentState`).

**Expressions are functions.** Pure expression code is modelled as functions.

**External services are parameters.** These include:

- the search engines' hits;
- the embedding model, the cross-encoder scorer and the Cohere reply;
- the SHA-1 digest,
- the EDGAR HTTP answers and the HTML parser;
- the planner's reply text and `json.loads`;
- the services behind `search_text` and `get_doc`.

**Clocks and configuration are parameters.** `datetime.now()` is the `now` argument, and
`COHERE_API_KEY` is an `Option<string>` argument.

**Scores are exact reals.** Floating-point behaviour is not modelled.

**Python semantics are written out where they matter:**

- slices with negative bounds (`Common.PyTake`);
- `range` with a zero or negative step;
- truthiness (`PyJson.Json.Truthy`);
- `int(...)` and `float(...)` on payload values;
- `x or y`.

### Ties

The searches fix no order among rows of equal score:

- The hybrid query in `retrieval_layer.py:160-190` orders by `hybrid_score` alone.
- The ANN and lexical searches order by the distance alone (`retrieval_layer.py:126`)
  and by `ts_rank_cd` alone (`retrieval_layer.py:143`).

The model resolves such ties in one fixed way. `Fusion.Fuse` lists candidates by first
appearance, dense ids first and then sparse ids. It then applies a stable sort by the
fused score. `Sorting.SortStable` proves that stable sort keeps rows of equal key in
their input order. The hit lists of the single-engine searches are given as parameters,
in whatever order the engine returned them.

The dedup step does fix the order of its ties. `best` is a dict, so
`list(best.values())` lists the documents in the order their first eligible row was
seen (`retrieval_layer.py:102-107`); a later, better row replaces the entry in place.
`out.sort` at `retrieval_layer.py:109` is stable. So rows of equal score come out in
first-seen order of their documents. `Dedup.DedupSpec` reproduces this, and
`Dedup.DedupTiesFirstSeen` proves it, through `Dedup.CollectFirstSeen` and
`Sorting.SortTiesKeepRank`.

## Model

| member | source | states |
|---|---|---|
| Dedup.DedupByDocId | retrieval_layer.py:85-112 | The dedup loop, the final sort and the removal of the score key return exactly `DedupSpec`: the best-row map kept in insertion order, then a stable sort by the comparison score |
| Dedup.Collect | retrieval_layer.py:87-106 | After any prefix of rows, every entry of the best map is eligible (its source is allowed and its document id is non-empty) and is filed under its own document id |
| Dedup.CollectComplete | retrieval_layer.py:88-106 | Every eligible row's document has an entry in the best map |
| Dedup.CollectBest | retrieval_layer.py:94-106 | Each entry is the first row of minimal comparison score among its document's eligible rows; a later row of equal score never replaces it, because the comparison is strict `<` |
| Dedup.CollectFromInput | retrieval_layer.py:104-106 | Every kept row is one of the input rows (the copy `dict(r)` changes nothing the output shows) |
| Dedup.DedupOnePerDocument | retrieval_layer.py:85-107 | The output has at most one row per `document_id`; each row's `document_id` is non-empty; with a non-empty `allowed_sources` every row's source is in it |
| Dedup.DedupCoversDocuments | retrieval_layer.py:88-107 | No document is lost: every eligible input row's document appears in the output |
| Dedup.DedupKeepsBest | retrieval_layer.py:94-106 | Each output row is the first minimal-score row of its document |
| Dedup.DedupSorted | retrieval_layer.py:107-109 | The output is ascending by the comparison score: `-rerank_score`, else `dist`, else `1 - bm25` with bm25 defaulting to 0 |
| Dedup.CollectFirstSeen | retrieval_layer.py:102-107 | The keys of `best` are exactly the documents of the eligible rows, in the order of each document's first eligible row; replacing an entry does not move it |
| Dedup.DedupTiesFirstSeen | retrieval_layer.py:102-109 | Output rows of equal score appear in the order in which their documents were first seen among the eligible rows |
| Dedup.DedupIdempotent | retrieval_layer.py:85-112 | Deduplicating a deduplicated pool returns it unchanged |
| Fusion.MergedIds | retrieval_layer.py:173-182 | The `group by id` of the union: each id of either pool once, and nothing else |
| Fusion.MinScore | retrieval_layer.py:175 | `min(dist)` of an id is attained by one of its dense hits and is at most every other one; it is NULL exactly when the id has no dense hit |
| Fusion.MaxScore | retrieval_layer.py:176 | `max(bm25)` of an id is attained by one of its lexical hits and is at least every other one; it is NULL exactly when the id has none |
| Fusion.HybridScore | retrieval_layer.py:186 | The fused score reduces to the distance (or 1.0) at alpha 1 and to `1 - min(bm25 or 0, 1)` at alpha 0; a bm25 of 1 or more leaves only the distance term |
| Fusion.HybridScoreNonNegative | retrieval_layer.py:186 | For alpha in [0, 1] and a non-negative distance the fused score is non-negative |
| Fusion.HybridScoreMonotone | retrieval_layer.py:186 | A smaller distance or a larger bm25 never gives a worse fused score |
| Fusion.FuseSorted | retrieval_layer.py:184-190 | The fused pool is ascending by `hybrid_score` and has at most `pool_n` rows |
| Fusion.FuseRows | retrieval_layer.py:173-188 | Each fused row is a chunk of the pools, with the minimal distance, the maximal bm25 and the fused score of its id |
| Fusion.FuseDistinctIds | retrieval_layer.py:182-188 | At most one fused row per chunk id |
| Fusion.MergedCoversPools | retrieval_layer.py:173-182 | Every id of either pool is fused before the cut |
| Fusion.FuseKeepsBest | retrieval_layer.py:189-190 | The `limit :pool` cut drops only rows scored no better than every row it keeps |
| Sorting.SortSorted | retrieval_layer.py:109 | The stable sort's result is ordered by its key |
| Sorting.SortBy | retrieval_layer.py:109 | The sort returns a permutation of its input (same multiset) |
| Sorting.SortOfSorted | retrieval_layer.py:109 | Sorting a sequence already ordered by the key leaves it unchanged |
| Sorting.SortStable | retrieval_layer.py:109 | The sort is stable: for every key value, the elements with that key come out in their input order |
| Sorting.SortTiesKeepRank | retrieval_layer.py:109 | Stability stated by rank: when a rank strictly increases along the input, it strictly increases among equal-key elements of the result |
| Sorting.SortDistinct | retrieval_layer.py:109 | Sorting keeps rows with pairwise different projections pairwise different |
| Rerank.RankByRerank | retrieval_layer.py:217 | `sorted(..., reverse=True)[:top_k]` returns `min(top_k, n)` rows, all candidates |
| Rerank.RankByRerankKeepsBest | retrieval_layer.py:217 | The `[:top_k]` cut keeps the best: a candidate left out scores no higher than any row kept (the same holds for the Cohere sort at line 236) |
| Rerank.RankByRerankDescending | retrieval_layer.py:217 | The ranking is descending by `rerank_score` (0.0 when absent) |
| Rerank.RankByRerankKeepsDistinct | retrieval_layer.py:217 | Ranking keeps one row per document when the candidates have one per document |
| Rerank.Passages | retrieval_layer.py:209 | Each scored passage is a prefix of its candidate's content, at most 3500 characters, and the whole content when it is short enough |
| Rerank.ChooseModel | retrieval_layer.py:198-208 | The requested model is used when it loads, else the MiniLM fallback; no model only when neither loads |
| Rerank.RerankCrossEncoder | retrieval_layer.py:196-217 | The method (assignment loop and sort) returns exactly `CrossEncoderSpec` |
| Rerank.CrossEncoderResult | retrieval_layer.py:209-217 | With a model available, empty candidates give `[]`. Otherwise the result is best first, has exactly `min(top_k, n)` rows for a non-negative `top_k`, and each row is candidate `i` carrying the `i`-th logit as its `rerank_score`. A candidate past the end of the logits keeps its old score, as `zip` stops at the shorter list |
| Rerank.CrossEncoderNoModel | retrieval_layer.py:198-208 | When no model loads the call raises, even before looking at the candidates |
| Rerank.Resolve | retrieval_layer.py:232-233 | `candidates[idx]` takes a negative index from the end; a valid index names a candidate |
| Rerank.AssignScores | retrieval_layer.py:231-233 | The Cohere assignment loop keeps every candidate's chunk and the list's length |
| Rerank.RerankWithCohere | retrieval_layer.py:220-236 | The method (guard, service call, assignment loop, sort) returns exactly `CohereSpec` |
| Rerank.CohereFallback | retrieval_layer.py:223-225 | No key, an empty key, no candidates or a raising service return exactly `candidates[:top_k]`, in their order |
| Rerank.CohereInterruptedKeepsOrder | retrieval_layer.py:231-235 | An out-of-range index from the service interrupts the loop and the result is `candidates[:top_k]` in the original order |
| Rerank.AssignScoresUnscored | retrieval_layer.py:231-236 | A candidate the service did not score keeps its earlier score, or sorts as 0.0 |
| Rerank.AssignScoresScored | retrieval_layer.py:231-233 | A scored candidate carries the relevance of its last result |
| Rerank.CohereSuccess | retrieval_layer.py:226-236 | When the service answers, the result is best first, at most `top_k` rows, each a candidate's chunk |
| Rerank.RankedCandidates | retrieval_layer.py:236 | Ranking rescored candidates gives a best-first selection of the candidates' chunks |
| Retrieve.DenseRows | retrieval_layer.py:121-130 | `search_dense` returns one row per ANN hit, in hit order, with the hit's distance as `dist` |
| Retrieve.RunRetrieve | retrieval_layer.py:239-256 | The method returns `RetrieveSpec` and leaves the guards as the searches it called leave them |
| Retrieve.RetrieveEmptyPool | retrieval_layer.py:247-248 | An empty pool gives `[]` whatever else is configured |
| Retrieve.RetrieveBounded | retrieval_layer.py:239-256 | For a non-negative `top_k`, a successful result has exactly `min(top_k, n)` rows, where `n` is the size of the pool after deduplication. Every row is a chunk the engines returned |
| Retrieve.RerankedLength | retrieval_layer.py:251-256 | Reranking (either path) followed by the `[:top_k]` cut leaves `min(top_k, n)` rows of a pool of `n` |
| Retrieve.PipelineFromPool | retrieval_layer.py:249-256 | Deduplication, reranking and the cut only pass on rows of the pool's chunks |
| Retrieve.PoolFromHits | retrieval_layer.py:243-246 | The pool consists of the engines' chunks |
| Retrieve.RerankedFromPool | retrieval_layer.py:251-255 | The reranked pool consists of the pool's chunks |
| Retrieve.CohereFromCandidates | retrieval_layer.py:220-236 | Every row Cohere returns is a candidate's chunk, on every path |
| Retrieve.RetrieveOnePerDocument | retrieval_layer.py:249-256 | With `dedup` or `sources` set, the result has at most one row per document, each with a non-empty document id, and only allowed sources |
| Retrieve.RerankedKeepsDistinct | retrieval_layer.py:251-255 | Reranking never brings two rows of one document into a pool that had none |
| Retrieve.RetrieveRanGuards | retrieval_layer.py:243-246 | After a successful call, the vector guard has run, and so has the lexical one when bm25 is used |
| Retrieve.RetrievePlain | retrieval_layer.py:249-256 | Without dedup, sources or rerank the result is the pool's first `top_k` rows |
| Retrieve.CohereDispatch | retrieval_layer.py:252 | For every model name: it selects Cohere exactly when it has at least six characters and each of the first six is the lower- or upper-case letter of "cohere". The default cross-encoder does not select Cohere |
| Retrieve.RerankDispatch | retrieval_layer.py:250-255 | With `rerank` set, the Cohere path runs exactly for a Cohere model name and the cross-encoder otherwise. With `rerank` unset, the pool passes unchanged |
| Retrieve.RetrieveDefaults | retrieval_layer.py:239-256 | A call on the defaults (`top_k=20`, dense only, `dedup=True`, no sources, no rerank) returns the first 20 rows of the deduplicated ANN rows, `min(20, n)` of them. It raises when the vector guard fails |
| IndexGuards.FtsScript | retrieval_layer.py:30-49 | One lexical-guard session commits exactly one GIN index creation and no IVF index |
| IndexGuards.Guards.EnsureFtsColumn | retrieval_layer.py:20-51 | A raised flag returns at once; otherwise the DDL is committed and the flag raised, or the call fails and the flag stays down |
| IndexGuards.Guards.EnsureVectorIndex | retrieval_layer.py:54-69 | The same for the IVF index |
| IndexGuards.GuardsIdempotent | retrieval_layer.py:24-26 | A guard whose flag is up does nothing, whatever the database would answer; a successful commit raises the flag |
| IndexGuards.ApplyConsistent | retrieval_layer.py:50-51 | Every call keeps each flag consistent with the DDL committed so far |
| IndexGuards.RunConsistent | retrieval_layer.py:15-69 | Over any sequence of calls in a process each index is created at most once |
| IndexGuards.RunMonotone | retrieval_layer.py:50-51 | The flags never go down and the committed DDL only grows |
| IndexGuards.RunFtsReady | retrieval_layer.py:24-51 | From a fresh process, the lexical flag is up exactly when some call of its guard succeeded |
| VectorLiteral.FormatFixed | retrieval_layer.py:82 | A component's text is non-empty and contains no comma or bracket |
| VectorLiteral.FormatFixedRoundTrip | retrieval_layer.py:82 | Each component's 8-decimal text reads back as its value |
| VectorLiteral.LiteralRoundTrip | retrieval_layer.py:80-82 | The literal pgvector receives denotes exactly the query vector |
| VectorLiteral.LiteralShape | retrieval_layer.py:82 | The literal is bracketed and has one comma between each pair of consecutive components |
| Paragraphs.HtmlToParagraphs | ingest.py:480-506 | The method (strip and split, buffer loop, length filter) returns exactly `ParagraphsSpec` |
| Paragraphs.MergeRuns | ingest.py:491-501 | The `buf` loop returns the space-joins of the non-empty runs between empty lines |
| Paragraphs.LongOnly | ingest.py:503 | The filter keeps exactly the paragraphs of 200 characters or more |
| Paragraphs.RunsAreMaximal | ingest.py:493-501 | The runs contain no empty line, and joining them back with empty lines gives the lines: they are maximal |
| Paragraphs.RunsPartitionLines | ingest.py:493-501 | The runs hold every non-empty line exactly once, in source order |
| Paragraphs.RunsJoinGroups | ingest.py:498-501 | Each paragraph is the space-join of a non-empty run |
| Paragraphs.ParagraphsShape | ingest.py:489-503 | Every paragraph is at least 200 characters, contains no newline, and is the join of a maximal run of stripped lines |
| Paragraphs.ParagraphsOfFailedParse | ingest.py:505-506 | A parser exception yields no paragraphs |
| NewsIngest.CollectTexts | ingest.py:435-453 | The text loop returns the cut texts and the metadata of exactly the non-blank articles, in lockstep |
| NewsIngest.ZipRows | ingest.py:456-469 | `zip(meta_list, vecs, texts)` gives row `m` from metadata `m`, vector `m` and text `m` |
| NewsIngest.ChunkNewsBatch | ingest.py:435-471 | One batch stores exactly `NewsRows` of the batch |
| NewsIngest.ChunkAndEmbedNews | ingest.py:429-475 | The offset loop stores `NewsRows` of all articles and returns their number; a zero batch size stores nothing |
| NewsIngest.NewsRowsAppend | ingest.py:431-473 | Batching does not change what is stored: consecutive slices store the rows of the whole |
| NewsIngest.NewsRowsShape | ingest.py:437-469 | Every news row has source "news", chunk index 0, content a prefix of headline+summary of at most 5000 characters, a document id of at most 200 characters, and the embedding of its content; exactly the non-blank articles are kept |
| NewsIngest.BaseIdNonEmpty | ingest.py:443 | The base id is never empty, so neither is the document id |
| NewsIngest.NewsDocIdRules | ingest.py:443-447 | The document id is the url, else `news:<id>`; over 180 characters it becomes `news:` plus the SHA-1 hex digest, which then fits and is stored uncut |
| SecIngest.FirstHtml | ingest.py:562-567 | The first HTML name is a listed `.htm`/`.html` name (any letter case), and there is none exactly when no name is HTML |
| SecIngest.FirstHtmlIsFirst | ingest.py:563-567 | No earlier listed name is HTML |
| SecIngest.TargetRules | ingest.py:552-578 | From `index.json` the primary document wins when listed; otherwise the first HTML file is taken; from the directory page the same with the scraped links; with neither there is no target |
| SecIngest.FetchOrder | ingest.py:580-603 | The target document wins, the helper is asked only when it fails, the full submission last; an exception skips the filing |
| SecIngest.SecRowsUpTo | ingest.py:609-619 | The rows of the first `n` paragraphs, one per paragraph |
| SecIngest.EmbedBatch | ingest.py:610-632 | One batch's rows carry chunk indices `i + idx` and each paragraph's embedding |
| SecIngest.EmbedParagraphs | ingest.py:609-635 | The batch loop returns exactly `ParagraphChunks`: zero batch size raises, a negative one stores nothing |
| SecIngest.ProcessFiling | ingest.py:529-635 | The body of the filings loop for one filing (existing check, field check, fetch, paragraphs, batches) returns exactly `FilingSpec` |
| SecIngest.ChunkAndEmbedSec | ingest.py:528-639 | The filings loop stores and returns exactly `SecSpec` |
| SecIngest.SecChunksShape | ingest.py:609-621 | A filing's rows carry its document id and ticker, chunk indices 0, 1, 2, ... in paragraph order, source "sec" and content cut to 8000 characters |
| SecIngest.FilingSkipRules | ingest.py:529-606 | A filing adds nothing when its document already has chunks, when a field is missing, when nothing could be fetched, or when it has no paragraphs |
| SecIngest.SecCount | ingest.py:608-639 | The returned total is the number of stored rows |
| SecIngest.SecZeroBatch | ingest.py:609 | With batch size 0 nothing is stored |
| SecIngest.SecBatchIndependent | ingest.py:609-635 | Any two positive batch sizes store the same rows |
| SecIngest.SecStoredFresh | ingest.py:529-533 | Every stored row's document had no chunks before the run, and `(document_id, chunk_index)` is unique among stored rows |
| SecIngest.FilingRows | ingest.py:609-621 | The rows of one filing carry its fresh document id and distinct chunk indices |
| JobStore.Jobs.StoreJobStatus | database/storage.py:276-304 | The table is the old table with this job's record replaced by `Reported` of its previous record |
| JobStore.Jobs.GetJobStatus | database/storage.py:310-329 | The lookup returns the record exactly when the job is known, else nothing |
| JobStore.ReportedRules | database/storage.py:282-302 | A new job gets one record with the given fields and no timestamps; an existing one always takes the new status, keeps type, parameters and creation time, and replaces message and results only with truthy values |
| JobStore.ReportedTimestamps | database/storage.py:284-287 | `started_at` is stamped by the first "running" report and never overwritten; `completed_at` is stamped by every "completed" or "failed" report and kept otherwise |
| JobStore.Replay | database/storage.py:276-302 | Any non-empty sequence of reports leaves one record for the job |
| JobStore.ReplayKeeps | database/storage.py:282-291 | Over any reports the first fixes type, parameters and creation time, the status is the last reported, and a start time, once stamped, never changes |
| JobStore.Lifecycle | database/storage.py:276-302 | pending, running, completed produces the record with both timestamps and the results |
| JobStore.FailedLifecycle | database/storage.py:276-302 | pending, running, failed keeps the start time and records the message and the failure time |
| SchemaScript.BeforeDashes | setup_database_schema.py:53 | A line is cut exactly at its first `--`, or kept whole when it has none, and no `--` remains |
| SchemaScript.LineCommentsRemoved | setup_database_schema.py:53 | Removing line comments keeps every line, cuts each before its first `--`, and leaves no `--` |
| SchemaScript.FindClose | setup_database_schema.py:55 | The closer found is the nearest star-slash |
| SchemaScript.StripBlockComments | setup_database_schema.py:55 | Comment removal never lengthens the text |
| SchemaScript.NoBlockUnchanged | setup_database_schema.py:55 | A text without a comment opener is unchanged |
| SchemaScript.StripLeavesOpener | setup_database_schema.py:55 | The substitution does not rescan its output: `//**/*x*/` becomes `/*x*/`, which still holds an opener |
| SchemaScript.BlockRemoved | setup_database_schema.py:55 | A leading comment is removed through its first closer, across lines |
| SchemaScript.BlockAfterText | setup_database_schema.py:55 | A comment after text without an opener is removed through its first closer, and the text before it is kept |
| SchemaScript.SplitStatements | setup_database_schema.py:58-62 | The split loop returns exactly `StatementsOf` |
| SchemaScript.PrepareSchema | setup_database_schema.py:51-62 | The script yields the statements of the text with both kinds of comment removed |
| SchemaScript.StatementsShape | setup_database_schema.py:59-62 | Every statement is non-empty, stripped, free of `;` and does not start with `--` |
| SchemaScript.ScriptShape | setup_database_schema.py:58-62 | The same for every statement of a script |
| SchemaScript.StatementsInOrder | setup_database_schema.py:58-62 | Statements keep their source order: those of `a;b` are those of `a` followed by those of `b` |
| SchemaScript.SingleStatement | setup_database_schema.py:59-62 | A text without `;` is one statement, or none when blank |
| Universe.Present | r2k_ingest.py:16 | `dropna` keeps exactly the present symbols |
| Universe.PresentAppend | r2k_ingest.py:16 | `dropna` of a concatenation is the concatenation of the parts, so every present symbol is kept with its repeats, in listing order |
| Universe.PresentFirstOrder | r2k_ingest.py:16 | Of two present values, the one met first after `dropna` is the one met first in the listing |
| Universe.UppercasedPresent | r2k_ingest.py:16 | `dropna` then `upper` equals upper-casing the listing, then dropping the missing values |
| Universe.Uppercased | r2k_ingest.py:16 | Each symbol is upper-cased in place |
| Universe.Unique | r2k_ingest.py:16 | `unique` keeps exactly the same set of values |
| Universe.UniqueFirstOrder | r2k_ingest.py:16 | `unique` lists the values in the order of their first occurrences |
| Universe.UniqueNoRepeats | r2k_ingest.py:16 | `unique` leaves no value twice |
| Universe.CandidatesExactly | r2k_ingest.py:16-19 | Before the cap the symbols are exactly the upper-cased listed symbols that are alphanumeric, at most five characters and not ETFs, each once |
| Universe.UniverseShape | r2k_ingest.py:16-20 | Every universe symbol is upper-case, alphanumeric, 1 to 5 characters, not an excluded ETF and listed; none repeats; at most `max_symbols` for a non-negative cap; they are the first candidates in order |
| Universe.CandidatesListingOrder | r2k_ingest.py:16-19 | The candidates come in listing order: of two candidates, the one whose upper-cased symbol is listed first comes first |
| Universe.UniverseKeepsEarliest | r2k_ingest.py:16-20 | The universe is in listing order, and the `[:max_symbols]` cut leaves out only candidates listed after every kept symbol |
| Universe.UniverseComplete | r2k_ingest.py:16-20 | With a cap at least the number of candidates, every plausible non-ETF listed symbol is in the universe |
| Universe.ChunksFlatten | r2k_ingest.py:23-24 | For a positive size, concatenating the chunks gives the items back |
| Universe.ChunksBounds | r2k_ingest.py:24 | Every chunk is non-empty and at most `size` long, and all but the last are exactly `size` long |
| Universe.ChunksCount | r2k_ingest.py:24 | There are `ceil(len(items) / size)` chunks: enough to hold the items, and one fewer would not be |
| Universe.ChunksSlices | r2k_ingest.py:24 | Chunk `k` is `items[k*size : (k+1)*size]` |
| Universe.ChunkListRules | r2k_ingest.py:23-24 | A zero size raises, a negative one gives no chunks, a positive one gives the items back in pieces |
| AgentGraph.ChooseNextByTable | agents/langgraph_agent.py:109-121 | A known intent goes to its node of the edge table; any other string, a non-string scalar and a missing intent go to the librarian; a list or dict intent raises |
| AgentGraph.OnlyListedLeaveLibrarian | agents/langgraph_agent.py:109-119 | Only the intents of the edge table reach quant, risk or alloc, and each reaches its own node |
| Common.FirstIndex | agents/langgraph_agent.py:40 | The first position of a character, or none when it does not occur |
| Common.LastIndex | agents/langgraph_agent.py:40 | The last position of a character, or none when it does not occur |
| AgentGraph.BraceSpanIsMatch | agents/langgraph_agent.py:40 | The greedy, newline-matching `{.*}` search starts at the leftmost `{` and ends at the last `}`; there is no match exactly when no `{` comes before a `}` |
| AgentGraph.PlannedRules | agents/langgraph_agent.py:40-47 | With no `{...}`, or one that does not parse as an object, the plan is intent "search_corpus" with payload `{query, top_k: 10}`; otherwise each missing field falls back on its own |
| AgentGraph.AgentState.PlanNode | agents/langgraph_agent.py:29-50 | `plan_node` sets the intent and the result `{planner, payload}` of `PlanStep` and touches nothing else |
| AgentGraph.AgentState.RouteNode | agents/langgraph_agent.py:53-60 | `route_node` makes the state `RouteStep` of the old state |
| AgentGraph.AgentState.RiskNode | agents/langgraph_agent.py:79-87 | `risk_node` replaces only the result, with the risk service's reply to `RiskStep`'s path and payload |
| AgentGraph.RouteRules | agents/langgraph_agent.py:53-60 | `route` sets the plan to the intent (default "search_corpus"), the error to None and the context to `[]`, reduces the result to its payload, keeps query and intent, and is idempotent |
| AgentGraph.PlanThenRoute | agents/langgraph_agent.py:29-60 | After plan and route, the plan is the planner's intent and the result holds only the planner's payload |
| AgentGraph.FallbackGoesToLibrarian | agents/langgraph_agent.py:40-60 | A reply without a usable object sends the query to the librarian with `top_k` 10 |
| AgentGraph.RiskPathRule | agents/langgraph_agent.py:79-87 | The VaR path is used exactly for intent "compute_var", the stress test otherwise, with the routed payload; only the result changes |
| AgentTools.StubsEcho | agents/quant_tools.py:5-12 | Every stub reply (all five stubs, of `quant_tools.py`, `risk_tools.py` and `alloc_tools.py`) is "queued", has one key per parameter and no other, and gives each argument back; compute_var and optimize_portfolio normalise falsy assets and constraints to empty ones |
| AgentTools.RunBacktestEcho | agents/quant_tools.py:5-7 | `run_backtest` answers "queued" with exactly the keys status, params, universe, start, end, each holding its argument |
| AgentTools.GridScanEcho | agents/quant_tools.py:10-12 | `grid_scan` answers "queued" with exactly the keys status, grid, universe, start, end, each holding its argument |
| AgentTools.ComputeVarEcho | agents/risk_tools.py:4-6 | `compute_var` answers "queued" with exactly status, method, horizon_days, paths, assets; a falsy asset list comes back as `[]` |
| AgentTools.StressTestEcho | agents/risk_tools.py:9-11 | `stress_test` answers "queued" with exactly status, scenarios, assets, each holding its argument |
| AgentTools.OptimizePortfolioEcho | agents/alloc_tools.py:4-6 | `optimize_portfolio` answers "queued" with exactly status, method, assets, constraints; falsy constraints come back as `{}` |
| Orchestrator.TruncateBounds | agents/orchestrator.py:13 | `int()` of a float truncates toward zero: same sign, less than one away, never further from zero |
| Orchestrator.ConversionsOnIntegers | agents/orchestrator.py:13-24 | `int(str(i)) == i`, `float(str(i)) == i`, and both are the identity on integers |
| Orchestrator.EmptyPayloadDefaults | agents/orchestrator.py:11-28 | An empty payload searches "" with top_k 20 and alpha 0.5, computes an "mc" VaR over 10 days and 1000 paths for no assets, and optimizes with "HRP"; a chunk lookup without an id raises |
| Orchestrator.ChunkIdPreferred | agents/orchestrator.py:16-18 | A truthy `chunk_id` is looked up; a missing or falsy one gives way to `id` |
| Orchestrator.UnknownIntentRule | agents/orchestrator.py:9-29 | The reply is `{"error": "unknown intent <intent>"}` exactly for an intent outside the eight known ones |
| Orchestrator.RoutedIntentsKnown | agents/orchestrator.py:11-28 | Every intent the agent graph routes to a tool node is known to the dispatcher |
| Orchestrator.ParametersPassThrough | agents/orchestrator.py:11-24 | Integer VaR parameters, the method, the query and `top_k` are passed to the tools unchanged |
| Allocator.EqualWeights | agents/mcp_allocator.py:15-17 | The weight keys are exactly the requested assets, and each weight is `1/n` with `n` the number of entries, or 1 for none |
| Allocator.AllocationRules | agents/mcp_allocator.py:13-18 | Keys are the assets, each weight is `1/(len or 1)`, empty assets give empty weights, and the method is echoed (default "HRP") |
| Allocator.WeightsSum | agents/mcp_allocator.py:15-17 | The weights sum to their share of the request; for a non-empty list of distinct assets they sum to 1 |
| Allocator.RepeatsUnderweight | agents/mcp_allocator.py:15-17 | A request that repeats an asset has weights summing to less than 1 |

## Left out

- Failures of the foreign calls are not modelled. Several calls can raise, and the model
  treats each as total:
  - `_embed_query_384` (`retrieval_layer.py:72-77`), called by both searches at
    `retrieval_layer.py:117` and `retrieval_layer.py:154`;
  - the `execute` of each search query;
  - the cross-encoder's `model(**inputs)` (`retrieval_layer.py:214`);
  - `_embed_texts_384`, which raises `RuntimeError` (`ingest.py:410-411`).
- The partial commit of a failed embedding is not modelled. News embeds at
  `ingest.py:455`, and batches committed before a failure (`ingest.py:470-471`) stay
  committed. SEC embeds at `ingest.py:611`, outside the per-filing `try`
  (`ingest.py:601-603`). So the exception leaves through `ingest.py:640-641` after earlier
  batches of the same filing are committed (`ingest.py:634`). On a later run, the
  existing-chunks check (`ingest.py:529-533`) then skips that half-chunked filing.
  `SecIngest` and `NewsIngest` model only runs in which every embedding call answers.
- The SQL engines are parameters. pgvector, `ts_rank_cd`, `websearch_to_tsquery`, the
  embedding path, the cross-encoder, the Cohere service, EDGAR, BeautifulSoup, the LLM and
  `json.loads` are not modelled beyond their answers, which are parameters.
- Floating point is left out. Scores, weights and the fused formula are exact reals, with
  no NaN, no infinities and no rounding. The `float("nan")` branch of the dedup score is
  unreachable in the code, and the model has no counterpart for it.
- The vector literal works on fixed-point values. `VectorLiteral.FormatFixed` takes the
  component already scaled by 10^8 and rounded, so the `:.8f` rounding and the text of
  -0.0 are not modelled.
- Module flags are unsynchronised. The guards are modelled sequentially: the code has no
  locking and the model adds none.
- A failed generated-column DDL is assumed recoverable. After it fails, the model assumes
  the fallback statements run in the same session. Postgres aborts the transaction after
  a failed statement, and the model does not capture that.
- `Dedup`'s rows are pure values. The `dict(r)` copy and the `pop("__score")` are
  invisible in a value model, so "inputs are not mutated" holds by construction rather
  than by proof.
- The candidate dicts are records. Keys other than the selected columns and the scores
  are not modelled, and neither is the aliasing of the rows the rerankers write
  `rerank_score` into.
- Some numeric details are left out:
  - pool sizes and batch sizes coming from SQL `limit` are natural numbers;
  - `float(r.get("bm25", 0.0))` of a non-number is not modelled.
- News and SEC ingestion have three gaps:
  - `meta_data`, `created_at`, `original_url` and `doc_name` are not stored in the model;
  - the database session and the `published_at` ordering and filtering of the query are
    not modelled;
  - the articles and filings are given as the query's result.
- The EDGAR requests are abstracted into `SecIngest.Net`. URL construction, `dir_cik`,
  `time.sleep`, the status codes and the `href` regex scraping are not modelled. The
  answers are given per filing: the names listed by `index.json` or scraped from the
  directory page, the file, the helper and the full submission. Any exception is the
  `raised` flag.
- Column widths are not modelled, e.g. `String(100)` for job ids and `String(20)` for
  status.
- NewsIngest.NewsRowsShape: content is proved to be a prefix of the article text, but
  not to be non-blank. Its first 5000 characters may all be whitespace when the text
  becomes non-blank only later.
- SchemaScript.StripBlockComments: the regex does not rescan the text it produces, and
  nor does the model. `//**/*x*/` becomes `/*x*/` (`SchemaScript.StripLeavesOpener`), so
  no lemma claims the output is free of openers.
- ASCII only:
  - `Lower`, `Upper` and `isalnum` are ASCII; Python's Unicode case mapping and Unicode
    letters are not modelled;
  - `int()` of a string accepts only an optional sign and ASCII digits inside whitespace;
  - `float()` of a string accepts only an optional sign and `digits[.digits]`;
  - underscores, exponents, `inf` and `nan` are not accepted by the model.
- The agent has five gaps:
  - The HTTP tool calls return dicts. `raise_for_status` errors and non-dict replies are
    not modelled.
  - `librarian_node`, `quant_node` and `alloc_node` are not modelled. They only forward
    the payload to a service and store the reply; `risk_node` carries the only choice
    among them.
  - The state always has a query, as every invocation gives one. A state without one
    raises `KeyError` in `plan_node` in the code, and the model has no such state.
  - `AgentGraph.AgentState.RiskNode` requires an intent, because `risk_node` reads
    `state["intent"]` and raises without one.
  - The graph wiring (`build_graph`) is not modelled as a runner. Its edge table is
    `AgentGraph.Routes`.
- Orchestrator.HandleIntent: `search_text` and `get_doc` are parameters. Conversion
  failures are the exception's type name, not its message.
- Allocator.OptimizePortfolio: `constraints` is accepted by the request model but unused;
  it is not modelled.
