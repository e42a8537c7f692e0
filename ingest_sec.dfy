/** `chunk_and_embed_sec`: every selected filing not yet chunked is fetched from EDGAR,
    cut into paragraphs, embedded in batches and stored with consecutive chunk indices.
    The HTTP answers, the HTML parser and the embedding model are oracles; the filing
    query is the list it returns, in its order. */
module SecIngest {
  import opened Common
  import opened TextChunkRows
  import opened Paragraphs

  /** The columns of `sec_filings` the chunker reads. */
  datatype Filing = Filing(
    accession: Option<string>,
    primaryDocument: Option<string>,
    cik: Option<string>,
    ticker: Option<string>)

  /** `f"sec:{f.accession_number}"`; a missing accession number prints as `None`. */
  function SecDocId(f: Filing): string {
    "sec:" + f.accession.GetOr("None")
  }

  const SecContentLimit: nat := 8000
  /** What `range(0, n, 0)` raises. */
  const ZeroStepError: string := "range() arg 3 must not be zero"

  // ---------------------------------------------------------------------------
  // Choosing and fetching the filing document.
  // ---------------------------------------------------------------------------

  /** `name.lower().endswith(('.htm', '.html'))`. */
  predicate IsHtmlName(name: string) {
    EndsWith(Lower(name), ".htm") || EndsWith(Lower(name), ".html")
  }

  /** The first HTML file of a directory listing. */
  function FirstHtml(names: seq<string>): (r: Option<string>)
    ensures r.Some? ==> r.value in names && IsHtmlName(r.value)
    ensures r.None? <==> forall n :: n in names ==> !IsHtmlName(n)
  {
    if names == [] then None
    else if IsHtmlName(names[0]) then Some(names[0])
    else FirstHtml(names[1..])
  }

  /** The target named by `index.json`: the primary document when it is listed, else the
      first HTML file. */
  function IndexTarget(names: seq<string>, primary: Option<string>): Option<string> {
    if Truthy(primary) && primary.value in names then Some(primary.value) else FirstHtml(names)
  }

  /** The target scraped from the directory page: the primary document when it is among
      the links, else the first link. */
  function LinksTarget(links: seq<string>, primary: Option<string>): Option<string> {
    if links == [] then None
    else if Truthy(primary) && primary.value in links then Some(primary.value)
    else Some(links[0])
  }

  /** What the EDGAR requests for one filing answer. */
  datatype Net = Net(
    raised: bool,                       // a request outside the inner `try` raised
    index: Option<seq<string>>,         // the item names of `index.json`, when it answers 200
    listing: Option<seq<string>>,       // the HTML links of the directory page, when it answers 200
    file: string -> Option<string>,     // the target document's text, when it answers 200
    helper: Option<string>,             // `get_filing_content`, `None` when it raises or finds nothing
    fullSubmission: Option<string>)     // `full-submission.txt`, when it answers 200

  /** The document to fetch: from `index.json` when it answers, else from the directory page. */
  function Target(primary: Option<string>, net: Net): Option<string> {
    match net.index
    case Some(names) => IndexTarget(names, primary)
    case None =>
      match net.listing
      case Some(links) => LinksTarget(links, primary)
      case None => None
  }

  /** The filing text: the target document, else the helper, else the full submission;
      `None` when the filing is unreachable or a request raised. */
  function FetchHtml(primary: Option<string>, net: Net): Option<string> {
    if net.raised then None
    else
      var t := Target(primary, net);
      var first := if t.Some? && t.value != [] then net.file(t.value) else None;
      if first.Some? then first
      else if net.helper.Some? then net.helper
      else net.fullSubmission
  }

  /** The first HTML name is the first name that is HTML. */
  lemma {:induction false} FirstHtmlIsFirst(names: seq<string>)
    ensures FirstHtml(names).Some? ==>
      exists k :: 0 <= k < |names| && names[k] == FirstHtml(names).value
        && forall j :: 0 <= j < k ==> !IsHtmlName(names[j])
  {
    if names != [] && !IsHtmlName(names[0]) {
      FirstHtmlIsFirst(names[1..]);
      if FirstHtml(names).Some? {
        var k :| 0 <= k < |names[1..]| && names[1..][k] == FirstHtml(names).value
          && forall j :: 0 <= j < k ==> !IsHtmlName(names[1..][j]);
        assert names[k + 1] == names[1..][k];
        assert forall j :: 1 <= j < k + 1 ==> names[j] == names[1..][j - 1];
      }
    }
  }

  /** The target is always one of the listed names, and the primary document whenever it
      is listed; from the index it is otherwise an HTML file. */
  lemma TargetRules(primary: Option<string>, net: Net)
    ensures net.index.Some? && Truthy(primary) && primary.value in net.index.value ==> Target(primary, net) == primary
    ensures net.index.Some? && Target(primary, net).Some? ==>
      Target(primary, net).value in net.index.value
      && (Target(primary, net) == primary || IsHtmlName(Target(primary, net).value))
    ensures net.index.None? && net.listing.Some? ==>
      (Target(primary, net).Some? <==> net.listing.value != [])
      && (Target(primary, net).Some? ==> Target(primary, net).value in net.listing.value)
    ensures net.index.None? && net.listing.None? ==> Target(primary, net).None?
  {
  }

  /** The fallbacks in order: the target document wins, the helper is asked only when the
      target gives nothing, the full submission only when the helper gives nothing too. */
  lemma FetchOrder(primary: Option<string>, net: Net)
    ensures var t := Target(primary, net);
      !net.raised && t.Some? && t.value != [] && net.file(t.value).Some? ==>
        FetchHtml(primary, net) == net.file(t.value)
    ensures FetchHtml(primary, net).Some? ==>
      var t := Target(primary, net);
      FetchHtml(primary, net) == (if t.Some? && t.value != [] && net.file(t.value).Some? then net.file(t.value)
                                  else if net.helper.Some? then net.helper else net.fullSubmission)
    ensures net.raised ==> FetchHtml(primary, net).None?
    ensures !net.raised && net.helper.Some? ==> FetchHtml(primary, net).Some?
  {
  }

  // ---------------------------------------------------------------------------
  // Embedding the paragraphs of one filing.
  // ---------------------------------------------------------------------------

  /** The row of paragraph `i`: consecutive chunk indices, content cut to 8000 characters,
      the embedding of the whole paragraph. */
  function SecRow(docId: string, ticker: Option<string>, paras: seq<string>, i: nat, embed: string -> seq<real>): StoredChunk
    requires i < |paras|
  {
    StoredChunk("sec", Some(docId), ticker, i, Cut(paras[i], SecContentLimit), embed(paras[i]))
  }

  /** The rows of the first `n` paragraphs. */
  function SecRowsUpTo(docId: string, ticker: Option<string>, paras: seq<string>, n: nat, embed: string -> seq<real>): (rows: seq<StoredChunk>)
    requires n <= |paras|
    ensures |rows| == n
  {
    seq(n, i requires 0 <= i < n => SecRow(docId, ticker, paras, i, embed))
  }

  function SecChunks(docId: string, ticker: Option<string>, paras: seq<string>, embed: string -> seq<real>): (rows: seq<StoredChunk>)
    ensures |rows| == |paras|
  {
    SecRowsUpTo(docId, ticker, paras, |paras|, embed)
  }

  /** What the batch loop stores for the paragraphs: a zero batch size raises, a negative
      one makes the range empty. */
  function ParagraphChunks(docId: string, ticker: Option<string>, paras: seq<string>, batchSize: int,
                           embed: string -> seq<real>): Result<seq<StoredChunk>, string>
  {
    if batchSize == 0 then Failure(ZeroStepError)
    else if batchSize < 0 then Success([])
    else Success(SecChunks(docId, ticker, paras, embed))
  }

  /** `for i in range(0, len(paras), batch_size)`: one embedding call and one commit per
      batch. */
  method EmbedParagraphs(docId: string, ticker: Option<string>, paras: seq<string>, batchSize: int,
                         embed: string -> seq<real>) returns (res: Result<seq<StoredChunk>, string>)
    ensures res == ParagraphChunks(docId, ticker, paras, batchSize, embed)
  {
    if batchSize == 0 {
      return Failure(ZeroStepError);
    }
    var rows: seq<StoredChunk> := [];
    var i := 0;
    while batchSize > 0 && i < |paras|
      invariant 0 <= i
      invariant batchSize > 0 ==> rows == SecRowsUpTo(docId, ticker, paras, Min(i, |paras|), embed)
      invariant batchSize < 0 ==> rows == [] && i == 0
      decreases |paras| - i
    {
      var end := Min(i + batchSize, |paras|);
      var batch := paras[i..end];
      var batchRows := EmbedBatch(docId, ticker, batch, i, embed);
      assert forall m :: 0 <= m < |batch| ==> batchRows[m] == SecRow(docId, ticker, paras, i + m, embed);
      rows := rows + batchRows;
      i := i + batchSize;
      assert Min(i, |paras|) == end;
    }
    if batchSize > 0 {
      assert Min(i, |paras|) == |paras|;
    }
    res := Success(rows);
  }

  /** One batch: `_embed_texts_384(batch)` zipped with the batch, chunk indices from `start`. */
  method EmbedBatch(docId: string, ticker: Option<string>, batch: seq<string>, start: nat,
                    embed: string -> seq<real>) returns (rows: seq<StoredChunk>)
    ensures |rows| == |batch|
    ensures forall m :: 0 <= m < |batch| ==>
      rows[m] == StoredChunk("sec", Some(docId), ticker, start + m, Cut(batch[m], SecContentLimit), embed(batch[m]))
  {
    var vecs := seq(|batch|, j requires 0 <= j < |batch| => embed(batch[j]));
    rows := [];
    for idx := 0 to |batch|
      invariant |rows| == idx
      invariant forall m :: 0 <= m < idx ==>
        rows[m] == StoredChunk("sec", Some(docId), ticker, start + m, Cut(batch[m], SecContentLimit), embed(batch[m]))
    {
      rows := rows + [StoredChunk("sec", Some(docId), ticker, start + idx, Cut(batch[idx], SecContentLimit), vecs[idx])];
    }
  }

  // ---------------------------------------------------------------------------
  // The filings loop.
  // ---------------------------------------------------------------------------

  /** The oracles of a run: the EDGAR answers per filing, the HTML parser (`None` when it
      raises) and the embedding model. */
  datatype SecWorld = SecWorld(
    net: Filing -> Net,
    extract: string -> Option<string>,
    embed: string -> seq<real>)

  /** What one filing adds. `existing` holds the document ids that already have chunks. */
  function FilingSpec(f: Filing, existing: set<string>, batchSize: int, w: SecWorld): Result<seq<StoredChunk>, string> {
    var d := SecDocId(f);
    if d in existing then Success([])
    else if !Truthy(f.primaryDocument) || !Truthy(f.accession) || !Truthy(f.cik) then Success([])
    else
      match FetchHtml(f.primaryDocument, w.net(f))
      case None => Success([])
      case Some(html) =>
        var paras := ParagraphsSpec(w.extract(html));
        if paras == [] then Success([]) else ParagraphChunks(d, f.ticker, paras, batchSize, w.embed)
  }

  /** Everything committed, and what the call returns: the total inserted, or the error it
      raises (the rows committed before it stay). */
  function SecSpec(fs: seq<Filing>, existing: set<string>, batchSize: int, w: SecWorld): (seq<StoredChunk>, Result<nat, string>)
    decreases |fs|
  {
    if fs == [] then ([], Success(0))
    else
      match FilingSpec(fs[0], existing, batchSize, w)
      case Failure(e) => ([], Failure(e))
      case Success(rows) =>
        var existing' := if rows == [] then existing else existing + {SecDocId(fs[0])};
        Combine(rows, SecSpec(fs[1..], existing', batchSize, w))
  }

  /** Rows stored first, then what the rest of the run stores and returns. */
  function Combine(rows: seq<StoredChunk>, rest: (seq<StoredChunk>, Result<nat, string>)): (seq<StoredChunk>, Result<nat, string>) {
    (rows + rest.0, if rest.1.Success? then Success(|rows| + rest.1.value) else rest.1)
  }

  lemma CombineAssoc(a: seq<StoredChunk>, b: seq<StoredChunk>, x: (seq<StoredChunk>, Result<nat, string>))
    ensures Combine(a, Combine(b, x)) == Combine(a + b, x)
  {
    assert a + (b + x.0) == (a + b) + x.0;
  }

  lemma CombineEmpty(x: (seq<StoredChunk>, Result<nat, string>))
    ensures Combine([], x) == x
  {
    assert [] + x.0 == x.0;
  }

  /** The body of the filings loop for one filing: the existing-document check, the field
      check, the fetch, the paragraphs and the batches. */
  method ProcessFiling(f: Filing, existing: set<string>, batchSize: int, w: SecWorld)
    returns (chunked: Result<seq<StoredChunk>, string>)
    ensures chunked == FilingSpec(f, existing, batchSize, w)
  {
    var docId := "sec:" + f.accession.GetOr("None");
    if docId in existing {
      return Success([]);
    }
    if !Truthy(f.primaryDocument) || !Truthy(f.accession) || !Truthy(f.cik) {
      return Success([]);
    }
    var html := FetchHtml(f.primaryDocument, w.net(f));
    if html.None? {
      return Success([]);
    }
    var paras := HtmlToParagraphs(w.extract(html.value));
    if paras == [] {
      return Success([]);
    }
    chunked := EmbedParagraphs(docId, f.ticker, paras, batchSize, w.embed);
  }

  method ChunkAndEmbedSec(filings: seq<Filing>, existing0: set<string>, batchSize: int, w: SecWorld)
    returns (stored: seq<StoredChunk>, res: Result<nat, string>)
    ensures (stored, res) == SecSpec(filings, existing0, batchSize, w)
  {
    stored := [];
    var existing := existing0;
    var total: nat := 0;
    var i := 0;
    assert filings[0..] == filings;
    CombineEmpty(SecSpec(filings, existing0, batchSize, w));
    while i < |filings|
      invariant 0 <= i <= |filings|
      invariant total == |stored|
      invariant SecSpec(filings, existing0, batchSize, w) == Combine(stored, SecSpec(filings[i..], existing, batchSize, w))
    {
      var f := filings[i];
      ghost var fs := filings[i..];
      assert fs[0] == f && fs[1..] == filings[i + 1..];
      var docId := "sec:" + f.accession.GetOr("None");
      var chunked := ProcessFiling(f, existing, batchSize, w);
      if chunked.Failure? {
        assert SecSpec(fs, existing, batchSize, w) == ([], Failure(chunked.error));
        assert stored + [] == stored;
        return stored, Failure(chunked.error);
      }
      ghost var existing' := if chunked.value == [] then existing else existing + {docId};
      assert SecSpec(fs, existing, batchSize, w) == Combine(chunked.value, SecSpec(filings[i + 1..], existing', batchSize, w));
      CombineAssoc(stored, chunked.value, SecSpec(filings[i + 1..], existing', batchSize, w));
      stored := stored + chunked.value;
      total := total + |chunked.value|;
      // the committed rows are visible to the lookups of the later filings
      if chunked.value != [] {
        existing := existing + {docId};
      }
      i := i + 1;
    }
    assert filings[i..] == [];
    assert stored + [] == stored;
    res := Success(total);
  }

  // ---------------------------------------------------------------------------
  // The promises about stored SEC chunks.
  // ---------------------------------------------------------------------------

  /** The rows of a filing carry its document id and ticker, chunk indices 0, 1, 2, ... in
      paragraph order, the paragraph cut to 8000 characters, and the paragraph's embedding. */
  lemma SecChunksShape(docId: string, ticker: Option<string>, paras: seq<string>, embed: string -> seq<real>)
    ensures var rows := SecChunks(docId, ticker, paras, embed);
      forall i :: 0 <= i < |rows| ==>
        && rows[i].source == "sec" && rows[i].documentId == Some(docId) && rows[i].symbol == ticker
        && rows[i].chunkIndex == i
        && rows[i].content <= paras[i] && |rows[i].content| <= SecContentLimit
        && rows[i].embedding == embed(paras[i])
  {
  }

  /** A filing adds nothing when its document already has chunks, when a field is missing,
      when it cannot be fetched, or when it yields no paragraph. */
  lemma FilingSkipRules(f: Filing, existing: set<string>, batchSize: int, w: SecWorld)
    ensures SecDocId(f) in existing ==> FilingSpec(f, existing, batchSize, w) == Success([])
    ensures !Truthy(f.primaryDocument) || !Truthy(f.accession) || !Truthy(f.cik) ==>
      FilingSpec(f, existing, batchSize, w) == Success([])
    ensures FetchHtml(f.primaryDocument, w.net(f)).None? ==> FilingSpec(f, existing, batchSize, w) == Success([])
    ensures (FetchHtml(f.primaryDocument, w.net(f)).Some? &&
             ParagraphsSpec(w.extract(FetchHtml(f.primaryDocument, w.net(f)).value)) == []) ==>
      FilingSpec(f, existing, batchSize, w) == Success([])
    ensures FilingSpec(f, existing, batchSize, w).Success? && FilingSpec(f, existing, batchSize, w).value != [] ==>
      SecDocId(f) !in existing && batchSize > 0
  {
  }

  /** The count returned is the number of rows stored. */
  lemma {:induction false} SecCount(fs: seq<Filing>, existing: set<string>, batchSize: int, w: SecWorld)
    ensures SecSpec(fs, existing, batchSize, w).1.Success? ==>
      SecSpec(fs, existing, batchSize, w).1.value == |SecSpec(fs, existing, batchSize, w).0|
    decreases |fs|
  {
    if fs != [] && FilingSpec(fs[0], existing, batchSize, w).Success? {
      var rows := FilingSpec(fs[0], existing, batchSize, w).value;
      var existing' := if rows == [] then existing else existing + {SecDocId(fs[0])};
      SecCount(fs[1..], existing', batchSize, w);
    }
  }

  /** With a zero batch size nothing is stored. */
  lemma {:induction false} SecZeroBatch(fs: seq<Filing>, existing: set<string>, w: SecWorld)
    ensures SecSpec(fs, existing, 0, w).0 == []
    decreases |fs|
  {
    if fs != [] && FilingSpec(fs[0], existing, 0, w).Success? {
      SecZeroBatch(fs[1..], existing, w);
    }
  }

  /** Any positive batch size stores the same rows and returns the same count. */
  lemma {:induction false} SecBatchIndependent(fs: seq<Filing>, existing: set<string>, b1: int, b2: int, w: SecWorld)
    requires b1 > 0 && b2 > 0
    ensures SecSpec(fs, existing, b1, w) == SecSpec(fs, existing, b2, w)
    decreases |fs|
  {
    if fs != [] {
      assert FilingSpec(fs[0], existing, b1, w) == FilingSpec(fs[0], existing, b2, w);
      if FilingSpec(fs[0], existing, b1, w).Success? {
        var rows := FilingSpec(fs[0], existing, b1, w).value;
        var existing' := if rows == [] then existing else existing + {SecDocId(fs[0])};
        SecBatchIndependent(fs[1..], existing', b1, b2, w);
      }
    }
  }

  /** `(document_id, chunk_index)` identifies a stored row. */
  predicate KeysUnique(rows: seq<StoredChunk>) {
    forall i, j :: 0 <= i < j < |rows| ==>
      rows[i].documentId != rows[j].documentId || rows[i].chunkIndex != rows[j].chunkIndex
  }

  /** Every row the run stores carries a document id that had no chunks before the run,
      and no two rows share a document id and a chunk index: a filing is chunked at most
      once, even when it is listed twice. */
  lemma {:induction false} SecStoredFresh(fs: seq<Filing>, existing: set<string>, batchSize: int, w: SecWorld)
    ensures var rows := SecSpec(fs, existing, batchSize, w).0;
      (forall r :: r in rows ==> r.source == "sec" && r.documentId.Some? && r.documentId.value !in existing)
      && KeysUnique(rows)
    decreases |fs|
  {
    if fs != [] && FilingSpec(fs[0], existing, batchSize, w).Success? {
      var d := SecDocId(fs[0]);
      var rows := FilingSpec(fs[0], existing, batchSize, w).value;
      var existing' := if rows == [] then existing else existing + {d};
      SecStoredFresh(fs[1..], existing', batchSize, w);
      var rest := SecSpec(fs[1..], existing', batchSize, w).0;
      FilingRows(fs[0], existing, batchSize, w);
      assert SecSpec(fs, existing, batchSize, w).0 == rows + rest;
      if rows == [] {
        assert rows + rest == rest;
      } else {
        UniqueAppend(rows, rest, d);
      }
    }
  }

  /** The rows of one document, indexed 0, 1, 2, ..., followed by rows of other documents
      with unique keys, have unique keys. */
  lemma UniqueAppend(rows: seq<StoredChunk>, rest: seq<StoredChunk>, d: string)
    requires forall i :: 0 <= i < |rows| ==> rows[i].documentId == Some(d) && rows[i].chunkIndex == i
    requires forall r :: r in rest ==> r.documentId.Some? && r.documentId.value != d
    requires KeysUnique(rest)
    ensures KeysUnique(rows + rest)
  {
    var all := rows + rest;
    forall i, j | 0 <= i < j < |all|
      ensures all[i].documentId != all[j].documentId || all[i].chunkIndex != all[j].chunkIndex
    {
      if j < |rows| {
        assert all[i] == rows[i] && all[j] == rows[j];
      } else if i >= |rows| {
        assert all[i] == rest[i - |rows|] && all[j] == rest[j - |rows|];
      } else {
        assert all[i] == rows[i] && all[j] == rest[j - |rows|];
        assert rest[j - |rows|] in rest;
      }
    }
  }

  /** The rows of one filing all carry its document id, which had no chunks, and distinct
      chunk indices. */
  lemma FilingRows(f: Filing, existing: set<string>, batchSize: int, w: SecWorld)
    requires FilingSpec(f, existing, batchSize, w).Success?
    ensures var rows := FilingSpec(f, existing, batchSize, w).value;
      (forall r :: r in rows ==> r.source == "sec" && r.documentId == Some(SecDocId(f)) && SecDocId(f) !in existing)
      && (forall i :: 0 <= i < |rows| ==> rows[i].documentId == Some(SecDocId(f)) && rows[i].chunkIndex == i)
  {
    var d := SecDocId(f);
    var rows := FilingSpec(f, existing, batchSize, w).value;
    if rows != [] {
      var html := FetchHtml(f.primaryDocument, w.net(f)).value;
      var paras := ParagraphsSpec(w.extract(html));
      assert ParagraphChunks(d, f.ticker, paras, batchSize, w.embed) == Success(rows);
      ParagraphChunksRows(d, f.ticker, paras, batchSize, w.embed);
    }
  }

  /** The rows stored for the paragraphs of one document. */
  lemma ParagraphChunksRows(docId: string, ticker: Option<string>, paras: seq<string>, batchSize: int, embed: string -> seq<real>)
    requires ParagraphChunks(docId, ticker, paras, batchSize, embed).Success?
    ensures var rows := ParagraphChunks(docId, ticker, paras, batchSize, embed).value;
      (forall r :: r in rows ==> r.source == "sec" && r.documentId == Some(docId))
      && (forall i :: 0 <= i < |rows| ==> rows[i].documentId == Some(docId) && rows[i].chunkIndex == i)
  {
  }
}
