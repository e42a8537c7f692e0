/** `chunk_and_embed_news`: one text chunk per news article with a non-blank headline or
    summary, in batches of `batch_size` articles. The embedding model and SHA-1 are
    oracles; the article query is the list it returns, in its order. */
module NewsIngest {
  import opened Common
  import opened Decimal
  import opened TextChunkRows

  /** The columns of `news_articles` the chunker reads. */
  datatype Article = Article(
    id: int,
    url: Option<string>,
    headline: Option<string>,
    summary: Option<string>,
    source: Option<string>,
    symbol: Option<string>)

  const NewsContentLimit: nat := 5000
  const DocIdHashThreshold: nat := 180
  const DocIdLimit: nat := 200

  /** `(art.headline or "") + "\n" + (art.summary or "")`. */
  function ArticleText(a: Article): string {
    a.headline.GetOr("") + "\n" + a.summary.GetOr("")
  }

  predicate Blank(a: Article) { Strip(ArticleText(a)) == [] }

  predicate NotBlank(a: Article) { !Blank(a) }

  /** `art.url or f"news:{art.id}"`. */
  function BaseId(a: Article): string {
    if Truthy(a.url) then a.url.value else "news:" + IntToString(a.id)
  }

  /** The stable document id: the base id, or `news:` and its SHA-1 hex digest when the
      base id is longer than 180 characters. */
  function NewsDocId(a: Article, sha1: string -> string): string {
    var b := BaseId(a);
    if |b| > DocIdHashThreshold then "news:" + sha1(b) else b
  }

  /** The per-article metadata the batch loop collects beside the texts. */
  datatype Meta = Meta(symbol: Option<string>, documentId: string)

  function MetaOf(a: Article, sha1: string -> string): Meta {
    Meta(a.symbol, NewsDocId(a, sha1))
  }

  /** The row of one kept article; `embed` maps a text to its 384-dimensional vector. */
  function NewsRow(a: Article, sha1: string -> string, embed: string -> seq<real>): StoredChunk {
    var content := Cut(ArticleText(a), NewsContentLimit);
    RowFromMeta(MetaOf(a, sha1), content, embed(content))
  }

  /** The row `TextChunk(source="news", document_id=meta["document_id"][:200] or None, ...)`. */
  function RowFromMeta(m: Meta, content: string, vec: seq<real>): StoredChunk {
    var d := m.documentId;
    StoredChunk("news", if d != [] then Some(Cut(d, DocIdLimit)) else None, m.symbol, 0, content, vec)
  }

  /** The articles that produce a chunk, in order. */
  function KeptArticles(arts: seq<Article>): (k: seq<Article>)
    ensures |k| <= |arts|
  {
    Filter(arts, NotBlank)
  }

  /** What is stored for the articles: one row per kept article, in order. */
  function NewsRows(arts: seq<Article>, sha1: string -> string, embed: string -> seq<real>): (rows: seq<StoredChunk>)
    ensures |rows| == |KeptArticles(arts)|
  {
    RowsOf(KeptArticles(arts), sha1, embed)
  }

  function RowsOf(k: seq<Article>, sha1: string -> string, embed: string -> seq<real>): (rows: seq<StoredChunk>)
    ensures |rows| == |k|
  {
    seq(|k|, i requires 0 <= i < |k| => NewsRow(k[i], sha1, embed))
  }

  lemma RowsOfAppend(a: seq<Article>, b: seq<Article>, sha1: string -> string, embed: string -> seq<real>)
    ensures RowsOf(a + b, sha1, embed) == RowsOf(a, sha1, embed) + RowsOf(b, sha1, embed)
  {
  }

  function KeptTexts(k: seq<Article>): (ts: seq<string>)
    ensures |ts| == |k|
  {
    seq(|k|, j requires 0 <= j < |k| => Cut(ArticleText(k[j]), NewsContentLimit))
  }

  function KeptMetas(k: seq<Article>, sha1: string -> string): (ms: seq<Meta>)
    ensures |ms| == |k|
  {
    seq(|k|, j requires 0 <= j < |k| => MetaOf(k[j], sha1))
  }

  lemma KeptSnocTexts(k: seq<Article>, x: Article, sha1: string -> string)
    ensures KeptTexts(k + [x]) == KeptTexts(k) + [Cut(ArticleText(x), NewsContentLimit)]
    ensures KeptMetas(k + [x], sha1) == KeptMetas(k, sha1) + [MetaOf(x, sha1)]
  {
  }

  /** The `texts`/`meta_list` loop of one batch: the cut text and the metadata of every
      non-blank article, in lockstep. */
  method CollectTexts(batch: seq<Article>, sha1: string -> string) returns (texts: seq<string>, metas: seq<Meta>)
    ensures texts == KeptTexts(KeptArticles(batch))
    ensures metas == KeptMetas(KeptArticles(batch), sha1)
  {
    texts := [];
    metas := [];
    for i := 0 to |batch|
      invariant texts == KeptTexts(KeptArticles(batch[..i]))
      invariant metas == KeptMetas(KeptArticles(batch[..i]), sha1)
    {
      assert batch[..i + 1] == batch[..i] + [batch[i]];
      FilterSnoc(batch[..i], batch[i], NotBlank);
      var art := batch[i];
      var text := art.headline.GetOr("") + "\n" + art.summary.GetOr("");
      assert text == ArticleText(art);
      if Strip(text) == [] {
        assert Blank(art);
        continue;
      }
      KeptSnocTexts(KeptArticles(batch[..i]), art, sha1);
      texts := texts + [Cut(text, NewsContentLimit)];
      metas := metas + [Meta(art.symbol, NewsDocId(art, sha1))];
    }
    assert batch[..|batch|] == batch;
  }

  /** One batch: the texts and metadata, one embedding per text, and the rows zipped from
      them. */
  method ChunkNewsBatch(batch: seq<Article>, sha1: string -> string, embed: string -> seq<real>)
    returns (rows: seq<StoredChunk>)
    ensures rows == NewsRows(batch, sha1, embed)
  {
    var texts, metas := CollectTexts(batch, sha1);
    rows := [];
    if texts != [] {
      var vecs := seq(|texts|, j requires 0 <= j < |texts| => embed(texts[j]));
      rows := ZipRows(texts, metas, vecs);
    }
    ghost var k := KeptArticles(batch);
    assert |rows| == |k|;
    forall m | 0 <= m < |k| ensures rows[m] == NewsRow(k[m], sha1, embed) {
      assert texts[m] == Cut(ArticleText(k[m]), NewsContentLimit);
      assert metas[m] == MetaOf(k[m], sha1);
    }
  }

  /** `zip(meta_list, texts, vecs)` into rows. */
  method ZipRows(texts: seq<string>, metas: seq<Meta>, vecs: seq<seq<real>>) returns (rows: seq<StoredChunk>)
    requires |metas| == |texts| && |vecs| == |texts|
    ensures |rows| == |texts|
    ensures forall m :: 0 <= m < |texts| ==> rows[m] == RowFromMeta(metas[m], texts[m], vecs[m])
  {
    rows := [];
    for j := 0 to |texts|
      invariant |rows| == j
      invariant forall m :: 0 <= m < j ==> rows[m] == RowFromMeta(metas[m], texts[m], vecs[m])
    {
      rows := rows + [RowFromMeta(metas[j], texts[j], vecs[j])];
    }
  }

  /** The `offset` loop: batches of `batch_size` articles until the query is exhausted;
      an empty batch (a `batch_size` of 0) stops it. Returns the rows and `inserted`. */
  method ChunkAndEmbedNews(articles: seq<Article>, batchSize: nat, sha1: string -> string, embed: string -> seq<real>)
    returns (stored: seq<StoredChunk>, inserted: nat)
    ensures inserted == |stored|
    ensures batchSize > 0 ==> stored == NewsRows(articles, sha1, embed)
    ensures batchSize == 0 ==> stored == []
  {
    var total := |articles|;
    var offset := 0;
    stored := [];
    inserted := 0;
    while offset < total
      invariant 0 <= offset <= total
      invariant stored == NewsRows(articles[..offset], sha1, embed)
      invariant inserted == |stored|
      invariant batchSize == 0 ==> offset == 0 && stored == []
      decreases total - offset
    {
      var end := Min(offset + batchSize, total);
      var batch := articles[offset..end];
      if batch == [] {
        break;
      }
      var rows := ChunkNewsBatch(batch, sha1, embed);
      BatchStep(articles, offset, end, sha1, embed);
      stored := stored + rows;
      inserted := inserted + |rows|;
      offset := end;
    }
    if batchSize > 0 {
      assert articles[..offset] == articles;
    }
  }

  lemma BatchStep(articles: seq<Article>, offset: nat, end: nat, sha1: string -> string, embed: string -> seq<real>)
    requires offset <= end <= |articles|
    ensures NewsRows(articles[..end], sha1, embed) ==
      NewsRows(articles[..offset], sha1, embed) + NewsRows(articles[offset..end], sha1, embed)
  {
    assert articles[..end] == articles[..offset] + articles[offset..end];
    NewsRowsAppend(articles[..offset], articles[offset..end], sha1, embed);
  }

  /** Batching does not change what is stored: the rows of two consecutive slices are
      the rows of their concatenation. */
  lemma NewsRowsAppend(a: seq<Article>, b: seq<Article>, sha1: string -> string, embed: string -> seq<real>)
    ensures NewsRows(a + b, sha1, embed) == NewsRows(a, sha1, embed) + NewsRows(b, sha1, embed)
  {
    FilterAppend(a, b, NotBlank);
    RowsOfAppend(KeptArticles(a), KeptArticles(b), sha1, embed);
  }

  // ---------------------------------------------------------------------------
  // The promises about stored news chunks.
  // ---------------------------------------------------------------------------

  /** Every stored news chunk is of source "news", has chunk index 0, content of at most
      5000 characters cut from its article's text, and a document id; blank articles are
      skipped and every other article gives exactly one chunk. */
  lemma NewsRowsShape(arts: seq<Article>, sha1: string -> string, embed: string -> seq<real>)
    ensures var rows := NewsRows(arts, sha1, embed);
      forall i :: 0 <= i < |rows| ==>
        && rows[i].source == "news" && rows[i].chunkIndex == 0
        && |rows[i].content| <= NewsContentLimit
        && rows[i].content <= ArticleText(KeptArticles(arts)[i])
        && rows[i].documentId.Some? && |rows[i].documentId.value| <= DocIdLimit
        && rows[i].embedding == embed(rows[i].content)
    ensures forall a :: a in arts && !Blank(a) <==> a in KeptArticles(arts)
  {
    FilterMembers(arts, NotBlank);
    var k := KeptArticles(arts);
    forall i | 0 <= i < |k| ensures NewsDocId(k[i], sha1) != [] {
      BaseIdNonEmpty(k[i]);
    }
  }

  lemma BaseIdNonEmpty(a: Article)
    ensures BaseId(a) != []
    ensures forall sha1: string -> string :: NewsDocId(a, sha1) != []
  {
    if !Truthy(a.url) {
      assert BaseId(a)[0] == 'n';
    }
  }

  /** The document id is the url when there is one of at most 180 characters, else
      `news:<id>` when that is short enough, else `news:` and the digest of the base id;
      with a 40-character hex digest it never exceeds 180 characters, so the 200-character
      cut of the stored column never shortens it. */
  lemma NewsDocIdRules(a: Article, sha1: string -> string)
    ensures Truthy(a.url) && |a.url.value| <= DocIdHashThreshold ==> NewsDocId(a, sha1) == a.url.value
    ensures !Truthy(a.url) && |"news:" + IntToString(a.id)| <= DocIdHashThreshold ==>
      NewsDocId(a, sha1) == "news:" + IntToString(a.id)
    ensures |BaseId(a)| > DocIdHashThreshold ==> NewsDocId(a, sha1) == "news:" + sha1(BaseId(a))
    ensures |sha1(BaseId(a))| == 40 ==> |NewsDocId(a, sha1)| <= DocIdHashThreshold
    ensures |sha1(BaseId(a))| == 40 ==> NewsRow(a, sha1, (t: string) => []).documentId == Some(NewsDocId(a, sha1))
  {
    BaseIdNonEmpty(a);
    var d := NewsDocId(a, sha1);
    assert d != [];
    if |sha1(BaseId(a))| == 40 {
      assert |d| <= DocIdHashThreshold;
      assert Cut(d, DocIdLimit) == d;
    }
  }
}
