/** `_dedup_by_docid`: keep the best row per `document_id`, optionally restricted to
    an allow-list of sources, and order the survivors by the comparison score. */
module Dedup {
  import opened Common
  import opened Sorting
  import opened RetrievalRows

  /** The row passes both filters of the loop: its source is allowed (an empty list
      allows every source, as `None` does) and it has a non-empty `document_id`. */
  predicate Eligible(r: Row, allowed: seq<string>) {
    && (allowed == [] || (r.chunk.source.Some? && r.chunk.source.value in allowed))
    && r.chunk.documentId.Some? && r.chunk.documentId.value != []
  }

  function DocOf(r: Row): string {
    r.chunk.documentId.GetOr([])
  }

  /** The loop's state: the `best` dict, as its keys in insertion order and its entries. */
  datatype Best = Best(order: seq<string>, best: map<string, Row>)

  predicate WellFormed(b: Best) {
    && (forall i :: 0 <= i < |b.order| ==> b.order[i] in b.best)
    && (forall d :: d in b.best ==> d in b.order)
    && (forall i, j :: 0 <= i < j < |b.order| ==> b.order[i] != b.order[j])
  }

  /** One iteration: a new document is appended; a known one is replaced only by a
      strictly lower score, so the first of equally good rows stays. The `__score`
      the source caches in the dict entry is `InternalScore` of that entry. */
  function Step(b: Best, r: Row, allowed: seq<string>): Best {
    if !Eligible(r, allowed) then b
    else
      var d := DocOf(r);
      if d !in b.best then Best(b.order + [d], b.best[d := r])
      else if InternalScore(r) < InternalScore(b.best[d]) then Best(b.order, b.best[d := r])
      else b
  }

  /** The state after the loop has seen `rows`. */
  function Collect(rows: seq<Row>, allowed: seq<string>): (b: Best)
    ensures WellFormed(b)
    ensures forall d :: d in b.best ==> Eligible(b.best[d], allowed) && DocOf(b.best[d]) == d
  {
    if rows == [] then Best([], map[])
    else Step(Collect(AllButLast(rows), allowed), Last(rows), allowed)
  }

  /** `list(best.values())`. */
  function Kept(b: Best): (s: seq<Row>)
    requires WellFormed(b)
  {
    seq(|b.order|, i requires 0 <= i < |b.order| => b.best[b.order[i]])
  }

  /** What `_dedup_by_docid` returns. */
  function DedupSpec(rows: seq<Row>, allowed: seq<string>): seq<Row> {
    SortBy(Kept(Collect(rows, allowed)), InternalScore)
  }

  method DedupByDocId(rows: seq<Row>, allowed: seq<string>) returns (out: seq<Row>)
    ensures out == DedupSpec(rows, allowed)
  {
    var order: seq<string> := [];
    var best: map<string, Row> := map[];
    for i := 0 to |rows|
      invariant Best(order, best) == Collect(rows[..i], allowed)
    {
      var r := rows[i];
      CollectSnoc(rows, i, allowed);
      if allowed != [] && !(r.chunk.source.Some? && r.chunk.source.value in allowed) {
        continue;
      }
      if r.chunk.documentId.None? || r.chunk.documentId.value == [] {
        continue;
      }
      var doc := r.chunk.documentId.value;
      var score := InternalScore(r);
      if doc !in best || score < InternalScore(best[doc]) {
        if doc !in best {
          order := order + [doc];
        }
        best := best[doc := r];
      }
    }
    assert rows[..|rows|] == rows;
    var kept := seq(|order|, k requires 0 <= k < |order| => best[order[k]]);
    assert kept == Kept(Collect(rows, allowed));
    out := SortBy(kept, InternalScore);
  }

  lemma CollectSnoc(rows: seq<Row>, i: int, allowed: seq<string>)
    requires 0 <= i < |rows|
    ensures Collect(rows[..i + 1], allowed) == Step(Collect(rows[..i], allowed), rows[i], allowed)
  {
    assert AllButLast(rows[..i + 1]) == rows[..i];
    assert Last(rows[..i + 1]) == rows[i];
  }

  // ---------------------------------------------------------------------------
  // What the loop's state holds after any prefix of the input.
  // ---------------------------------------------------------------------------

  /** Row `k` is the kept row for document `d`: eligible, of that document, no worse
      than any eligible row of that document, and strictly better than every earlier one. */
  predicate FirstMinimal(rows: seq<Row>, allowed: seq<string>, d: string, k: int) {
    && 0 <= k < |rows| && Eligible(rows[k], allowed) && DocOf(rows[k]) == d
    && (forall j :: 0 <= j < |rows| && Eligible(rows[j], allowed) && DocOf(rows[j]) == d ==>
          InternalScore(rows[k]) <= InternalScore(rows[j]))
    && (forall j :: 0 <= j < k && Eligible(rows[j], allowed) && DocOf(rows[j]) == d ==>
          InternalScore(rows[k]) < InternalScore(rows[j]))
  }

  /** Every eligible row's document has an entry. */
  lemma {:induction false} CollectComplete(rows: seq<Row>, allowed: seq<string>)
    ensures forall j :: 0 <= j < |rows| && Eligible(rows[j], allowed) ==>
      DocOf(rows[j]) in Collect(rows, allowed).best
  {
    if rows != [] {
      var p := AllButLast(rows);
      CollectComplete(p, allowed);
      assert forall j :: 0 <= j < |p| ==> p[j] == rows[j];
    }
  }

  /** Each entry is the first row of minimal score among its document's eligible rows. */
  lemma {:induction false} CollectBest(rows: seq<Row>, allowed: seq<string>)
    ensures forall d :: d in Collect(rows, allowed).best ==>
      exists k :: FirstMinimal(rows, allowed, d, k) && rows[k] == Collect(rows, allowed).best[d]
  {
    if rows != [] {
      var p := AllButLast(rows);
      CollectBest(p, allowed);
      CollectComplete(p, allowed);
      assert rows == p + [Last(rows)];
      var b := Collect(p, allowed);
      assert Collect(rows, allowed) == Step(b, Last(rows), allowed);
      forall d | d in Step(b, Last(rows), allowed).best
        ensures exists k :: FirstMinimal(rows, allowed, d, k) && rows[k] == Step(b, Last(rows), allowed).best[d]
      {
        StepBest(p, b, Last(rows), allowed, d);
      }
    }
  }

  /** The inductive step of `CollectBest` for one document `d`, over the state `b` the
      loop holds after `p`. */
  lemma StepBest(p: seq<Row>, b: Best, r: Row, allowed: seq<string>, d: string)
    requires d in b.best ==> exists k :: FirstMinimal(p, allowed, d, k) && p[k] == b.best[d]
    requires forall j :: 0 <= j < |p| && Eligible(p[j], allowed) && DocOf(p[j]) == d ==> d in b.best
    requires d in Step(b, r, allowed).best
    ensures exists k :: FirstMinimal(p + [r], allowed, d, k) && (p + [r])[k] == Step(b, r, allowed).best[d]
  {
    var b' := Step(b, r, allowed);
    if Eligible(r, allowed) && DocOf(r) == d && (d !in b.best || InternalScore(r) < InternalScore(b.best[d])) {
      assert b'.best[d] == r;
      if d in b.best {
        var k :| FirstMinimal(p, allowed, d, k) && p[k] == b.best[d];
        ExtendNew(p, r, allowed, d, InternalScore(p[k]));
      } else {
        ExtendNew(p, r, allowed, d, InternalScore(r));
      }
    } else {
      assert d in b.best && b'.best[d] == b.best[d];
      var k :| FirstMinimal(p, allowed, d, k) && p[k] == b.best[d];
      ExtendKeep(p, r, allowed, d, k);
    }
  }

  /** A row strictly better than every earlier row of its document becomes the kept one. */
  lemma ExtendNew(p: seq<Row>, r: Row, allowed: seq<string>, d: string, m: real)
    requires Eligible(r, allowed) && DocOf(r) == d
    requires forall j :: 0 <= j < |p| && Eligible(p[j], allowed) && DocOf(p[j]) == d ==>
      InternalScore(r) < m <= InternalScore(p[j])
    ensures FirstMinimal(p + [r], allowed, d, |p|) && (p + [r])[|p|] == r
  {
    var rows := p + [r];
    assert forall j :: 0 <= j < |p| ==> rows[j] == p[j];
  }

  /** A row that does not beat the kept one leaves it in place. */
  lemma ExtendKeep(p: seq<Row>, r: Row, allowed: seq<string>, d: string, k: int)
    requires FirstMinimal(p, allowed, d, k)
    requires Eligible(r, allowed) && DocOf(r) == d ==> InternalScore(p[k]) <= InternalScore(r)
    ensures FirstMinimal(p + [r], allowed, d, k) && (p + [r])[k] == p[k]
  {
    var rows := p + [r];
    assert forall j :: 0 <= j < |p| ==> rows[j] == p[j];
  }

  /** Every entry is one of the input rows. */
  lemma CollectFromInput(rows: seq<Row>, allowed: seq<string>)
    ensures forall d :: d in Collect(rows, allowed).best ==> Collect(rows, allowed).best[d] in rows
  {
    CollectBest(rows, allowed);
    forall d | d in Collect(rows, allowed).best ensures Collect(rows, allowed).best[d] in rows {
      var k :| FirstMinimal(rows, allowed, d, k) && rows[k] == Collect(rows, allowed).best[d];
    }
  }

  lemma KeptMembers(b: Best)
    requires WellFormed(b)
    ensures forall x :: x in Kept(b) <==> exists d :: d in b.best && b.best[d] == x
  {
    forall x | x in Kept(b) ensures exists d :: d in b.best && b.best[d] == x {
      var i :| 0 <= i < |Kept(b)| && Kept(b)[i] == x;
      assert b.best[b.order[i]] == x;
    }
    forall x | exists d :: d in b.best && b.best[d] == x ensures x in Kept(b) {
      var d :| d in b.best && b.best[d] == x;
      var i :| 0 <= i < |b.order| && b.order[i] == d;
      assert Kept(b)[i] == x;
    }
  }

  // ---------------------------------------------------------------------------
  // The promises of `_dedup_by_docid`.
  // ---------------------------------------------------------------------------

  /** At most one row per document, each with a non-empty `document_id` and, when an
      allow-list is given, an allowed source; each is one of the input rows. */
  lemma DedupOnePerDocument(rows: seq<Row>, allowed: seq<string>)
    ensures DistinctBy(DedupSpec(rows, allowed), DocOf)
    ensures forall o :: o in DedupSpec(rows, allowed) ==>
      o in rows && o.chunk.documentId.Some? && o.chunk.documentId.value != []
    ensures allowed != [] ==> forall o :: o in DedupSpec(rows, allowed) ==>
      o.chunk.source.Some? && o.chunk.source.value in allowed
  {
    var b := Collect(rows, allowed);
    var kept := Kept(b);
    assert DistinctBy(kept, DocOf) by {
      forall i, j | 0 <= i < j < |kept| ensures DocOf(kept[i]) != DocOf(kept[j]) {
        assert DocOf(kept[i]) == b.order[i];
        assert DocOf(kept[j]) == b.order[j];
      }
    }
    SortDistinct(kept, InternalScore, DocOf);
    SortMembers(kept, InternalScore);
    KeptMembers(b);
    CollectFromInput(rows, allowed);
  }

  /** No document is lost: every eligible input row's document is represented. */
  lemma DedupCoversDocuments(rows: seq<Row>, allowed: seq<string>)
    ensures forall r :: r in rows && Eligible(r, allowed) ==>
      exists o :: o in DedupSpec(rows, allowed) && DocOf(o) == DocOf(r)
  {
    var b := Collect(rows, allowed);
    CollectComplete(rows, allowed);
    SortMembers(Kept(b), InternalScore);
    KeptMembers(b);
    forall r | r in rows && Eligible(r, allowed)
      ensures exists o :: o in DedupSpec(rows, allowed) && DocOf(o) == DocOf(r)
    {
      var j :| 0 <= j < |rows| && rows[j] == r;
      var o := b.best[DocOf(r)];
      assert o in Kept(b);
    }
  }

  /** The kept row of each document is the first of its minimal-score rows. */
  lemma DedupKeepsBest(rows: seq<Row>, allowed: seq<string>)
    ensures forall o :: o in DedupSpec(rows, allowed) ==>
      exists k :: FirstMinimal(rows, allowed, DocOf(o), k) && rows[k] == o
  {
    var b := Collect(rows, allowed);
    CollectBest(rows, allowed);
    SortMembers(Kept(b), InternalScore);
    KeptMembers(b);
  }

  /** The output is ordered by ascending comparison score. */
  lemma DedupSorted(rows: seq<Row>, allowed: seq<string>)
    ensures SortedBy(DedupSpec(rows, allowed), InternalScore)
  {
    SortSorted(Kept(Collect(rows, allowed)), InternalScore);
  }

  /** Rows that are all eligible and of pairwise different documents pass the loop as they are. */
  lemma {:induction false} CollectOfDeduplicated(s: seq<Row>, allowed: seq<string>)
    requires forall i :: 0 <= i < |s| ==> Eligible(s[i], allowed)
    requires DistinctBy(s, DocOf)
    ensures Kept(Collect(s, allowed)) == s
  {
    if s != [] {
      var p := AllButLast(s);
      var r := Last(s);
      assert forall i :: 0 <= i < |p| ==> p[i] == s[i];
      CollectOfDeduplicated(p, allowed);
      var b := Collect(p, allowed);
      assert forall i :: 0 <= i < |p| ==> DocOf(p[i]) != DocOf(r) by {
        assert r == s[|s| - 1];
      }
      FreshDoc(b, p, r);
      KeptAppendNew(b, r, allowed);
      assert s == p + [r];
    }
  }

  /** A document no kept row belongs to has no entry. */
  lemma FreshDoc(b: Best, kept: seq<Row>, r: Row)
    requires WellFormed(b) && Kept(b) == kept
    requires forall d :: d in b.best ==> DocOf(b.best[d]) == d
    requires forall i :: 0 <= i < |kept| ==> DocOf(kept[i]) != DocOf(r)
    ensures DocOf(r) !in b.best
  {
    forall i | 0 <= i < |b.order| ensures b.order[i] != DocOf(r) {
      assert kept[i] == b.best[b.order[i]];
    }
  }

  lemma KeptAppendNew(b: Best, r: Row, allowed: seq<string>)
    requires WellFormed(b) && Eligible(r, allowed) && DocOf(r) !in b.best
    ensures WellFormed(Step(b, r, allowed)) && Kept(Step(b, r, allowed)) == Kept(b) + [r]
  {
    var d := DocOf(r);
    var b' := Step(b, r, allowed);
    assert b' == Best(b.order + [d], b.best[d := r]);
    assert forall i :: 0 <= i < |b.order| ==> b.order[i] != d;
    assert WellFormed(b');
    forall i | 0 <= i < |b'.order| ensures Kept(b')[i] == (Kept(b) + [r])[i] {
      if i < |b.order| {
        assert b'.order[i] == b.order[i];
      }
    }
  }

  /** Deduplicating an already deduplicated pool returns it unchanged, in size and order. */
  lemma DedupIdempotent(rows: seq<Row>, allowed: seq<string>)
    ensures DedupSpec(DedupSpec(rows, allowed), allowed) == DedupSpec(rows, allowed)
  {
    var out := DedupSpec(rows, allowed);
    DedupOnePerDocument(rows, allowed);
    var b := Collect(rows, allowed);
    SortMembers(Kept(b), InternalScore);
    KeptMembers(b);
    assert forall i :: 0 <= i < |out| ==> Eligible(out[i], allowed) by {
      forall i | 0 <= i < |out| ensures Eligible(out[i], allowed) {
        assert out[i] in Kept(b);
      }
    }
    CollectOfDeduplicated(out, allowed);
    DedupSorted(rows, allowed);
    SortOfSorted(out, InternalScore);
  }

  // ---------------------------------------------------------------------------
  // Ties: the dict keeps insertion order and the sort is stable.
  // ---------------------------------------------------------------------------

  /** The documents of the eligible rows, in input order, with repeats. */
  function SeenDocs(rows: seq<Row>, allowed: seq<string>): seq<string> {
    if rows == [] then []
    else SeenDocs(AllButLast(rows), allowed) + (if Eligible(Last(rows), allowed) then [DocOf(Last(rows))] else [])
  }

  /** The keys of `b` are the documents of `seen`, ordered by their first occurrence. */
  ghost predicate FirstSeenOrder(b: Best, seen: seq<string>) {
    && (forall d :: d in b.best <==> d in seen)
    && (forall i, j :: 0 <= i < j < |b.order| ==> FirstPos(seen, b.order[i]) < FirstPos(seen, b.order[j]))
  }

  /** The keys of `best` are the documents seen, in the order of their first eligible row. */
  lemma {:induction false} CollectFirstSeen(rows: seq<Row>, allowed: seq<string>)
    ensures FirstSeenOrder(Collect(rows, allowed), SeenDocs(rows, allowed))
  {
    if rows != [] {
      var p := AllButLast(rows);
      CollectFirstSeen(p, allowed);
      StepFirstSeen(Collect(p, allowed), SeenDocs(p, allowed), Last(rows), allowed);
    }
  }

  lemma StepFirstSeen(b: Best, seen: seq<string>, r: Row, allowed: seq<string>)
    requires WellFormed(b) && FirstSeenOrder(b, seen)
    ensures FirstSeenOrder(Step(b, r, allowed), seen + (if Eligible(r, allowed) then [DocOf(r)] else []))
  {
    if Eligible(r, allowed) {
      var d := DocOf(r);
      var b' := Step(b, r, allowed);
      var seen' := seen + [d];
      assert b'.best.Keys == b.best.Keys + {d};
      assert forall x :: x in seen' <==> x in seen || x == d;
      forall x | x in seen ensures FirstPos(seen', x) == FirstPos(seen, x) {
        FirstPosSnoc(seen, d, x);
      }
      assert forall i :: 0 <= i < |b.order| ==> b.order[i] in seen;
      if d !in b.best {
        FirstPosSnoc(seen, d, d);
        assert b'.order == b.order + [d];
        forall i, j | 0 <= i < j < |b'.order|
          ensures FirstPos(seen', b'.order[i]) < FirstPos(seen', b'.order[j])
        {
          if j == |b.order| {
            assert b'.order[i] == b.order[i] && b'.order[j] == d;
          } else {
            assert b'.order[i] == b.order[i] && b'.order[j] == b.order[j];
          }
        }
      } else {
        assert b'.order == b.order;
        forall i, j | 0 <= i < j < |b'.order|
          ensures FirstPos(seen', b'.order[i]) < FirstPos(seen', b'.order[j])
        {
          assert b.order[i] in seen && b.order[j] in seen;
        }
      }
      assert forall x :: x in b'.best <==> x in seen';
      assert FirstSeenOrder(b', seen');
    } else {
      assert seen + [] == seen;
    }
  }

  /** Rows of equal score leave `_dedup_by_docid` in the order in which their documents
      were first seen: the dict keeps insertion order and the sort is stable. */
  lemma DedupTiesFirstSeen(rows: seq<Row>, allowed: seq<string>)
    ensures var out := DedupSpec(rows, allowed);
      forall i, j :: 0 <= i < j < |out| && InternalScore(out[i]) == InternalScore(out[j]) ==>
        FirstPos(SeenDocs(rows, allowed), DocOf(out[i])) < FirstPos(SeenDocs(rows, allowed), DocOf(out[j]))
  {
    var b := Collect(rows, allowed);
    var kept := Kept(b);
    var seen := SeenDocs(rows, allowed);
    var f := (x: Row) => FirstPos(seen, DocOf(x));
    CollectFirstSeen(rows, allowed);
    forall i, j | 0 <= i < j < |kept| ensures f(kept[i]) < f(kept[j]) {
      assert kept[i] == b.best[b.order[i]] && kept[j] == b.best[b.order[j]];
      assert DocOf(kept[i]) == b.order[i] && DocOf(kept[j]) == b.order[j];
    }
    SortTiesKeepRank(kept, InternalScore, f);
  }
}
