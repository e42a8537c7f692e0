/** `_html_to_paragraphs` after the HTML parser: the extracted text is split into
    stripped lines, consecutive non-empty lines are merged with single spaces, and
    paragraphs shorter than 200 characters are dropped. The parser is an oracle: its
    text output, or `None` when it raises (then the result is empty). */
module Paragraphs {
  import opened Common

  const MinParagraph: nat := 200

  /** `[p.strip() for p in text.split('\n')]`. */
  function Lines(text: string): seq<string> {
    var pieces := Split(text, '\n');
    seq(|pieces|, i requires 0 <= i < |pieces| => Strip(pieces[i]))
  }

  /** The space-join of every non-empty group, in order. */
  function Runs(groups: seq<seq<string>>): seq<string> {
    if groups == [] then []
    else Runs(AllButLast(groups)) + (if Last(groups) != [] then [Join(Last(groups), " ")] else [])
  }

  /** `[p for p in paras if len(p) >= 200]`. */
  function LongOnly(ps: seq<string>): (r: seq<string>)
    ensures forall p :: p in r <==> p in ps && |p| >= MinParagraph
  {
    if ps == [] then []
    else
      assert forall p :: p in ps <==> p in AllButLast(ps) || p == Last(ps);
      LongOnly(AllButLast(ps)) + (if |Last(ps)| >= MinParagraph then [Last(ps)] else [])
  }

  /** What `_html_to_paragraphs` returns for the parser's output: the runs of non-empty
      lines (split at the empty lines), joined, long ones only. */
  function ParagraphsSpec(extracted: Option<string>): seq<string> {
    match extracted
    case None => []
    case Some(text) => LongOnly(Runs(Split(Lines(text), [])))
  }

  method HtmlToParagraphs(extracted: Option<string>) returns (paras: seq<string>)
    ensures paras == ParagraphsSpec(extracted)
  {
    if extracted.None? {
      return [];
    }
    var parts := Lines(extracted.value);
    var out := MergeRuns(parts);
    paras := LongOnly(out);
  }

  /** The `buf` loop: collects runs of non-empty lines, flushing at each empty line and
      at the end. */
  method MergeRuns(parts: seq<string>) returns (out: seq<string>)
    ensures out == Runs(Split(parts, []))
  {
    out := [];
    var buf: seq<string> := [];
    for i := 0 to |parts|
      invariant buf == Last(Split(parts[..i], []))
      invariant out == Runs(AllButLast(Split(parts[..i], [])))
    {
      assert parts[..i + 1] == parts[..i] + [parts[i]];
      LoopStep(parts[..i], parts[i]);
      if parts[i] != [] {
        buf := buf + [parts[i]];
      } else if buf != [] {
        out := out + [Join(buf, " ")];
        buf := [];
      }
    }
    assert parts[..|parts|] == parts;
    if buf != [] {
      out := out + [Join(buf, " ")];
    }
  }

  /** One line more: a non-empty line extends the open run; an empty one closes it. */
  lemma LoopStep(p: seq<string>, x: string)
    ensures var g := Split(p, []); var g' := Split(p + [x], []);
      if x != [] then Last(g') == Last(g) + [x] && AllButLast(g') == AllButLast(g)
      else Last(g') == [] && Runs(AllButLast(g')) == Runs(g)
  {
    SplitSnoc(p, x, []);
    var g := Split(p, []);
    if x == [] {
      assert AllButLast(g + [[]]) == g;
    } else {
      var g' := AllButLast(g) + [Last(g) + [x]];
      assert AllButLast(g') == AllButLast(g);
    }
  }

  // ---------------------------------------------------------------------------
  // What the paragraphs are.
  // ---------------------------------------------------------------------------

  /** The split at empty lines cuts the lines into maximal runs: the runs contain no empty
      line, and putting one empty line between consecutive runs gives the lines back. */
  lemma RunsAreMaximal(lines: seq<string>)
    ensures forall k :: 0 <= k < |Split(lines, [])| ==> [] !in Split(lines, [])[k]
    ensures Join(Split(lines, []), [[]]) == lines
  {
    SplitPiecesAvoidSep(lines, []);
    JoinSplit(lines, []);
  }

  function Concat(groups: seq<seq<string>>): seq<string> {
    if groups == [] then [] else Concat(AllButLast(groups)) + Last(groups)
  }

  function NonEmptyLines(lines: seq<string>): seq<string> {
    if lines == [] then []
    else NonEmptyLines(AllButLast(lines)) + (if Last(lines) != [] then [Last(lines)] else [])
  }

  /** The runs hold every non-empty line exactly once, in source order. */
  lemma {:induction false} RunsPartitionLines(lines: seq<string>)
    ensures Concat(Split(lines, [])) == NonEmptyLines(lines)
  {
    if lines != [] {
      var p := AllButLast(lines);
      var x := Last(lines);
      RunsPartitionLines(p);
      SplitSnoc(p, x, []);
      assert lines == p + [x];
      var g := Split(p, []);
      if x == [] {
        ConcatEmptyRun(g);
      } else {
        ConcatExtendLast(g, x);
      }
    }
  }

  lemma ConcatEmptyRun(g: seq<seq<string>>)
    ensures Concat(g + [[]]) == Concat(g)
  {
    assert AllButLast(g + [[]]) == g;
    assert Concat(g) + [] == Concat(g);
  }

  lemma ConcatExtendLast(g: seq<seq<string>>, x: string)
    requires g != []
    ensures Concat(AllButLast(g) + [Last(g) + [x]]) == Concat(g) + [x]
  {
    var g' := AllButLast(g) + [Last(g) + [x]];
    assert AllButLast(g') == AllButLast(g);
    assert Last(g') == Last(g) + [x];
    assert Concat(AllButLast(g)) + (Last(g) + [x]) == (Concat(AllButLast(g)) + Last(g)) + [x];
  }

  /** Each paragraph is the space-join of a non-empty run of non-empty stripped lines. */
  lemma {:induction false} RunsJoinGroups(groups: seq<seq<string>>)
    ensures forall p :: p in Runs(groups) ==> exists k :: 0 <= k < |groups| && groups[k] != [] && p == Join(groups[k], " ")
  {
    if groups != [] {
      var g := AllButLast(groups);
      RunsJoinGroups(g);
      forall p | p in Runs(groups)
        ensures exists k :: 0 <= k < |groups| && groups[k] != [] && p == Join(groups[k], " ")
      {
        if p in Runs(g) {
          var k :| 0 <= k < |g| && g[k] != [] && p == Join(g[k], " ");
          assert groups[k] == g[k];
        } else {
          assert groups[|groups| - 1] != [] && p == Join(groups[|groups| - 1], " ");
        }
      }
    }
  }

  /** Every paragraph is at least 200 characters long, contains no newline, and is the
      space-join of a run of consecutive non-empty stripped lines. */
  lemma ParagraphsShape(text: string)
    ensures var groups := Split(Lines(text), []);
      forall p :: p in ParagraphsSpec(Some(text)) ==>
        && |p| >= MinParagraph
        && '\n' !in p
        && exists k :: 0 <= k < |groups| && groups[k] != [] && p == Join(groups[k], " ")
  {
    var lines := Lines(text);
    LinesNoNewline(text);
    LongRunsShape(lines);
  }

  lemma LongRunsShape(lines: seq<string>)
    requires forall l :: l in lines ==> '\n' !in l
    ensures var groups := Split(lines, []);
      forall p :: p in LongOnly(Runs(groups)) ==>
        && |p| >= MinParagraph
        && '\n' !in p
        && exists k :: 0 <= k < |groups| && groups[k] != [] && p == Join(groups[k], " ")
  {
    var groups := Split(lines, []);
    RunsJoinGroups(groups);
    RunsNoNewline(lines);
  }

  lemma RunsNoNewline(lines: seq<string>)
    requires forall l :: l in lines ==> '\n' !in l
    ensures forall p :: p in Runs(Split(lines, [])) ==> '\n' !in p
  {
    var groups := Split(lines, []);
    RunsJoinGroups(groups);
    forall p | p in Runs(groups) ensures '\n' !in p {
      var k :| 0 <= k < |groups| && groups[k] != [] && p == Join(groups[k], " ");
      SplitElems(lines, [], k);
      assert forall j :: 0 <= j < |groups[k]| ==> groups[k][j] in groups[k];
      JoinAvoids(groups[k], " ", '\n');
    }
  }

  lemma LinesNoNewline(text: string)
    ensures forall l :: l in Lines(text) ==> '\n' !in l
  {
    var pieces := Split(text, '\n');
    SplitPiecesAvoidSep(text, '\n');
    forall l | l in Lines(text) ensures '\n' !in l {
      var i :| 0 <= i < |Lines(text)| && Lines(text)[i] == l;
      assert l == Strip(pieces[i]);
    }
  }

  /** The elements of every group are elements of the split sequence. */
  lemma {:induction false} SplitElems<T>(s: seq<T>, sep: T, k: int)
    requires 0 <= k < |Split(s, sep)|
    ensures forall x :: x in Split(s, sep)[k] ==> x in s
  {
    if s != [] {
      var p := AllButLast(s);
      var g := Split(p, sep);
      assert forall x :: x in p ==> x in s;
      if Last(s) == sep {
        if k < |g| { SplitElems(p, sep, k); }
      } else {
        if k < |g| - 1 {
          SplitElems(p, sep, k);
        } else {
          SplitElems(p, sep, |g| - 1);
          assert Split(s, sep)[k] == Last(g) + [Last(s)];
        }
      }
    }
  }

  /** When the parser raises, there are no paragraphs. */
  lemma ParagraphsOfFailedParse()
    ensures ParagraphsSpec(None) == []
  {
  }
}
