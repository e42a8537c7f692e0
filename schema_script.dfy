/** The statement splitter of `setup_database_schema`: line comments (`--` to the end of
    the line) are removed, then block comments (from a slash-star to the nearest
    star-slash, across lines), then the text is split at `;` into stripped, non-empty statements. Reading
    the file and executing the statements are not modelled. */
module SchemaScript {
  import opened Common

  /** `s` has `a` immediately followed by `b` somewhere. */
  predicate HasPair(s: string, a: char, b: char) {
    exists i :: 0 <= i < |s| - 1 && s[i] == a && s[i + 1] == b
  }

  // ---------------------------------------------------------------------------
  // `re.sub(r'--.*$', '', sql, flags=re.MULTILINE)`
  // ---------------------------------------------------------------------------

  /** The part of a line before its first `--`. */
  function BeforeDashes(line: string): (r: string)
    ensures r <= line
    ensures !HasPair(r, '-', '-')
    ensures r == line || (|r| + 2 <= |line| && line[|r|] == '-' && line[|r| + 1] == '-')
  {
    if |line| < 2 then line
    else if line[0] == '-' && line[1] == '-' then []
    else
      var rest := BeforeDashes(line[1..]);
      assert forall i :: 1 <= i < |[line[0]] + rest| - 1 ==> ([line[0]] + rest)[i] == rest[i - 1];
      [line[0]] + rest
  }

  function StripLineComments(sql: string): string {
    var lines := Split(sql, '\n');
    Join(seq(|lines|, i requires 0 <= i < |lines| => BeforeDashes(lines[i])), "\n")
  }

  /** Removing line comments keeps every line, cut before its first `--`; no `--` is left. */
  lemma LineCommentsRemoved(sql: string)
    ensures var lines := Split(sql, '\n'); var out := Split(StripLineComments(sql), '\n');
      && |out| == |lines|
      && (forall i :: 0 <= i < |lines| ==> out[i] == BeforeDashes(lines[i]) && out[i] <= lines[i])
      && (forall i :: 0 <= i < |out| ==> !HasPair(out[i], '-', '-'))
  {
    var lines := Split(sql, '\n');
    var cut := seq(|lines|, i requires 0 <= i < |lines| => BeforeDashes(lines[i]));
    SplitPiecesAvoidSep(sql, '\n');
    forall k | 0 <= k < |cut| ensures '\n' !in cut[k] {
      assert forall c :: c in cut[k] ==> c in lines[k];
    }
    SplitJoin(cut, '\n');
  }

  // ---------------------------------------------------------------------------
  // The non-greedy DOTALL substitution removing block comments.
  // ---------------------------------------------------------------------------

  /** The first star-slash at or after position `k`. */
  function FindClose(s: string, k: nat): (r: Option<nat>)
    requires k <= |s|
    ensures r.Some? ==> k <= r.value && r.value + 2 <= |s| && s[r.value] == '*' && s[r.value + 1] == '/'
    ensures r.Some? ==> forall j :: k <= j < r.value ==> !(s[j] == '*' && s[j + 1] == '/')
    ensures r.None? ==> forall j :: k <= j < |s| - 1 ==> !(s[j] == '*' && s[j + 1] == '/')
    decreases |s| - k
  {
    if k + 2 > |s| then None
    else if s[k] == '*' && s[k + 1] == '/' then Some(k)
    else FindClose(s, k + 1)
  }

  /** The leftmost slash-star that has a later star-slash is removed through the first
      such star-slash, and the scan goes on after it; an opener without a closer is kept. */
  function StripBlockComments(s: string): (r: string)
    ensures |r| <= |s|
    decreases |s|
  {
    if |s| < 2 then s
    else if s[0] == '/' && s[1] == '*' then
      match FindClose(s, 2)
      case Some(k) => StripBlockComments(s[k + 2..])
      case None => s
    else [s[0]] + StripBlockComments(s[1..])
  }

  /** A text without a slash-star is left as it is. */
  lemma {:induction false} NoBlockUnchanged(s: string)
    requires !HasPair(s, '/', '*')
    ensures StripBlockComments(s) == s
    decreases |s|
  {
    if |s| >= 2 {
      assert !HasPair(s[1..], '/', '*') by {
        forall i | 0 <= i < |s[1..]| - 1 ensures !(s[1..][i] == '/' && s[1..][i + 1] == '*') {
          assert s[1..][i] == s[i + 1] && s[1..][i + 1] == s[i + 2];
        }
      }
      NoBlockUnchanged(s[1..]);
      assert s == [s[0]] + s[1..];
    }
  }

  // The scan does not revisit what a removal leaves behind: in the text below the
  // empty comment goes, and the slash before it joins the rest into a new opener.
  lemma StripLeavesOpener()
    ensures StripBlockComments("//**/*x*/") == "/*x*/"
    ensures HasPair(StripBlockComments("//**/*x*/"), '/', '*')
  {
    var s := "//**/*x*/";
    var t := s[1..];
    assert t == "/**/*x*/";
    assert FindClose(t, 2) == Some(2);
    assert t[4..] == "*x*/";
    assert !HasPair("*x*/", '/', '*');
    NoBlockUnchanged("*x*/");
    assert StripBlockComments(s) == [s[0]] + StripBlockComments(t);
    assert ("/*x*/")[0] == '/' && ("/*x*/")[1] == '*';
  }

  /** A comment at the front is removed up to its first closer, body and all, however many
      lines it spans. */
  lemma BlockRemoved(body: string, rest: string)
    requires !HasPair(body, '*', '/')
    ensures StripBlockComments("/*" + body + "*/" + rest) == StripBlockComments(rest)
  {
    var s := "/*" + body + "*/" + rest;
    var e := 2 + |body|;
    assert s[e] == '*' && s[e + 1] == '/';
    assert forall j :: 2 <= j < e ==> s[j] == body[j - 2];
    var r := FindClose(s, 2);
    assert r.Some?;
    assert r.value == e;
    assert s[e + 2..] == rest;
  }

  /** A comment after text without an opener is removed up to its first closer, and the
      text before it is kept. */
  lemma BlockAfterText(p: string, body: string, rest: string)
    requires !HasPair(p, '/', '*') && !HasPair(body, '*', '/')
    ensures StripBlockComments(p + "/*" + body + "*/" + rest) == p + StripBlockComments(rest)
  {
    var tail := "/*" + body + "*/" + rest;
    assert p + "/*" + body + "*/" + rest == p + tail;
    assert tail[0] == '/';
    NoPairNoOpener(p);
    TextKept(p, tail);
    BlockRemoved(body, rest);
  }

  /** No character of `s` opens a comment with the next one, checked from the front. */
  predicate NoOpener(s: string) {
    |s| < 2 || (!(s[0] == '/' && s[1] == '*') && NoOpener(s[1..]))
  }

  lemma {:induction false} NoPairNoOpener(s: string)
    requires !HasPair(s, '/', '*')
    ensures NoOpener(s)
    decreases |s|
  {
    if |s| >= 2 {
      assert !HasPair(s[1..], '/', '*') by {
        forall i | 0 <= i < |s[1..]| - 1 ensures !(s[1..][i] == '/' && s[1..][i + 1] == '*') {
          assert s[1..][i] == s[i + 1] && s[1..][i + 1] == s[i + 2];
        }
      }
      NoPairNoOpener(s[1..]);
    }
  }

  /** Text without an opener, followed by text that does not start with a star, passes
      through the scan unchanged. */
  lemma {:induction false} TextKept(p: string, t: string)
    requires NoOpener(p)
    requires t == [] || t[0] != '*'
    ensures StripBlockComments(p + t) == p + StripBlockComments(t)
    decreases |p|
  {
    if p == [] {
      assert p + t == t;
    } else {
      var q := p[1..];
      var u := q + t;
      assert p + t == [p[0]] + u;
      assert p == [p[0]] + q;
      TextKept(q, t);
      if u != [] {
        assert u[0] == if q != [] then q[0] else t[0];
        ScanPassesChar(p[0], u);
        calc {
          StripBlockComments(p + t);
          StripBlockComments([p[0]] + u);
          [p[0]] + StripBlockComments(u);
          [p[0]] + (q + StripBlockComments(t));
          { ConsAssoc(p[0], q, StripBlockComments(t)); }
          ([p[0]] + q) + StripBlockComments(t);
          p + StripBlockComments(t);
        }
      } else {
        assert t == [] && p + t == p && |p| == 1;
      }
    }
  }

  lemma ConsAssoc(c: char, q: string, x: string)
    ensures [c] + (q + x) == ([c] + q) + x
  {
  }

  /** A character that does not open a comment with the next one is kept. */
  lemma ScanPassesChar(c: char, u: string)
    requires u != [] && !(c == '/' && u[0] == '*')
    ensures StripBlockComments([c] + u) == [c] + StripBlockComments(u)
  {
    var s := [c] + u;
    assert s[0] == c && s[1] == u[0] && s[1..] == u;
  }

  // ---------------------------------------------------------------------------
  // The statement split.
  // ---------------------------------------------------------------------------

  /** A piece is kept when it is non-empty after stripping and not a `--` line. */
  predicate Kept(stmt: string) {
    stmt != [] && !StartsWith(stmt, "--")
  }

  /** The statements of the `;`-separated pieces, in order. */
  function Statements(pieces: seq<string>): seq<string> {
    if pieces == [] then []
    else Statements(AllButLast(pieces)) + StatementOf(Last(pieces))
  }

  lemma {:induction false} StatementsFlatMap(pieces: seq<string>)
    ensures Statements(pieces) == FlatMap(pieces, StatementOf)
  {
    if pieces != [] {
      StatementsFlatMap(AllButLast(pieces));
    }
  }

  /** The statement a piece contributes, if any. */
  function StatementOf(piece: string): seq<string> {
    if Kept(Strip(piece)) then [Strip(piece)] else []
  }

  function StatementsOf(sql: string): seq<string> {
    Statements(Split(sql, ';'))
  }

  /** What the script yields: comments removed, then split. */
  function ScriptStatements(sql: string): seq<string> {
    StatementsOf(StripBlockComments(StripLineComments(sql)))
  }

  /** The `for stmt in schema_sql.split(';')` loop. */
  method SplitStatements(sql: string) returns (statements: seq<string>)
    ensures statements == StatementsOf(sql)
  {
    var pieces := Split(sql, ';');
    statements := [];
    for i := 0 to |pieces|
      invariant statements == Statements(pieces[..i])
    {
      assert pieces[..i + 1] == pieces[..i] + [pieces[i]];
      assert AllButLast(pieces[..i + 1]) == pieces[..i];
      var stmt := Strip(pieces[i]);
      if stmt != [] && !StartsWith(stmt, "--") {
        statements := statements + [stmt];
      }
    }
    assert pieces[..|pieces|] == pieces;
  }

  method PrepareSchema(sql: string) returns (statements: seq<string>)
    ensures statements == ScriptStatements(sql)
  {
    var text := StripLineComments(sql);
    text := StripBlockComments(text);
    statements := SplitStatements(text);
  }

  // ---------------------------------------------------------------------------
  // What the statements are.
  // ---------------------------------------------------------------------------

  lemma StripIdempotent(s: string)
    ensures Strip(Strip(s)) == Strip(s)
  {
    var r := Strip(s);
    if r != [] {
      assert StripLeft(r) == r;
      assert StripRight(r) == r;
    }
  }

  /** Every statement is non-empty, already stripped, free of `;`, and does not start with
      `--`. */
  lemma {:induction false} StatementsShape(pieces: seq<string>)
    requires forall k :: 0 <= k < |pieces| ==> ';' !in pieces[k]
    ensures forall st :: st in Statements(pieces) ==>
      st != [] && Strip(st) == st && ';' !in st && !StartsWith(st, "--")
  {
    if pieces != [] {
      var p := AllButLast(pieces);
      assert forall k :: 0 <= k < |p| ==> p[k] == pieces[k];
      StatementsShape(p);
      var last := Strip(Last(pieces));
      assert Statements(pieces) == Statements(p) + StatementOf(Last(pieces));
      StripIdempotent(Last(pieces));
      assert ';' !in Last(pieces);
      assert ';' !in last;
    }
  }

  lemma ScriptShape(sql: string)
    ensures forall st :: st in StatementsOf(sql) ==>
      st != [] && Strip(st) == st && ';' !in st && !StartsWith(st, "--")
  {
    SplitPiecesAvoidSep(sql, ';');
    StatementsShape(Split(sql, ';'));
  }

  lemma {:induction false} SplitConcat<T>(a: seq<T>, sep: T, b: seq<T>)
    ensures Split(a + [sep] + b, sep) == Split(a, sep) + Split(b, sep)
    decreases |b|
  {
    if b == [] {
      assert a + [sep] + b == a + [sep];
      SplitSnoc(a, sep, sep);
    } else {
      var b' := AllButLast(b);
      var x := Last(b);
      SplitConcat(a, sep, b');
      assert a + [sep] + b == (a + [sep] + b') + [x];
      assert b == b' + [x];
      SplitSnoc(a + [sep] + b', x, sep);
      SplitSnoc(b', x, sep);
      ExtendConcat(Split(a, sep), Split(b', sep), x, sep);
    }
  }

  /** Extending the last group of `g + h` is extending the last group of `h`. */
  lemma ExtendConcat<T>(g: seq<seq<T>>, h: seq<seq<T>>, x: T, sep: T)
    requires h != []
    ensures (if x == sep then (g + h) + [[]] else AllButLast(g + h) + [Last(g + h) + [x]])
      == g + (if x == sep then h + [[]] else AllButLast(h) + [Last(h) + [x]])
  {
    assert AllButLast(g + h) == g + AllButLast(h);
    assert Last(g + h) == Last(h);
  }

  /** The statements keep their source order: the statements of a text joined at a `;`
      are those of the first part, then those of the second. */
  lemma StatementsInOrder(a: string, b: string)
    ensures StatementsOf(a + ";" + b) == StatementsOf(a) + StatementsOf(b)
  {
    SplitConcat(a, ';', b);
    assert a + ";" + b == a + [';'] + b;
    FlatMapAppend(Split(a, ';'), Split(b, ';'), StatementOf);
    StatementsFlatMap(Split(a, ';') + Split(b, ';'));
    StatementsFlatMap(Split(a, ';'));
    StatementsFlatMap(Split(b, ';'));
  }

  /** A text without `;` is one statement, or none when it is blank. */
  lemma SingleStatement(sql: string)
    requires ';' !in sql
    ensures StatementsOf(sql) == if Kept(Strip(sql)) then [Strip(sql)] else []
  {
    SplitNoSep(sql, ';');
    assert [sql] == [] + [sql];
    assert AllButLast([sql]) == [];
  }
}
