/** The process-wide one-time guards `_ensure_fts_column` and `_ensure_vector_index`:
    each runs its DDL at most once per process and raises the flag only after the commit.
    The database is represented by the log of the statements it has committed. */
module IndexGuards {
  import opened Common

  /** The DDL the guards issue. */
  datatype Ddl =
    | AddGeneratedTsvColumn   // `content_tsv` as a generated column
    | AddPlainTsvColumn       // the fallback plain `content_tsv` column
    | BackfillTsv             // fill `content_tsv` where it is NULL
    | CreateGinIndex          // `text_chunks_tsv_idx`
    | CreateIvfIndex          // `text_chunks_embedding_ivf`, lists = 100

  /** What one session commits for the lexical index: the generated column when the
      database accepts it, else the plain column and its backfill; then the GIN index. */
  function FtsScript(generatedOk: bool): (script: seq<Ddl>)
    ensures multiset(script)[CreateGinIndex] == 1 && multiset(script)[CreateIvfIndex] == 0
  {
    (if generatedOk then [AddGeneratedTsvColumn] else [AddPlainTsvColumn, BackfillTsv]) + [CreateGinIndex]
  }

  const VectorScript: seq<Ddl> := [CreateIvfIndex]

  const FtsDdlError: string := "DDL for content_tsv failed"
  const VecDdlError: string := "DDL for the IVF index failed"

  /** The two flags and the committed statements. */
  datatype GuardState = GuardState(ftsReady: bool, vecReady: bool, log: seq<Ddl>)

  const Fresh: GuardState := GuardState(false, false, [])

  /** One call of `_ensure_fts_column`. `generatedOk` says whether the generated-column
      ALTER succeeds; `restOk` whether the remaining statements and the commit do (when
      they raise, the session commits nothing and the flag stays down). */
  function FtsStep(g: GuardState, generatedOk: bool, restOk: bool): GuardState {
    if g.ftsReady || !restOk then g
    else GuardState(true, g.vecReady, g.log + FtsScript(generatedOk))
  }

  /** One call of `_ensure_vector_index`; `ok` says whether the DDL and commit succeed. */
  function VecStep(g: GuardState, ok: bool): GuardState {
    if g.vecReady || !ok then g
    else GuardState(g.ftsReady, true, g.log + VectorScript)
  }

  class Guards {
    var ftsReady: bool
    var vecReady: bool
    var log: seq<Ddl>

    function State(): GuardState
      reads this
    {
      GuardState(ftsReady, vecReady, log)
    }

    /** A fresh process: both flags down, nothing committed by the guards. */
    constructor()
      ensures State() == Fresh
    {
      ftsReady := false;
      vecReady := false;
      log := [];
    }

    method EnsureFtsColumn(generatedOk: bool, restOk: bool) returns (res: Result<(), string>)
      modifies this
      ensures State() == FtsStep(old(State()), generatedOk, restOk)
      ensures res == if !old(ftsReady) && !restOk then Failure(FtsDdlError) else Success(())
    {
      if ftsReady {
        return Success(());
      }
      var session: seq<Ddl>;
      if generatedOk {
        session := [AddGeneratedTsvColumn];
      } else {
        session := [AddPlainTsvColumn, BackfillTsv];
      }
      session := session + [CreateGinIndex];
      if !restOk {
        return Failure(FtsDdlError);
      }
      log := log + session;
      ftsReady := true;
      res := Success(());
    }

    method EnsureVectorIndex(ok: bool) returns (res: Result<(), string>)
      modifies this
      ensures State() == VecStep(old(State()), ok)
      ensures res == if !old(vecReady) && !ok then Failure(VecDdlError) else Success(())
    {
      if vecReady {
        return Success(());
      }
      if !ok {
        return Failure(VecDdlError);
      }
      log := log + VectorScript;
      vecReady := true;
      res := Success(());
    }
  }

  /** A call of either guard with the outcome the database gives it. */
  datatype Call = EnsureFts(generatedOk: bool, restOk: bool) | EnsureVec(ok: bool)

  function Apply(g: GuardState, c: Call): GuardState {
    match c
    case EnsureFts(a, b) => FtsStep(g, a, b)
    case EnsureVec(ok) => VecStep(g, ok)
  }

  function Run(g: GuardState, calls: seq<Call>): GuardState
    decreases |calls|
  {
    if calls == [] then g else Run(Apply(g, calls[0]), calls[1..])
  }

  /** Each index has been created exactly once if its flag is up, and never otherwise. */
  predicate Consistent(g: GuardState) {
    && multiset(g.log)[CreateGinIndex] == (if g.ftsReady then 1 else 0)
    && multiset(g.log)[CreateIvfIndex] == (if g.vecReady then 1 else 0)
  }

  /** A guard whose flag is up does nothing, whatever the database would answer. */
  lemma GuardsIdempotent(g: GuardState, a: bool, b: bool, a': bool, b': bool, ok: bool, ok': bool)
    ensures FtsStep(g, a, b).ftsReady ==> FtsStep(FtsStep(g, a, b), a', b') == FtsStep(g, a, b)
    ensures VecStep(g, ok).vecReady ==> VecStep(VecStep(g, ok), ok') == VecStep(g, ok)
    ensures b ==> FtsStep(g, a, b).ftsReady
    ensures ok ==> VecStep(g, ok).vecReady
  {
  }

  /** Every call keeps the flags and the committed DDL consistent. */
  lemma ApplyConsistent(g: GuardState, c: Call)
    requires Consistent(g)
    ensures Consistent(Apply(g, c))
  {
    var g' := Apply(g, c);
    if g' != g {
      match c
      case EnsureFts(a, b) =>
        assert multiset(g'.log) == multiset(g.log) + multiset(FtsScript(a));
      case EnsureVec(ok) =>
        assert multiset(g'.log) == multiset(g.log) + multiset(VectorScript);
    }
  }

  /** Over any sequence of calls in a process, each index is created at most once, and
      exactly once as soon as a call of its guard has succeeded. */
  lemma {:induction false} RunConsistent(g: GuardState, calls: seq<Call>)
    requires Consistent(g)
    ensures Consistent(Run(g, calls))
    ensures multiset(Run(g, calls).log)[CreateGinIndex] <= 1
    ensures multiset(Run(g, calls).log)[CreateIvfIndex] <= 1
    decreases |calls|
  {
    if calls != [] {
      ApplyConsistent(g, calls[0]);
      RunConsistent(Apply(g, calls[0]), calls[1..]);
    }
  }

  /** The flags never go down again. */
  lemma {:induction false} RunMonotone(g: GuardState, calls: seq<Call>)
    ensures g.ftsReady ==> Run(g, calls).ftsReady
    ensures g.vecReady ==> Run(g, calls).vecReady
    ensures g.log <= Run(g, calls).log
    decreases |calls|
  {
    if calls != [] {
      RunMonotone(Apply(g, calls[0]), calls[1..]);
    }
  }

  /** From a fresh process, the lexical flag is up exactly when some call of its guard
      got through the DDL. */
  lemma {:induction false} RunFtsReady(g: GuardState, calls: seq<Call>)
    ensures Run(g, calls).ftsReady <==>
      g.ftsReady || exists i :: 0 <= i < |calls| && calls[i].EnsureFts? && calls[i].restOk
    decreases |calls|
  {
    if calls != [] {
      RunFtsReady(Apply(g, calls[0]), calls[1..]);
      assert forall i :: 1 <= i < |calls| ==> calls[i] == calls[1..][i - 1];
      if exists i :: 0 <= i < |calls[1..]| && calls[1..][i].EnsureFts? && calls[1..][i].restOk {
        var i :| 0 <= i < |calls[1..]| && calls[1..][i].EnsureFts? && calls[1..][i].restOk;
        assert calls[i + 1] == calls[1..][i];
      }
    }
  }
}
