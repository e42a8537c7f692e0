/** `handle_intent`: the dispatcher from an intent and its payload to a tool call, with
    the defaults it fills in and the `int(...)` / `float(...)` conversions it applies.
    The corpus search and the chunk lookup are parameters. */
module Orchestrator {
  import opened Common
  import opened Decimal
  import opened PyJson
  import opened AgentTools
  import AgentGraph

  const TypeError: string := "TypeError"
  const ValueError: string := "ValueError"

  // ---------------------------------------------------------------------------
  // `int(x)` and `float(x)` on the values a payload can hold.
  // ---------------------------------------------------------------------------

  /** `int(r)` for a float: truncation toward zero. */
  function Truncate(r: real): int {
    if r >= 0.0 then r.Floor else -((-r).Floor)
  }

  /** `int(x)`: booleans are 0 or 1, floats are truncated, strings are parsed as decimal
      integers; `None`, lists and dicts raise. */
  function PyInt(x: Json): Result<int, string> {
    match x
    case JBool(b) => Success(if b then 1 else 0)
    case JInt(i) => Success(i)
    case JFloat(r) => Success(Truncate(r))
    case JStr(s) => (match ParseInt(s) case Some(i) => Success(i) case None => Failure(ValueError))
    case _ => Failure(TypeError)
  }

  /** The value of an unsigned decimal `digits[.digits]` with at least one digit. */
  function DecimalValue(body: string): Option<real> {
    var k := FirstIndex(body, '.');
    var whole := if k.Some? then body[..k.value] else body;
    var frac := if k.Some? then body[k.value + 1..] else [];
    if |whole| + |frac| == 0 || !AllDigits(whole) || !AllDigits(frac) then None
    else Some(DigitsValue(whole) as real + DigitsValue(frac) as real / Pow10(|frac|) as real)
  }

  /** `float(s)` for the forms the model covers: surrounding whitespace, an optional sign,
      then `digits[.digits]`. */
  function ParseFloat(s: string): Option<real> {
    var t := Strip(s);
    if t == [] then None
    else
      var body := if t[0] == '-' || t[0] == '+' then t[1..] else t;
      match DecimalValue(body)
      case None => None
      case Some(v) => Some(if t[0] == '-' then -v else v)
  }

  /** `float(x)`. */
  function PyFloat(x: Json): Result<real, string> {
    match x
    case JBool(b) => Success(if b then 1.0 else 0.0)
    case JInt(i) => Success(i as real)
    case JFloat(r) => Success(r)
    case JStr(s) => (match ParseFloat(s) case Some(r) => Success(r) case None => Failure(ValueError))
    case _ => Failure(TypeError)
  }

  /** `int(x)` truncates toward zero: the result has the sign of `x` and lies less than
      one away from it, closer to zero. */
  lemma TruncateBounds(r: real)
    ensures r >= 0.0 ==> 0.0 <= Truncate(r) as real <= r < Truncate(r) as real + 1.0
    ensures r < 0.0 ==> Truncate(r) as real - 1.0 < r <= Truncate(r) as real <= 0.0
  {
  }

  /** `int(str(i)) == i`, `float(str(i)) == i`, and `int` and `float` agree on integers. */
  lemma ConversionsOnIntegers(i: int)
    ensures PyInt(JStr(IntToString(i))) == Success(i)
    ensures PyFloat(JStr(IntToString(i))) == Success(i as real)
    ensures PyInt(JInt(i)) == Success(i) && PyFloat(JInt(i)) == Success(i as real)
    ensures PyInt(JFloat(i as real)) == Success(i)
  {
    PyIntOfIntString(i);
    PyFloatOfIntString(i);
    PyIntOfIntFloat(i);
  }

  lemma PyIntOfIntString(i: int)
    ensures PyInt(JStr(IntToString(i))) == Success(i)
  {
    IntToStringRoundTrip(i);
    PyIntOfParsed(IntToString(i), i);
  }

  lemma PyFloatOfIntString(i: int)
    ensures PyFloat(JStr(IntToString(i))) == Success(i as real)
  {
    IntStringParsesAsFloat(i);
    PyFloatOfParsed(IntToString(i), i as real);
  }

  /** `int(s)` for a string is what the decimal parser reads from it. */
  lemma PyIntOfParsed(s: string, v: int)
    requires ParseInt(s) == Some(v)
    ensures PyInt(JStr(s)) == Success(v)
  {
  }

  /** `float(s)` for a string is what the decimal parser reads from it. */
  lemma PyFloatOfParsed(s: string, r: real)
    requires ParseFloat(s) == Some(r)
    ensures PyFloat(JStr(s)) == Success(r)
  {
  }

  /** `int(float(i)) == i`. */
  lemma PyIntOfIntFloat(i: int)
    ensures PyInt(JFloat(i as real)) == Success(i)
  {
  }

  /** `float(str(i)) == i`: the decimal rendering of an integer reads back as that number. */
  lemma IntStringParsesAsFloat(i: int)
    ensures ParseFloat(IntToString(i)) == Some(i as real)
  {
    var s := IntToString(i);
    var d := NatToString(if i < 0 then -i else i);
    if i < 0 {
      assert s == ['-'] + d;
      NoSpaceStrip(s);
      assert s[1..] == d;
    } else {
      NoSpaceStrip(s);
    }
    NoDot(d);
    NatToStringValue(if i < 0 then -i else i);
    assert DecimalValue(d) == Some(DigitsValue(d) as real);
  }

  lemma NoDot(d: string)
    requires |d| >= 1 && AllDigits(d)
    ensures FirstIndex(d, '.').None?
    ensures DecimalValue(d) == Some(DigitsValue(d) as real)
  {
    assert DigitsValue([]) == 0;
  }

  // ---------------------------------------------------------------------------
  // The dispatch.
  // ---------------------------------------------------------------------------

  /** The services `handle_intent` calls: `search_text(query, top_k, alpha)` and
      `get_doc(chunk_id)`. */
  datatype Services = Services(searchText: (Json, int, real) -> Json, getDoc: int -> Json)

  const SearchTopK: int := 20
  const SearchAlpha: real := 0.5
  const VarMethod: string := "mc"
  const VarHorizonDays: int := 10
  const VarPaths: int := 1000
  const AllocMethod: string := "HRP"

  /** The intents `handle_intent` knows. */
  const KnownIntents: set<string> := {"search_corpus", "get_doc", "get_chunk", "run_backtest",
    "grid_scan", "compute_var", "stress_test", "optimize_portfolio"}

  function UnknownIntent(intent: string): map<string, Json> {
    map["error" := JStr("unknown intent " + intent)]
  }

  /** The reply of `handle_intent`; `Failure` is the exception a conversion raises. */
  function HandleIntent(intent: string, payload: map<string, Json>, svc: Services): Result<map<string, Json>, string> {
    if intent == "search_corpus" then
      var q := Get(payload, "query", JStr(""));
      match PyInt(Get(payload, "top_k", JInt(SearchTopK)))
      case Failure(e) => Failure(e)
      case Success(k) =>
        match PyFloat(Get(payload, "alpha", JFloat(SearchAlpha)))
        case Failure(e) => Failure(e)
        case Success(alpha) => Success(map["results" := svc.searchText(q, k, alpha)])
    else if intent == "get_doc" || intent == "get_chunk" then
      match PyInt(Or(Get(payload, "chunk_id", JNull), Get(payload, "id", JNull)))
      case Failure(e) => Failure(e)
      case Success(cid) => Success(map["doc" := svc.getDoc(cid)])
    else if intent == "run_backtest" then
      Success(RunBacktest(Get(payload, "params", JDict(map[])), Get(payload, "universe", JList([])),
                          Get(payload, "start", JNull), Get(payload, "end", JNull)))
    else if intent == "grid_scan" then
      Success(GridScan(Get(payload, "param_grid", JDict(map[])), Get(payload, "universe", JList([])),
                       Get(payload, "start", JNull), Get(payload, "end", JNull)))
    else if intent == "compute_var" then
      var approach := Get(payload, "method", JStr(VarMethod));
      match PyInt(Get(payload, "horizon_days", JInt(VarHorizonDays)))
      case Failure(e) => Failure(e)
      case Success(h) =>
        match PyInt(Get(payload, "paths", JInt(VarPaths)))
        case Failure(e) => Failure(e)
        case Success(p) => Success(ComputeVar(approach, h, p, Get(payload, "assets", JList([]))))
    else if intent == "stress_test" then
      Success(StressTest(Get(payload, "scenarios", JList([])), Get(payload, "assets", JList([]))))
    else if intent == "optimize_portfolio" then
      Success(OptimizePortfolio(Get(payload, "method", JStr(AllocMethod)), Get(payload, "assets", JList([])),
                                Get(payload, "constraints", JDict(map[]))))
    else Success(UnknownIntent(intent))
  }

  // ---------------------------------------------------------------------------
  // What the dispatch promises.
  // ---------------------------------------------------------------------------

  /** An empty payload gets the defaults: the search asks for 20 results at alpha 0.5 for
      the empty query; VaR is Monte Carlo over 10 days and 1000 paths for no assets;
      allocation is HRP; the chunk lookup has no id and raises. */
  lemma EmptyPayloadDefaults(svc: Services)
    ensures HandleIntent("search_corpus", map[], svc) == Success(map["results" := svc.searchText(JStr(""), 20, 0.5)])
    ensures HandleIntent("compute_var", map[], svc) == Success(map[
      "status" := JStr("queued"), "method" := JStr("mc"), "horizon_days" := JInt(10),
      "paths" := JInt(1000), "assets" := JList([])])
    ensures HandleIntent("optimize_portfolio", map[], svc) == Success(map[
      "status" := JStr("queued"), "method" := JStr("HRP"), "assets" := JList([]),
      "constraints" := JDict(map[])])
    ensures HandleIntent("get_chunk", map[], svc) == Failure("TypeError")
    ensures HandleIntent("get_doc", map[], svc) == Failure("TypeError")
  {
  }

  /** A truthy `chunk_id` is the id looked up; a missing or falsy one gives way to `id`. */
  lemma ChunkIdPreferred(intent: string, payload: map<string, Json>, svc: Services)
    requires intent == "get_doc" || intent == "get_chunk"
    ensures "chunk_id" in payload && payload["chunk_id"].Truthy() && PyInt(payload["chunk_id"]).Success? ==>
      HandleIntent(intent, payload, svc) == Success(map["doc" := svc.getDoc(PyInt(payload["chunk_id"]).value)])
    ensures ("chunk_id" !in payload || !payload["chunk_id"].Truthy()) ==>
      HandleIntent(intent, payload, svc) ==
        match PyInt(Get(payload, "id", JNull))
        case Success(cid) => Success(map["doc" := svc.getDoc(cid)])
        case Failure(e) => Failure(e)
  {
  }

  /** Any intent outside the known ones is answered with an error naming it, whatever the
      payload. */
  lemma UnknownIntentRule(intent: string, payload: map<string, Json>, svc: Services)
    ensures intent !in KnownIntents <==> HandleIntent(intent, payload, svc) == Success(map["error" := JStr("unknown intent " + intent)])
  {
    if intent in KnownIntents {
      var r := HandleIntent(intent, payload, svc);
      if r.Success? {
        assert "error" !in r.value;
      }
    }
  }

  /** Every intent the agent graph routes to a tool node is one the dispatcher knows. */
  lemma RoutedIntentsKnown()
    ensures forall s :: s in AgentGraph.Routes ==> s in KnownIntents
  {
  }

  /** The VaR request echoes integer parameters and the payload's assets; the search
      passes the query and its integer `top_k` through. */
  lemma ParametersPassThrough(payload: map<string, Json>, svc: Services, h: int, p: int, k: int)
    ensures Get(payload, "horizon_days", JInt(10)) == JInt(h) && Get(payload, "paths", JInt(1000)) == JInt(p) ==>
      && HandleIntent("compute_var", payload, svc).Success?
      && HandleIntent("compute_var", payload, svc).value["horizon_days"] == JInt(h)
      && HandleIntent("compute_var", payload, svc).value["paths"] == JInt(p)
      && HandleIntent("compute_var", payload, svc).value["method"] == Get(payload, "method", JStr("mc"))
    ensures Get(payload, "top_k", JInt(20)) == JInt(k) && PyFloat(Get(payload, "alpha", JFloat(0.5))).Success? ==>
      HandleIntent("search_corpus", payload, svc) ==
        Success(map["results" := svc.searchText(Get(payload, "query", JStr("")), k,
                                                PyFloat(Get(payload, "alpha", JFloat(0.5))).value)])
  {
  }
}
