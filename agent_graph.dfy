/** The LangGraph agent: `plan` asks the planner model for an intent and a payload,
    `route` resets the state for the tool call, and `choose_next` picks the tool node.
    The planner's reply text, `json.loads` and the tool services are parameters. */
module AgentGraph {
  import opened Common
  import opened PyJson

  /** The tool nodes `route` can lead to. */
  datatype Node = Librarian | Quant | Risk | Alloc

  const DefaultIntent: string := "search_corpus"
  const PlannerTopK: int := 10
  const ComputeVarPath: string := "/tools/compute_var"
  const StressTestPath: string := "/tools/stress_test"
  /** What `x in {...}` raises for a list or dict `x`. */
  const UnhashableError: string := "unhashable type"

  /** The edge table of the graph: each named intent and the node that serves it. */
  const Routes: map<string, Node> := map[
    "search_corpus" := Librarian, "get_chunk" := Librarian,
    "run_backtest" := Quant, "grid_scan" := Quant,
    "compute_var" := Risk, "stress_test" := Risk,
    "optimize_portfolio" := Alloc]

  // ---------------------------------------------------------------------------
  // `choose_next`
  // ---------------------------------------------------------------------------

  /** Lists and dicts cannot be looked up in a set. */
  predicate Unhashable(j: Json) { j.JList? || j.JDict? }

  /** The node after `route` for the state's intent, `None` when the state has none.
      An intent that is not one of the known strings goes to the librarian. */
  function ChooseNext(intent: Option<Json>): Result<Node, string> {
    var i := intent.GetOr(JStr(DefaultIntent));
    if Unhashable(i) then Failure(UnhashableError)
    else if i == JStr("search_corpus") || i == JStr("get_chunk") then Success(Librarian)
    else if i == JStr("run_backtest") || i == JStr("grid_scan") then Success(Quant)
    else if i == JStr("compute_var") || i == JStr("stress_test") then Success(Risk)
    else if i == JStr("optimize_portfolio") then Success(Alloc)
    else Success(Librarian)
  }

  /** `choose_next` follows the edge table for a known intent and falls back to the
      librarian for any other string, for a non-string scalar and for a missing
      intent. */
  lemma ChooseNextByTable(intent: Option<Json>)
    ensures intent.Some? && intent.value.JStr? && intent.value.s in Routes ==>
      ChooseNext(intent) == Success(Routes[intent.value.s])
    ensures intent.Some? && intent.value.JStr? && intent.value.s !in Routes ==>
      ChooseNext(intent) == Success(Librarian)
    ensures intent.None? ==> ChooseNext(intent) == Success(Librarian)
    ensures intent.Some? && !intent.value.JStr? ==>
      ChooseNext(intent) == if Unhashable(intent.value) then Failure(UnhashableError) else Success(Librarian)
  {
    if intent.Some? && intent.value.JStr? && intent.value.s !in Routes {
      var s := intent.value.s;
      assert s != "search_corpus" && s != "get_chunk" && s != "run_backtest" && s != "grid_scan";
      assert s != "compute_var" && s != "stress_test" && s != "optimize_portfolio";
    }
  }

  /** Only the listed intents reach a node other than the librarian. */
  lemma OnlyListedLeaveLibrarian(intent: Option<Json>, n: Node)
    requires ChooseNext(intent) == Success(n) && n != Librarian
    ensures intent.Some? && intent.value.JStr? && intent.value.s in Routes
    ensures Routes[intent.value.s] == n
  {
  }

  // ---------------------------------------------------------------------------
  // `plan_node`: `re.search(r"\{.*\}", out, re.S)` and the fallback plan.
  // ---------------------------------------------------------------------------

  /** Where the greedy, dot-matches-newline `{.*}` matches: from the first `{` to the last
      `}`, when that `}` comes after the `{`. */
  function BraceSpan(s: string): Option<(nat, nat)> {
    match FirstIndex(s, '{')
    case None => None
    case Some(i) =>
      match LastIndex(s, '}')
      case None => None
      case Some(j) => if i < j then Some((i, j)) else None
  }

  /** The span is the regex match: it starts at the leftmost `{` that has a later `}`,
      ends at the last `}`, and there is no match exactly when no `{` precedes a `}`. */
  lemma BraceSpanIsMatch(s: string)
    ensures BraceSpan(s).Some? ==>
      var (i, j) := BraceSpan(s).value;
      && i < j < |s| && s[i] == '{' && s[j] == '}'
      && (forall a :: 0 <= a < i ==> s[a] != '{')
      && (forall b :: j < b < |s| ==> s[b] != '}')
    ensures BraceSpan(s).None? <==>
      forall a, b :: 0 <= a < b < |s| ==> !(s[a] == '{' && s[b] == '}')
  {
  }

  /** The plan when the reply holds no usable JSON object: search the corpus for the
      query, ten results. */
  function FallbackPayload(query: string): Json {
    JDict(map["query" := JStr(query), "top_k" := JInt(PlannerTopK)])
  }

  /** The planner's `(intent, payload)`: the object's fields where the match parses as a
      JSON object, each falling back on its own, else the fallback plan. A failed parse,
      or a value without `.get`, is swallowed by the `except`. */
  function Planned(query: string, out: string, parse: string -> Option<Json>): (Json, Json) {
    var fallback := (JStr(DefaultIntent), FallbackPayload(query));
    match BraceSpan(out)
    case None => fallback
    case Some((i, j)) =>
      match parse(out[i..j + 1])
      case Some(JDict(o)) => (Get(o, "intent", fallback.0), Get(o, "payload", fallback.1))
      case _ => fallback
  }

  /** With no `{...}` in the reply, or one that does not parse as an object, the plan is
      the fallback; otherwise each missing field falls back on its own. */
  lemma PlannedRules(query: string, out: string, parse: string -> Option<Json>)
    ensures (forall a, b :: 0 <= a < b < |out| ==> !(out[a] == '{' && out[b] == '}')) ==>
      Planned(query, out, parse) == (JStr("search_corpus"), JDict(map["query" := JStr(query), "top_k" := JInt(10)]))
    ensures BraceSpan(out).Some? ==>
      var (i, j) := BraceSpan(out).value;
      match parse(out[i..j + 1])
      case Some(JDict(o)) =>
        && Planned(query, out, parse).0 == (if "intent" in o then o["intent"] else JStr("search_corpus"))
        && Planned(query, out, parse).1 == (if "payload" in o then o["payload"] else FallbackPayload(query))
      case _ => Planned(query, out, parse) == (JStr("search_corpus"), FallbackPayload(query))
  {
    BraceSpanIsMatch(out);
  }

  // ---------------------------------------------------------------------------
  // The agent state and the nodes that change it.
  // ---------------------------------------------------------------------------

  /** The keys of the state dict; `None` for a key that is not set. */
  datatype State = State(
    query: string,
    intent: Option<Json>,
    context: Option<Json>,
    plan: Option<Json>,
    result: Option<map<string, Json>>,
    error: Option<Json>)

  function PlanStep(s: State, out: string, parse: string -> Option<Json>): State {
    var p := Planned(s.query, out, parse);
    s.(intent := Some(p.0), result := Some(map["planner" := JStr(out), "payload" := p.1]))
  }

  /** `state.get("result", {}).get("payload", {})` */
  function PayloadOf(s: State): Json {
    Get(s.result.GetOr(map[]), "payload", JDict(map[]))
  }

  function RouteStep(s: State): State {
    s.(plan := Some(s.intent.GetOr(JStr(DefaultIntent))), error := Some(JNull),
       context := Some(JList([])), result := Some(map["payload" := PayloadOf(s)]))
  }

  /** The risk service path for the state's intent. */
  function RiskPath(intent: Json): string {
    if intent == JStr("compute_var") then ComputeVarPath else StressTestPath
  }

  function RiskStep(s: State, call: (string, Json) -> map<string, Json>): State
    requires s.intent.Some?
  {
    s.(result := Some(call(RiskPath(s.intent.value), PayloadOf(s))))
  }

  class AgentState {
    var query: string
    var intent: Option<Json>
    var context: Option<Json>
    var plan: Option<Json>
    var result: Option<map<string, Json>>
    var error: Option<Json>

    function Snapshot(): State
      reads this
    {
      State(query, intent, context, plan, result, error)
    }

    /** The state the graph is invoked with: only the query is set. */
    constructor(q: string)
      ensures Snapshot() == State(q, None, None, None, None, None)
    {
      query := q;
      intent := None;
      context := None;
      plan := None;
      result := None;
      error := None;
    }

    /** `plan_node`, given the planner's reply `out`. */
    method PlanNode(out: string, parse: string -> Option<Json>)
      modifies this
      ensures Snapshot() == PlanStep(old(Snapshot()), out, parse)
    {
      var newIntent := JStr(DefaultIntent);
      var payload := FallbackPayload(query);
      var m := BraceSpan(out);
      if m.Some? {
        var o := parse(out[m.value.0..m.value.1 + 1]);
        if o.Some? && o.value.JDict? {
          newIntent, payload := Get(o.value.fields, "intent", newIntent), Get(o.value.fields, "payload", payload);
        }
      }
      intent := Some(newIntent);
      result := Some(map["planner" := JStr(out), "payload" := payload]);
    }

    method RouteNode()
      modifies this
      ensures Snapshot() == RouteStep(old(Snapshot()))
    {
      var i := intent.GetOr(JStr(DefaultIntent));
      var payload := Get(result.GetOr(map[]), "payload", JDict(map[]));
      plan := Some(i);
      error := Some(JNull);
      context := Some(JList([]));
      result := Some(map["payload" := payload]);
    }

    /** `risk_node`; `call(path, payload)` is the risk service's reply. */
    method RiskNode(call: (string, Json) -> map<string, Json>)
      requires intent.Some?
      modifies this
      ensures Snapshot() == RiskStep(old(Snapshot()), call)
    {
      var pl := Get(result.GetOr(map[]), "payload", JDict(map[]));
      var path := StressTestPath;
      if intent.value == JStr("compute_var") {
        path := ComputeVarPath;
      }
      result := Some(call(path, pl));
    }
  }

  // ---------------------------------------------------------------------------
  // What the nodes do together.
  // ---------------------------------------------------------------------------

  /** `route` records the intent as the plan, clears the error and the context, keeps
      only the payload of the result, and leaves the query and the intent alone; routing
      twice is routing once. */
  lemma RouteRules(s: State)
    ensures RouteStep(s).query == s.query && RouteStep(s).intent == s.intent
    ensures RouteStep(s).plan == Some(if s.intent.Some? then s.intent.value else JStr("search_corpus"))
    ensures RouteStep(s).error == Some(JNull) && RouteStep(s).context == Some(JList([]))
    ensures RouteStep(s).result.Some? && RouteStep(s).result.value.Keys == {"payload"}
    ensures PayloadOf(RouteStep(s)) == PayloadOf(s)
    ensures RouteStep(RouteStep(s)) == RouteStep(s)
  {
  }

  /** After `plan` and `route` the plan is the planner's intent, the result holds just
      the planner's payload, and `choose_next` dispatches on that intent. */
  lemma PlanThenRoute(s: State, out: string, parse: string -> Option<Json>)
    ensures var t := RouteStep(PlanStep(s, out, parse));
      && t.query == s.query
      && t.intent == Some(Planned(s.query, out, parse).0)
      && t.plan == t.intent
      && t.result == Some(map["payload" := Planned(s.query, out, parse).1])
      && ChooseNext(t.intent) == ChooseNext(Some(Planned(s.query, out, parse).0))
  {
  }

  /** A reply without a usable object sends the query to the librarian with ten
      results. */
  lemma FallbackGoesToLibrarian(s: State, out: string, parse: string -> Option<Json>)
    requires forall a, b :: 0 <= a < b < |out| ==> !(out[a] == '{' && out[b] == '}')
    ensures var t := RouteStep(PlanStep(s, out, parse));
      && ChooseNext(t.intent) == Success(Librarian)
      && PayloadOf(t) == JDict(map["query" := JStr(s.query), "top_k" := JInt(10)])
  {
    PlannedRules(s.query, out, parse);
  }

  /** The risk node calls the VaR tool exactly for the "compute_var" intent and the
      stress test for every other one, with the routed payload, and stores the reply. */
  lemma RiskPathRule(s: State, call: (string, Json) -> map<string, Json>)
    requires s.intent.Some?
    ensures RiskPath(s.intent.value) == "/tools/compute_var" <==> s.intent.value == JStr("compute_var")
    ensures RiskPath(s.intent.value) == "/tools/stress_test" <==> s.intent.value != JStr("compute_var")
    ensures RiskStep(s, call).result == Some(call(RiskPath(s.intent.value), PayloadOf(s)))
    ensures RiskStep(s, call).(result := s.result) == s
  {
  }
}
