/** The tool stubs behind the intent dispatcher: each answers "queued" and echoes what
    it was asked, under the names of its parameters. */
module AgentTools {
  import opened PyJson

  const Queued: Json := JStr("queued")

  /** `run_backtest(params, universe, start, end)`. */
  function RunBacktest(params: Json, universe: Json, start: Json, end: Json): map<string, Json> {
    map["status" := Queued, "params" := params, "universe" := universe, "start" := start, "end" := end]
  }

  /** `grid_scan(param_grid, universe, start, end)`. */
  function GridScan(paramGrid: Json, universe: Json, start: Json, end: Json): map<string, Json> {
    map["status" := Queued, "grid" := paramGrid, "universe" := universe, "start" := start, "end" := end]
  }

  /** `compute_var(method, horizon_days, paths, assets)`: a missing or empty asset list is
      echoed as `[]`. */
  function ComputeVar(approach: Json, horizonDays: int, paths: int, assets: Json): map<string, Json> {
    map["status" := Queued, "method" := approach, "horizon_days" := JInt(horizonDays),
        "paths" := JInt(paths), "assets" := Or(assets, JList([]))]
  }

  /** `stress_test(scenarios, assets)`. */
  function StressTest(scenarios: Json, assets: Json): map<string, Json> {
    map["status" := Queued, "scenarios" := scenarios, "assets" := assets]
  }

  /** `optimize_portfolio(method, assets, constraints)`: missing or empty constraints are
      echoed as `{}`. */
  function OptimizePortfolio(approach: Json, assets: Json, constraints: Json): map<string, Json> {
    map["status" := Queued, "method" := approach, "assets" := assets,
        "constraints" := Or(constraints, JDict(map[]))]
  }

  /** Every stub reply is "queued", carries one key per parameter and no other, and gives
      each argument back unchanged; only the falsy asset list of `compute_var` and the
      falsy constraints of `optimize_portfolio` come back normalised to an empty one. */
  lemma StubsEcho(a: Json, b: Json, c: Json, d: Json, h: int, p: int)
    ensures RunBacktest(a, b, c, d).Keys == {"status", "params", "universe", "start", "end"}
    ensures var r := RunBacktest(a, b, c, d);
      r["status"] == JStr("queued") && r["params"] == a && r["universe"] == b && r["start"] == c && r["end"] == d
    ensures GridScan(a, b, c, d).Keys == {"status", "grid", "universe", "start", "end"}
    ensures var r := GridScan(a, b, c, d);
      r["status"] == JStr("queued") && r["grid"] == a && r["universe"] == b && r["start"] == c && r["end"] == d
    ensures ComputeVar(a, h, p, b).Keys == {"status", "method", "horizon_days", "paths", "assets"}
    ensures var r := ComputeVar(a, h, p, b);
      && r["status"] == JStr("queued") && r["method"] == a && r["horizon_days"] == JInt(h) && r["paths"] == JInt(p)
      && r["assets"] == (if b.Truthy() then b else JList([]))
    ensures StressTest(a, b).Keys == {"status", "scenarios", "assets"}
    ensures var r := StressTest(a, b); r["status"] == JStr("queued") && r["scenarios"] == a && r["assets"] == b
    ensures OptimizePortfolio(a, b, c).Keys == {"status", "method", "assets", "constraints"}
    ensures var r := OptimizePortfolio(a, b, c);
      && r["status"] == JStr("queued") && r["method"] == a && r["assets"] == b
      && r["constraints"] == (if c.Truthy() then c else JDict(map[]))
  {
    RunBacktestEcho(a, b, c, d);
    GridScanEcho(a, b, c, d);
    ComputeVarEcho(a, h, p, b);
    StressTestEcho(a, b);
    OptimizePortfolioEcho(a, b, c);
  }

  /** `run_backtest` echoes its four arguments. */
  lemma RunBacktestEcho(a: Json, b: Json, c: Json, d: Json)
    ensures RunBacktest(a, b, c, d).Keys == {"status", "params", "universe", "start", "end"}
    ensures var r := RunBacktest(a, b, c, d);
      r["status"] == JStr("queued") && r["params"] == a && r["universe"] == b && r["start"] == c && r["end"] == d
  {
  }

  /** `grid_scan` echoes its four arguments. */
  lemma GridScanEcho(a: Json, b: Json, c: Json, d: Json)
    ensures GridScan(a, b, c, d).Keys == {"status", "grid", "universe", "start", "end"}
    ensures var r := GridScan(a, b, c, d);
      r["status"] == JStr("queued") && r["grid"] == a && r["universe"] == b && r["start"] == c && r["end"] == d
  {
  }

  /** `compute_var` echoes its arguments, with `assets or []`. */
  lemma ComputeVarEcho(a: Json, h: int, p: int, b: Json)
    ensures ComputeVar(a, h, p, b).Keys == {"status", "method", "horizon_days", "paths", "assets"}
    ensures var r := ComputeVar(a, h, p, b);
      && r["status"] == JStr("queued") && r["method"] == a && r["horizon_days"] == JInt(h) && r["paths"] == JInt(p)
      && r["assets"] == (if b.Truthy() then b else JList([]))
  {
  }

  /** `stress_test` echoes its two arguments. */
  lemma StressTestEcho(a: Json, b: Json)
    ensures StressTest(a, b).Keys == {"status", "scenarios", "assets"}
    ensures var r := StressTest(a, b); r["status"] == JStr("queued") && r["scenarios"] == a && r["assets"] == b
  {
  }

  /** `optimize_portfolio` echoes its arguments, with `constraints or {}`. */
  lemma OptimizePortfolioEcho(a: Json, b: Json, c: Json)
    ensures OptimizePortfolio(a, b, c).Keys == {"status", "method", "assets", "constraints"}
    ensures var r := OptimizePortfolio(a, b, c);
      && r["status"] == JStr("queued") && r["method"] == a && r["assets"] == b
      && r["constraints"] == (if c.Truthy() then c else JDict(map[]))
  {
  }
}
