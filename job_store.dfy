/** The ingestion job log (`store_job_status` / `get_job_status` over
    `data_ingestion_jobs`): one record per job id, created by the first status report and
    updated by later ones. Time is a parameter (the `datetime.now()` of the call). */
module JobStore {
  import opened Common
  import opened PyJson
  import opened TextChunkRows

  datatype JobRecord = JobRecord(
    jobType: string,
    status: string,
    createdAt: int,
    startedAt: Option<int>,
    completedAt: Option<int>,
    errorMessage: Option<string>,
    parameters: Json,
    results: Json)

  /** What one report makes of the job's record: a new record when there is none, else the
      existing one with the new status, `started_at` stamped when it first runs,
      `completed_at` stamped on completion or failure, and the message and results
      replaced only by truthy values. The job type and parameters of an existing record
      are never touched. */
  function Reported(prev: Option<JobRecord>, jobType: string, status: string, parameters: Json,
                    results: Json, errorMessage: Option<string>, now: int): JobRecord {
    match prev
    case None => JobRecord(jobType, status, now, None, None, errorMessage, parameters, results)
    case Some(j) =>
      var started := if status == "running" && j.startedAt.None? then Some(now) else j.startedAt;
      var completed := if !(status == "running" && j.startedAt.None?) && (status == "completed" || status == "failed")
                       then Some(now) else j.completedAt;
      JobRecord(j.jobType, status, j.createdAt, started, completed,
                if Truthy(errorMessage) then errorMessage else j.errorMessage,
                j.parameters,
                if results.Truthy() then results else j.results)
  }

  function Lookup(jobs: map<string, JobRecord>, jobId: string): Option<JobRecord> {
    if jobId in jobs then Some(jobs[jobId]) else None
  }

  class Jobs {
    var jobs: map<string, JobRecord>

    constructor()
      ensures jobs == map[]
    {
      jobs := map[];
    }

    method StoreJobStatus(jobId: string, jobType: string, status: string, parameters: Json,
                          results: Json, errorMessage: Option<string>, now: int)
      modifies this
      ensures jobs == old(jobs)[jobId := Reported(Lookup(old(jobs), jobId), jobType, status, parameters, results, errorMessage, now)]
    {
      if jobId in jobs {
        var j := jobs[jobId];
        var started := j.startedAt;
        var completed := j.completedAt;
        if status == "running" && started.None? {
          started := Some(now);
        } else if status == "completed" || status == "failed" {
          completed := Some(now);
        }
        var message := j.errorMessage;
        if Truthy(errorMessage) {
          message := errorMessage;
        }
        var res := j.results;
        if results.Truthy() {
          res := results;
        }
        jobs := jobs[jobId := JobRecord(j.jobType, status, j.createdAt, started, completed, message, j.parameters, res)];
      } else {
        jobs := jobs[jobId := JobRecord(jobType, status, now, None, None, errorMessage, parameters, results)];
      }
    }

    /** `get_job_status`: the record, or nothing (`{}`) for an unknown job. */
    method GetJobStatus(jobId: string) returns (r: Option<JobRecord>)
      ensures r == Lookup(jobs, jobId)
      ensures r.Some? <==> jobId in jobs
    {
      if jobId in jobs {
        r := Some(jobs[jobId]);
      } else {
        r := None;
      }
    }
  }

  // ---------------------------------------------------------------------------
  // What a report does and keeps.
  // ---------------------------------------------------------------------------

  /** A report always records its status; on an existing job it keeps the type, the
      parameters and the creation time, and replaces the message and results only with
      truthy values. A new job has neither start nor completion time. */
  lemma ReportedRules(prev: Option<JobRecord>, jobType: string, status: string, parameters: Json,
                      results: Json, errorMessage: Option<string>, now: int)
    ensures var j := Reported(prev, jobType, status, parameters, results, errorMessage, now);
      && j.status == status
      && (prev.None? ==> j == JobRecord(jobType, status, now, None, None, errorMessage, parameters, results))
      && (prev.Some? ==>
            && j.jobType == prev.value.jobType && j.parameters == prev.value.parameters
            && j.createdAt == prev.value.createdAt
            && j.errorMessage == (if Truthy(errorMessage) then errorMessage else prev.value.errorMessage)
            && j.results == (if results.Truthy() then results else prev.value.results))
  {
  }

  /** The start time is stamped by the first "running" report and never changes after;
      the completion time is stamped by every "completed" or "failed" report and kept
      otherwise. */
  lemma ReportedTimestamps(j: JobRecord, jobType: string, status: string, parameters: Json,
                           results: Json, errorMessage: Option<string>, now: int)
    ensures var j' := Reported(Some(j), jobType, status, parameters, results, errorMessage, now);
      && (j.startedAt.Some? ==> j'.startedAt == j.startedAt)
      && (j.startedAt.None? ==> (j'.startedAt.Some? <==> status == "running"))
      && (j'.startedAt.Some? && j.startedAt.None? ==> j'.startedAt == Some(now))
      && (status == "completed" || status == "failed" ==> j'.completedAt == Some(now))
      && (status != "completed" && status != "failed" ==> j'.completedAt == j.completedAt)
  {
  }

  /** A sequence of reports for one job. */
  datatype Report = Report(jobType: string, status: string, parameters: Json, results: Json,
                           errorMessage: Option<string>, now: int)

  function Replay(prev: Option<JobRecord>, reports: seq<Report>): (r: Option<JobRecord>)
    ensures reports != [] ==> r.Some?
    ensures reports == [] ==> r == prev
    decreases |reports|
  {
    if reports == [] then prev
    else
      var x := reports[0];
      Replay(Some(Reported(prev, x.jobType, x.status, x.parameters, x.results, x.errorMessage, x.now)), reports[1..])
  }

  /** Over any sequence of reports about a job, the first report fixes its type,
      parameters and creation time, the status is the last one reported, and a start
      time once stamped never changes. */
  lemma {:induction false} ReplayKeeps(j: JobRecord, reports: seq<Report>)
    ensures var r := Replay(Some(j), reports).value;
      && r.jobType == j.jobType && r.parameters == j.parameters && r.createdAt == j.createdAt
      && (reports != [] ==> r.status == reports[|reports| - 1].status)
      && (j.startedAt.Some? ==> r.startedAt == j.startedAt)
    decreases |reports|
  {
    if reports != [] {
      var x := reports[0];
      var j' := Reported(Some(j), x.jobType, x.status, x.parameters, x.results, x.errorMessage, x.now);
      ReplayKeeps(j', reports[1..]);
      if |reports| == 1 {
        assert reports[1..] == [];
      } else {
        assert reports[1..][|reports[1..]| - 1] == reports[|reports| - 1];
      }
    }
  }

  /** The lifecycle every ingestion job goes through: "pending" with its parameters at
      t0, "running" at t1, "completed" with its results at t2. */
  lemma Lifecycle(jobType: string, params: Json, results: Json, t0: int, t1: int, t2: int)
    requires results.Truthy()
    ensures Replay(None, [Report(jobType, "pending", params, JNull, None, t0),
                          Report(jobType, "running", JNull, JNull, None, t1),
                          Report(jobType, "completed", JNull, results, None, t2)])
      == Some(JobRecord(jobType, "completed", t0, Some(t1), Some(t2), None, params, results))
  {
    var rs := [Report(jobType, "pending", params, JNull, None, t0),
               Report(jobType, "running", JNull, JNull, None, t1),
               Report(jobType, "completed", JNull, results, None, t2)];
    var j1 := JobRecord(jobType, "pending", t0, None, None, None, params, JNull);
    var j2 := JobRecord(jobType, "running", t0, Some(t1), None, None, params, JNull);
    var j3 := JobRecord(jobType, "completed", t0, Some(t1), Some(t2), None, params, results);
    assert Reported(None, jobType, "pending", params, JNull, None, t0) == j1;
    assert Reported(Some(j1), jobType, "running", JNull, JNull, None, t1) == j2;
    assert Reported(Some(j2), jobType, "completed", JNull, results, None, t2) == j3;
    assert rs[1..] == [rs[1], rs[2]];
    assert rs[1..][1..] == [rs[2]];
    assert rs[1..][1..][1..] == [];
    assert Replay(Some(j3), []) == Some(j3);
    assert Replay(Some(j2), [rs[2]]) == Some(j3);
    assert Replay(Some(j1), [rs[1], rs[2]]) == Some(j3);
  }

  /** A failing job records its message and the failure time, and keeps its start time. */
  lemma FailedLifecycle(jobType: string, params: Json, message: string, t0: int, t1: int, t2: int)
    requires message != []
    ensures Replay(None, [Report(jobType, "pending", params, JNull, None, t0),
                          Report(jobType, "running", JNull, JNull, None, t1),
                          Report(jobType, "failed", JNull, JNull, Some(message), t2)])
      == Some(JobRecord(jobType, "failed", t0, Some(t1), Some(t2), Some(message), params, JNull))
  {
    var rs := [Report(jobType, "pending", params, JNull, None, t0),
               Report(jobType, "running", JNull, JNull, None, t1),
               Report(jobType, "failed", JNull, JNull, Some(message), t2)];
    var j1 := JobRecord(jobType, "pending", t0, None, None, None, params, JNull);
    var j2 := JobRecord(jobType, "running", t0, Some(t1), None, None, params, JNull);
    var j3 := JobRecord(jobType, "failed", t0, Some(t1), Some(t2), Some(message), params, JNull);
    assert Reported(None, jobType, "pending", params, JNull, None, t0) == j1;
    assert Reported(Some(j1), jobType, "running", JNull, JNull, None, t1) == j2;
    assert Reported(Some(j2), jobType, "failed", JNull, JNull, Some(message), t2) == j3;
    assert rs[1..] == [rs[1], rs[2]];
    assert rs[1..][1..] == [rs[2]];
    assert rs[1..][1..][1..] == [];
    assert Replay(Some(j3), []) == Some(j3);
    assert Replay(Some(j2), [rs[2]]) == Some(j3);
    assert Replay(Some(j1), [rs[1], rs[2]]) == Some(j3);
  }
}
