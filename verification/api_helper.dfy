/**
 * The request and response shaping of ph/api_helper.py: alerts turned
 * into API anomalies, the job parameters read and written through the
 * environment, and the request branch of `prepare_samples`, which checks
 * the log name, aggregates flow records and truncates every sample list.
 */
module ApiHelper {
  import opened Wrappers
  import opened Text
  import opened Values
  import opened Registry
  import opened AlertApi
  import opened FlowBuckets
  import opened FlowMerge

  datatype HelperError =
    | IndexError | KeyError | ValueError | AttributeError | ZeroDivisionError
    | LogMismatch(required: string, presented: string)

  // ---- format_alert_to_anomaly ---------------------------------------------

  /** An anomaly as the API reports it. */
  datatype Anomaly = Anomaly(job: string, time: int, description: string, data: Record)

  /** `{k: v if v == v else 0 for k, v in record.items()}`. */
  function CleanData(rec: Record): (r: Record)
    ensures r.Keys == rec.Keys
    ensures forall k :: k in r ==> !r[k].VNaN?
    ensures forall k :: k in rec && SelfEqual(rec[k]) ==> r[k] == rec[k]
    ensures forall k :: k in rec && !SelfEqual(rec[k]) ==> r[k] == VInt(0)
  {
    map k | k in rec :: if SelfEqual(rec[k]) then rec[k] else VInt(0)
  }

  /** Cleaning NaN-free data changes nothing; in particular cleaning is idempotent. */
  lemma CleanDataIdempotent(rec: Record)
    ensures CleanData(CleanData(rec)) == CleanData(rec)
    ensures (forall k :: k in rec ==> SelfEqual(rec[k])) ==> CleanData(rec) == rec
  {
  }

  /** One alert as an anomaly: IndexError when the alert name has no `.`, KeyError without a record. */
  function FormatAlert(a: Alert): (r: Result<Anomaly, HelperError>)
    ensures r.Ok? <==> JobOf(a).Some? && a.record.Some?
    ensures r.Ok? ==> r.value.job == JobOf(a).value && r.value.time == a.time && r.value.description == a.description
    ensures r.Ok? ==> r.value.data == CleanData(a.record.value)
  {
    if JobOf(a).None? then Err(IndexError)
    else if a.record.None? then Err(HelperError.KeyError)
    else Ok(Anomaly(JobOf(a).value, a.time, a.description, CleanData(a.record.value)))
  }

  /** `format_alert_to_anomaly(alerts)`: one anomaly per alert, in order; the first bad alert raises. */
  function FormatAlertsToAnomalies(alerts: seq<Alert>): (r: Result<seq<Anomaly>, HelperError>)
    ensures r.Ok? <==> forall i :: 0 <= i < |alerts| ==> FormatAlert(alerts[i]).Ok?
    ensures r.Ok? ==> |r.value| == |alerts|
    ensures r.Ok? ==> forall i :: 0 <= i < |alerts| ==> r.value[i] == FormatAlert(alerts[i]).value
    ensures r.Err? ==> exists i :: 0 <= i < |alerts| && FormatAlert(alerts[i]) == Err(r.error)
    decreases |alerts|
  {
    if |alerts| == 0 then Ok([])
    else
      match FormatAlert(alerts[0])
      case Err(e) => Err(e)
      case Ok(a) =>
        var rest := FormatAlertsToAnomalies(alerts[1..]);
        assert forall i :: 1 <= i < |alerts| ==> alerts[1..][i - 1] == alerts[i];
        if rest.Err? then Err(rest.error) else Ok([a] + rest.value)
  }

  /** A well-formed batch becomes anomalies of the alerts' jobs, with no NaN left in any data. */
  lemma {:induction false} AnomaliesOfAlerts(alerts: seq<Alert>)
    requires forall i :: 0 <= i < |alerts| ==> JobOf(alerts[i]).Some? && alerts[i].record.Some?
    ensures FormatAlertsToAnomalies(alerts).Ok?
    ensures forall i :: 0 <= i < |alerts| ==>
      var an := FormatAlertsToAnomalies(alerts).value[i];
      an.job == JobOf(alerts[i]).value && an.data.Keys == alerts[i].record.value.Keys
      && forall k :: k in an.data ==> !an.data[k].VNaN?
  {
    var r := FormatAlertsToAnomalies(alerts);
    assert forall i :: 0 <= i < |alerts| ==> FormatAlert(alerts[i]).Ok?;
  }

  // ---- get_envvars / set_envvars --------------------------------------------

  /** A job's parameters as the API shows them. */
  datatype JobParams = JobParams(job: string, params: map<string, Value>)

  /** A job-less, 'all' or unknown job name reports every job; a known one reports that job alone. */
  datatype EnvVarsReply = AllJobs(entries: seq<JobParams>) | OneJob(entry: JobParams)

  /** The names of `jobs`, each once, in order of first appearance (the key order of a dict built from them). */
  function DistinctNames(jobs: seq<Job>): (names: seq<string>)
    ensures forall n :: n in names <==> exists j :: j in jobs && j.name == n
    ensures forall i, k :: 0 <= i < k < |names| ==> names[i] != names[k]
    decreases |jobs|
  {
    if |jobs| == 0 then []
    else
      var front := DistinctNames(jobs[..|jobs| - 1]);
      var last := jobs[|jobs| - 1];
      assert forall j :: j in jobs <==> j in jobs[..|jobs| - 1] || j == last;
      if last.name in front then front else front + [last.name]
  }

  /** `{param: os.getenv(param, val) for param, val in params.items()}`. */
  function ParamsView(params: seq<(string, Value)>, env: Env): (r: map<string, Value>)
    ensures forall p :: p in r <==> ParamDefault(params, p).Some?
    ensures forall p :: p in r && p in env ==> r[p] == VStr(env[p])
    ensures forall p :: p in r && p !in env ==> r[p] == ParamDefault(params, p).value
  {
    map p | p in (set q | q in params :: q.0) :: if p in env then VStr(env[p]) else ParamDefault(params, p).value
  }

  function EntryFor(jobs: seq<Job>, env: Env, name: string): JobParams
    requires JobByName(jobs, name).Some?
  {
    JobParams(name, ParamsView(JobByName(jobs, name).value.params, env))
  }

  /** `get_envvars(job_name, local_jobs)`; the dict built from the jobs keeps the last job of each name. */
  function GetEnvVars(jobs: seq<Job>, env: Env, jobName: Option<string>): (r: EnvVarsReply)
    ensures jobName.None? || jobName.value in {"", "all"} || JobByName(jobs, jobName.value).None? <==> r.AllJobs?
    ensures r.AllJobs? ==> |r.entries| == |DistinctNames(jobs)|
    ensures r.AllJobs? ==> forall e :: e in r.entries <==> exists j :: j in jobs && e == EntryFor(jobs, env, j.name)
    ensures r.OneJob? ==> r.entry.job == jobName.value && r.entry == EntryFor(jobs, env, jobName.value)
  {
    if jobName.None? || jobName.value in {"", "all"} || JobByName(jobs, jobName.value).None? then
      AllJobs(AllEntries(jobs, env))
    else OneJob(EntryFor(jobs, env, jobName.value))
  }

  /** One entry per distinct job name, in the order the names first appear, each the parameters of the last job with that name. */
  function AllEntries(jobs: seq<Job>, env: Env): (r: seq<JobParams>)
    ensures |r| == |DistinctNames(jobs)|
    ensures forall e :: e in r <==> exists j :: j in jobs && e == EntryFor(jobs, env, j.name)
    ensures forall i :: 0 <= i < |r| ==>
      JobByName(jobs, DistinctNames(jobs)[i]).Some? && r[i] == EntryFor(jobs, env, DistinctNames(jobs)[i])
  {
    var names := DistinctNames(jobs);
    assert forall n :: n in names ==> JobByName(jobs, n).Some?;
    var entries := seq(|names|, i requires 0 <= i < |names| => EntryFor(jobs, env, names[i]));
    EntriesAreJobs(jobs, env, entries);
    entries
  }

  /** The entries of the distinct names are exactly the entries of the jobs. */
  lemma EntriesAreJobs(jobs: seq<Job>, env: Env, entries: seq<JobParams>)
    requires |entries| == |DistinctNames(jobs)|
    requires forall i :: 0 <= i < |entries| ==>
      JobByName(jobs, DistinctNames(jobs)[i]).Some? && entries[i] == EntryFor(jobs, env, DistinctNames(jobs)[i])
    ensures forall e :: e in entries <==> exists j :: j in jobs && e == EntryFor(jobs, env, j.name)
  {
    var names := DistinctNames(jobs);
    forall e | e in entries ensures exists j :: j in jobs && e == EntryFor(jobs, env, j.name) {
      var i :| 0 <= i < |names| && entries[i] == e;
      var j :| j in jobs && j.name == names[i];
    }
    forall j | j in jobs ensures EntryFor(jobs, env, j.name) in entries {
      assert j.name in names;
      var i :| 0 <= i < |names| && names[i] == j.name;
      assert entries[i] == EntryFor(jobs, env, j.name);
    }
  }

  /** `set_envvars(rq)`: every given parameter is stored as its text `str(value)`; the last of a repeated name wins. */
  function SetEnvVars(env: Env, params: seq<(string, Value)>, floatRepr: real -> string): (r: Env)
    ensures forall n :: n in r <==> n in env || ParamDefault(params, n).Some?
    ensures forall n :: n in r && ParamDefault(params, n).Some? ==> r[n] == PyStr(ParamDefault(params, n).value, floatRepr)
    ensures forall n :: n in env && ParamDefault(params, n).None? ==> r[n] == env[n]
    decreases |params|
  {
    if |params| == 0 then env
    else
      var front := params[..|params| - 1];
      var last := params[|params| - 1];
      SetEnvVars(env, front, floatRepr)[last.0 := PyStr(last.1, floatRepr)]
  }

  /** After a parameter is set, reading the job's parameters reports it as the text that was stored. */
  lemma SetThenGet(jobs: seq<Job>, env: Env, job: string, p: string, v: Value, floatRepr: real -> string)
    requires JobByName(jobs, job).Some? && job != "" && job != "all"
    requires ParamDefault(JobByName(jobs, job).value.params, p).Some?
    ensures GetEnvVars(jobs, SetEnvVars(env, [(p, v)], floatRepr), Some(job)).entry.params[p] == VStr(PyStr(v, floatRepr))
  {
    var env2 := SetEnvVars(env, [(p, v)], floatRepr);
    assert ParamDefault([(p, v)], p) == Some(v);
  }

  /** The parameter round trip of the API tests: setting l7_latency's n_estimators to "200" reads back "200". */
  lemma SetThenGetL7Latency(env: Env, floatRepr: real -> string)
    ensures
      var r := GetEnvVars(RegisteredJobs, SetEnvVars(env, [("PH_L7Latency_IsolationForest_n_estimators", VStr("200"))], floatRepr),
                          Some("l7_latency"));
      r.OneJob? && "PH_L7Latency_IsolationForest_n_estimators" in r.entry.params
      && r.entry.params["PH_L7Latency_IsolationForest_n_estimators"] == VStr("200")
  {
    assert JobByName(RegisteredJobs, "l7_latency") == Some(L7Latency);
    var ps := L7Latency.params;
    assert ps[..1] == [ps[0]] && ps[0].0 != ps[1].0;
    assert ParamDefault(ps, "PH_L7Latency_IsolationForest_n_estimators") == Some(VInt(100));
    SetThenGet(RegisteredJobs, env, "l7_latency", "PH_L7Latency_IsolationForest_n_estimators", VStr("200"), floatRepr);
  }

  // ---- prepare_samples, request branch --------------------------------------

  /** The records of one log carried by a request. */
  datatype LogData = LogData(logName: string, records: seq<Record>)

  /** The request fields read here; `data` is None when absent or when it is a time interval. */
  datatype Request = Request(job: string, maxLogRecords: Option<int>, data: Option<LogData>)

  /** A sample list of one data type. */
  datatype SampleList = Raw(records: seq<Record>) | Sources(sources: seq<SourceRow>) | Dests(dests: seq<DestRow>)

  function Length(s: SampleList): nat {
    match s
    case Raw(r) => |r|
    case Sources(r) => |r|
    case Dests(r) => |r|
  }

  /** Python's `xs[:k]`: a negative `k` counts from the end. */
  function PyTake<T>(xs: seq<T>, k: int): (r: seq<T>)
    ensures |r| <= |xs| && r == xs[..|r|]
    ensures k >= 0 ==> |r| == if k < |xs| then k else |xs|
    ensures k < 0 ==> |r| == if |xs| + k > 0 then |xs| + k else 0
  {
    if k >= 0 then (if k < |xs| then xs[..k] else xs)
    else if |xs| + k > 0 then xs[..|xs| + k] else []
  }

  function Truncate(s: SampleList, k: int): (r: SampleList)
    ensures k >= 0 ==> Length(r) <= k
    ensures Length(r) <= Length(s)
  {
    match s
    case Raw(x) => Raw(PyTake(x, k))
    case Sources(x) => Sources(PyTake(x, k))
    case Dests(x) => Dests(PyTake(x, k))
  }

  /** The `PH_max_docs` default of the helpers. */
  const DefaultMaxDocs: int := 500000

  /** `max_log_records` when truthy, else `int(os.getenv('PH_max_docs', 500000))`. */
  function MaxDocs(rq: Request, env: Env): (r: Result<int, HelperError>)
    ensures rq.maxLogRecords.Some? && rq.maxLogRecords.value != 0 ==> r == Ok(rq.maxLogRecords.value)
    ensures (rq.maxLogRecords.None? || rq.maxLogRecords.value == 0) && "PH_max_docs" !in env ==> r == Ok(DefaultMaxDocs)
    ensures r.Err? ==> r.error == HelperError.ValueError && "PH_max_docs" in env && PyInt(env["PH_max_docs"]).None?
  {
    if rq.maxLogRecords.Some? && rq.maxLogRecords.value != 0 then Ok(rq.maxLogRecords.value)
    else if "PH_max_docs" !in env then Ok(DefaultMaxDocs)
    else if PyInt(env["PH_max_docs"]).Some? then Ok(PyInt(env["PH_max_docs"]).value)
    else Err(HelperError.ValueError)
  }

  /** `[j for j in local_jobs if j.name == name][0]`: the first job with that name. */
  function FirstJob(jobs: seq<Job>, name: string): (r: Option<Job>)
    ensures r.Some? ==> r.value in jobs && r.value.name == name
    ensures r.None? ==> forall j :: j in jobs ==> j.name != name
    decreases |jobs|
  {
    if |jobs| == 0 then None
    else if jobs[0].name == name then Some(jobs[0])
    else FirstJob(jobs[1..], name)
  }

  /** An error of the flow aggregation, as the request sees it. */
  function FlowFailure(e: FlowError): HelperError {
    match e
    case ZeroDivisionError => HelperError.ZeroDivisionError
    case ValueError => HelperError.ValueError
  }

  /** The sample lists the request's records give before truncation. */
  function RequestLists(dataType: string, records: seq<Record>, toFlow: Record -> FlowRecord, bucketSizeMinutes: int)
    : (r: Result<map<string, SampleList>, HelperError>)
    ensures dataType in {"source", "dest"} ==>
      (r.Err? <==> |records| > 0 && bucketSizeMinutes <= 0)
    ensures dataType in {"source", "dest"} && r.Err? ==>
      r.error == (if bucketSizeMinutes == 0 then HelperError.ZeroDivisionError else HelperError.ValueError)
    ensures dataType in {"source", "dest"} && r.Ok? ==>
      r.value.Keys == {"source", "dest"} && r.value["source"].Sources? && r.value["dest"].Dests?
    ensures dataType !in {"source", "dest"} ==> r == Ok(map[dataType := Raw(records)])
  {
    if dataType in {"source", "dest"} then FlowLists(records, toFlow, bucketSizeMinutes)
    else Ok(map[dataType := Raw(records)])
  }

  /** The request's records read as flow documents. */
  function Flows(records: seq<Record>, toFlow: Record -> FlowRecord): (r: seq<FlowRecord>)
    ensures |r| == |records|
    ensures forall i :: 0 <= i < |r| ==> r[i] == toFlow(records[i])
  {
    seq(|records|, i requires 0 <= i < |records| => toFlow(records[i]))
  }

  /** `aggregate_samples` on the request's records: both the source and the destination rows. */
  function FlowLists(records: seq<Record>, toFlow: Record -> FlowRecord, bucketSizeMinutes: int)
    : (r: Result<map<string, SampleList>, HelperError>)
    ensures r.Err? <==> |records| > 0 && bucketSizeMinutes <= 0
    ensures r.Err? ==> r.error == (if bucketSizeMinutes == 0 then HelperError.ZeroDivisionError else HelperError.ValueError)
    ensures r.Ok? ==> r.value.Keys == {"source", "dest"} && r.value["source"].Sources? && r.value["dest"].Dests?
    ensures r.Ok? ==>
      && r.value["source"] == Sources(AggregateSamples(Flows(records, toFlow), bucketSizeMinutes).value.0)
      && r.value["dest"] == Dests(AggregateSamples(Flows(records, toFlow), bucketSizeMinutes).value.1)
  {
    var docs := Flows(records, toFlow);
    assert |docs| == |records|;
    match AggregateSamples(docs, bucketSizeMinutes)
    case Err(e) => Err(FlowFailure(e))
    case Ok(agg) => Ok(BothLists(agg.0, agg.1))
  }

  /** The two lists `aggregate_samples` gives, under their data types. */
  function BothLists(src: seq<SourceRow>, dst: seq<DestRow>): (r: map<string, SampleList>)
    ensures r.Keys == {"source", "dest"}
    ensures r["source"] == Sources(src) && r["dest"] == Dests(dst)
  {
    assert "source"[0] != "dest"[0];
    map["source" := Sources(src), "dest" := Dests(dst)]
  }

  /**
   * `prepare_samples` for the `request` data source. The flow-derived
   * types go through `aggregate_samples` (both lists come back whichever
   * of the two the job needs); every list is cut to `max_docs`.
   */
  function PrepareRequestSamples(rq: Request, jobs: seq<Job>, env: Env, toFlow: Record -> FlowRecord, bucketSizeMinutes: int)
    : (r: Result<map<string, SampleList>, HelperError>)
    ensures MaxDocs(rq, env).Err? ==> r == Err(HelperError.ValueError)
    ensures MaxDocs(rq, env).Ok? && FirstJob(jobs, rq.job).None? ==> r == Err(IndexError)
    ensures MaxDocs(rq, env).Ok? && FirstJob(jobs, rq.job).Some? && rq.data.None? ==> r == Err(AttributeError)
    ensures MaxDocs(rq, env).Ok? && FirstJob(jobs, rq.job).Some? && rq.data.Some? ==>
      var job := FirstJob(jobs, rq.job).value;
      && (rq.data.value.logName != job.sourceLog ==> r == Err(LogMismatch(job.sourceLog, rq.data.value.logName)))
      && (rq.data.value.logName == job.sourceLog ==>
            var lists := RequestLists(job.dataType, rq.data.value.records, toFlow, bucketSizeMinutes);
            && (lists.Err? ==> r == Err(lists.error))
            && (lists.Ok? ==>
                  && r.Ok? && r.value.Keys == lists.value.Keys
                  && forall t :: t in r.value ==> r.value[t] == Truncate(lists.value[t], MaxDocs(rq, env).value)))
  {
    match MaxDocs(rq, env)
    case Err(e) => Err(e)
    case Ok(maxDocs) =>
      match FirstJob(jobs, rq.job)
      case None => Err(IndexError)
      case Some(job) =>
        if rq.data.None? then Err(AttributeError)
        else if job.sourceLog != rq.data.value.logName then Err(LogMismatch(job.sourceLog, rq.data.value.logName))
        else
          match RequestLists(job.dataType, rq.data.value.records, toFlow, bucketSizeMinutes)
          case Err(e) => Err(e)
          case Ok(lists) => Ok(map t | t in lists :: Truncate(lists[t], maxDocs))
  }

  /** With a non-negative cap every prepared list holds at most that many samples, whichever cap applies. */
  lemma PreparedWithinCap(rq: Request, jobs: seq<Job>, env: Env, toFlow: Record -> FlowRecord, bucketSizeMinutes: int)
    requires PrepareRequestSamples(rq, jobs, env, toFlow, bucketSizeMinutes).Ok?
    requires MaxDocs(rq, env).value >= 0
    ensures forall t :: t in PrepareRequestSamples(rq, jobs, env, toFlow, bucketSizeMinutes).value ==>
      Length(PrepareRequestSamples(rq, jobs, env, toFlow, bucketSizeMinutes).value[t]) <= MaxDocs(rq, env).value
  {
  }

  /** A request whose records fit under `max_log_records` keeps all of them, for a job of a raw data type. */
  lemma RawRequestKeepsAll(rq: Request, jobs: seq<Job>, env: Env, toFlow: Record -> FlowRecord, bucketSizeMinutes: int)
    requires rq.maxLogRecords.Some? && rq.data.Some? && 0 < |rq.data.value.records| <= rq.maxLogRecords.value
    requires FirstJob(jobs, rq.job).Some? && FirstJob(jobs, rq.job).value.sourceLog == rq.data.value.logName
    requires FirstJob(jobs, rq.job).value.dataType !in {"source", "dest"}
    ensures PrepareRequestSamples(rq, jobs, env, toFlow, bucketSizeMinutes)
            == Ok(map[FirstJob(jobs, rq.job).value.dataType := Raw(rq.data.value.records)])
  {
    var job := FirstJob(jobs, rq.job).value;
    var records := rq.data.value.records;
    var lists := RequestLists(job.dataType, records, toFlow, bucketSizeMinutes).value;
    assert lists == map[job.dataType := Raw(records)];
    assert PyTake(records, rq.maxLogRecords.value) == records;
    assert Truncate(Raw(records), rq.maxLogRecords.value) == Raw(records);
    assert (map t | t in lists :: Truncate(lists[t], rq.maxLogRecords.value)) == map[job.dataType := Raw(records)];
  }
}
