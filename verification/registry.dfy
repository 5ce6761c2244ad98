/**
 * The job registry of ph/globals.py: the registered detector jobs, the
 * filter that opts jobs out through `PH_DISABLED_DETECTORS`, and the
 * parameter lookup that lets an environment variable override a job's
 * default and converts the result to the requested type.
 */
module Registry {
  import opened Wrappers
  import opened Text
  import opened Values

  /**
   * A detector job (the `Job` named tuple). `params` are the declared
   * (name, default) pairs in declaration order; `dynamic` is
   * `dynamic_model`, true when the model is trained from live data.
   */
  datatype Job = Job(
    name: string,
    params: seq<(string, Value)>,
    field: string,
    modelName: string,
    dataType: string,
    sourceLog: string,
    groupFields: seq<string>,
    tolerance: real,
    dynamic: bool)

  const L7Latency: Job := Job(
    "l7_latency",
    [("PH_L7Latency_IsolationForest_n_estimators", VInt(100)),
     ("PH_L7Latency_IsolationForest_score_threshold", VFloat(-0.836))],
    "hits.hits._source.duration_mean", "L7LatencyModel", "l7", "l7",
    ["start_time", "dest_name_aggr", "dest_namespace", "dest_service_name", "src_namespace", "src_name_aggr",
     "duration_mean"],
    0.85, true)

  /** `_jobs`. */
  const RegisteredJobs: seq<Job> := [L7Latency]

  // ---- jobs() -------------------------------------------------------------

  /** The jobs whose names are not among `disabled`, in registry order. */
  function Enabled(registry: seq<Job>, disabled: seq<string>): (r: seq<Job>)
    ensures |r| <= |registry|
    decreases |registry|
  {
    if |registry| == 0 then []
    else (if registry[0].name !in disabled then [registry[0]] else []) + Enabled(registry[1..], disabled)
  }

  /** The jobs kept are exactly the registered ones whose name is not disabled. */
  lemma {:induction false} EnabledMembers(registry: seq<Job>, disabled: seq<string>, j: Job)
    ensures j in Enabled(registry, disabled) <==> j in registry && j.name !in disabled
    decreases |registry|
  {
    if |registry| > 0 {
      EnabledMembers(registry[1..], disabled, j);
      assert registry == [registry[0]] + registry[1..];
    }
  }

  /** `jobs()`: the registry minus the names listed, comma-separated, in `PH_DISABLED_DETECTORS`. */
  function Jobs(registry: seq<Job>, env: Env): (r: seq<Job>)
    ensures forall j :: j in r <==> j in registry && j.name !in Split(GetEnv(env, "PH_DISABLED_DETECTORS", ""), ',')
  {
    var disabled := Split(GetEnv(env, "PH_DISABLED_DETECTORS", ""), ',');
    assert forall j :: j in Enabled(registry, disabled) <==> j in registry && j.name !in disabled by {
      forall j ensures j in Enabled(registry, disabled) <==> j in registry && j.name !in disabled {
        EnabledMembers(registry, disabled, j);
      }
    }
    Enabled(registry, disabled)
  }

  /** The filter keeps registry order: extending the registry extends the result or leaves it. */
  lemma {:induction false} EnabledAppend(registry: seq<Job>, j: Job, disabled: seq<string>)
    ensures Enabled(registry + [j], disabled) == Enabled(registry, disabled) + (if j.name !in disabled then [j] else [])
    decreases |registry|
  {
    var l := registry + [j];
    if |registry| == 0 {
      assert l == [j] && l[1..] == [];
    } else {
      assert l[0] == registry[0] && l[1..] == registry[1..] + [j];
      EnabledAppend(registry[1..], j, disabled);
      var h := if registry[0].name !in disabled then [registry[0]] else [];
      assert Enabled(l, disabled) == h + Enabled(registry[1..] + [j], disabled);
      assert Enabled(registry, disabled) == h + Enabled(registry[1..], disabled);
    }
  }

  /**
   * An unset or empty `PH_DISABLED_DETECTORS` splits into the single
   * name "", so every job with a non-empty name stays enabled.
   */
  lemma JobsUnset(registry: seq<Job>, env: Env)
    requires GetEnv(env, "PH_DISABLED_DETECTORS", "") == ""
    requires forall j :: j in registry ==> j.name != ""
    ensures Jobs(registry, env) == registry
  {
    assert Split("", ',') == [""];
    EnabledKeepsAll(registry, [""]);
  }

  lemma {:induction false} EnabledKeepsAll(registry: seq<Job>, disabled: seq<string>)
    requires forall j :: j in registry ==> j.name !in disabled
    ensures Enabled(registry, disabled) == registry
    decreases |registry|
  {
    if |registry| > 0 {
      assert registry[0] in registry;
      EnabledKeepsAll(registry[1..], disabled);
      assert [registry[0]] + registry[1..] == registry;
    }
  }

  /** Disabling "l7_latency" leaves no registered job. */
  lemma DisableL7Latency(env: Env)
    requires GetEnv(env, "PH_DISABLED_DETECTORS", "") == "l7_latency"
    ensures Jobs(RegisteredJobs, env) == []
  {
    SplitNoSeparator("l7_latency", ',');
    assert RegisteredJobs[1..] == [];
  }

  // ---- get_param ------------------------------------------------------------

  /** The `param_type` argument; `get_param` asserts it is one of these four. */
  datatype ParamType = StrType | IntType | FloatType | BoolType

  datatype ParamError = KeyError | ValueError | TypeError | EvalNotModelled

  /** `{job.name: job for job in jobs}[name]`: the last job with that name wins. */
  function JobByName(jobs: seq<Job>, name: string): (r: Option<Job>)
    ensures r.Some? ==> r.value in jobs && r.value.name == name
    ensures r.None? ==> forall j :: j in jobs ==> j.name != name
    decreases |jobs|
  {
    if |jobs| == 0 then None
    else if jobs[|jobs| - 1].name == name then Some(jobs[|jobs| - 1])
    else JobByName(jobs[..|jobs| - 1], name)
  }

  /** The lookup finds the job at `i` when no later job shares its name. */
  lemma {:induction false} JobByNameLast(jobs: seq<Job>, i: int)
    requires 0 <= i < |jobs| && forall m :: i < m < |jobs| ==> jobs[m].name != jobs[i].name
    ensures JobByName(jobs, jobs[i].name) == Some(jobs[i])
    decreases |jobs|
  {
    if i < |jobs| - 1 {
      JobByNameLast(jobs[..|jobs| - 1], i);
    }
  }

  /** `params[name]` on the declared pairs: the last declaration of a name wins. */
  function ParamDefault(params: seq<(string, Value)>, name: string): (r: Option<Value>)
    ensures r.Some? ==> (name, r.value) in params
    ensures r.None? ==> forall p :: p in params ==> p.0 != name
    decreases |params|
  {
    if |params| == 0 then None
    else if params[|params| - 1].0 == name then Some(params[|params| - 1].1)
    else ParamDefault(params[..|params| - 1], name)
  }

  /** Python's `int(x)` on a float: truncation toward zero. */
  function Trunc(x: real): (i: int)
    ensures x >= 0.0 ==> i as real <= x < i as real + 1.0
    ensures x < 0.0 ==> i as real - 1.0 < x <= i as real
  {
    if x >= 0.0 then x.Floor else -((-x).Floor)
  }

  /**
   * The conversion `get_param` applies. `str(v)` renders floats through
   * `floatRepr`; `float(text)` is `parseFloat`; `eval` is modelled for
   * the texts "True" and "False" only.
   */
  function Convert(v: Value, t: ParamType, floatRepr: real -> string, parseFloat: string -> Option<real>): (r: Result<Value, ParamError>)
    ensures r.Err? ==> r.error != KeyError
    ensures r.Ok? ==> match t
      case StrType => r.value.VStr?
      case IntType => r.value.VInt?
      case FloatType => r.value.VFloat? || r.value.VNaN?
      case BoolType => r.value.VBool?
  {
    match t
    case StrType => Ok(VStr(PyStr(v, floatRepr)))
    case IntType =>
      (match v
       case VStr(s) => if PyInt(s).Some? then Ok(VInt(PyInt(s).value)) else Err(ValueError)
       case VInt(i) => Ok(VInt(i))
       case VBool(b) => Ok(VInt(if b then 1 else 0))
       case VFloat(x) => Ok(VInt(Trunc(x)))
       case VNaN => Err(ValueError)
       case VNone => Err(TypeError))
    case FloatType =>
      (match v
       case VStr(s) => if parseFloat(s).Some? then Ok(VFloat(parseFloat(s).value)) else Err(ValueError)
       case VInt(i) => Ok(VFloat(i as real))
       case VBool(b) => Ok(VFloat(if b then 1.0 else 0.0))
       case VFloat(x) => Ok(VFloat(x))
       case VNaN => Ok(VNaN)
       case VNone => Err(TypeError))
    case BoolType =>
      (match v
       case VStr(s) => if s == "True" then Ok(VBool(true)) else if s == "False" then Ok(VBool(false)) else Err(EvalNotModelled)
       case _ => Err(TypeError))
  }

  /**
   * `get_param(job, param_name, param_type)` against the jobs enabled at
   * import time: the environment variable named after the parameter when
   * set, else the job's default, converted.
   */
  function GetParam(jobs: seq<Job>, env: Env, job: string, name: string, t: ParamType,
                    floatRepr: real -> string, parseFloat: string -> Option<real>): (r: Result<Value, ParamError>)
    ensures r == Err(KeyError) <==> JobByName(jobs, job).None? || ParamDefault(JobByName(jobs, job).value.params, name).None?
  {
    match JobByName(jobs, job)
    case None => Err(KeyError)
    case Some(j) =>
      match ParamDefault(j.params, name)
      case None => Err(KeyError)
      case Some(d) => Convert(if name in env then VStr(env[name]) else d, t, floatRepr, parseFloat)
  }

  /** A declared parameter read as text is its override verbatim when one is set. */
  lemma GetParamOverride(jobs: seq<Job>, env: Env, job: string, name: string,
                         floatRepr: real -> string, parseFloat: string -> Option<real>)
    requires JobByName(jobs, job).Some? && ParamDefault(JobByName(jobs, job).value.params, name).Some?
    requires name in env
    ensures GetParam(jobs, env, job, name, StrType, floatRepr, parseFloat) == Ok(VStr(env[name]))
  {
  }

  /** An override written as `str(i)` reads back as the int `i`. */
  lemma GetParamIntRoundTrip(jobs: seq<Job>, env: Env, job: string, name: string, i: int,
                             floatRepr: real -> string, parseFloat: string -> Option<real>)
    requires JobByName(jobs, job).Some? && ParamDefault(JobByName(jobs, job).value.params, name).Some?
    requires name in env && env[name] == IntToString(i)
    ensures GetParam(jobs, env, job, name, IntType, floatRepr, parseFloat) == Ok(VInt(i))
  {
    IntToStringRoundTrip(i);
  }

  /** Without an override the default is used: an int default read as int is itself. */
  lemma GetParamDefault(jobs: seq<Job>, env: Env, job: string, name: string, i: int,
                        floatRepr: real -> string, parseFloat: string -> Option<real>)
    requires JobByName(jobs, job).Some? && ParamDefault(JobByName(jobs, job).value.params, name) == Some(VInt(i))
    requires name !in env
    ensures GetParam(jobs, env, job, name, IntType, floatRepr, parseFloat) == Ok(VInt(i))
  {
  }

  /** With no overrides, `n_estimators` of the l7_latency job is 100 and its threshold -0.836. */
  lemma L7LatencyDefaults(floatRepr: real -> string, parseFloat: string -> Option<real>)
    ensures GetParam(RegisteredJobs, map[], "l7_latency", "PH_L7Latency_IsolationForest_n_estimators", IntType, floatRepr, parseFloat)
            == Ok(VInt(100))
    ensures GetParam(RegisteredJobs, map[], "l7_latency", "PH_L7Latency_IsolationForest_score_threshold", FloatType, floatRepr, parseFloat)
            == Ok(VFloat(-0.836))
  {
    assert JobByName(RegisteredJobs, "l7_latency") == Some(L7Latency);
    var ps := L7Latency.params;
    assert ps[..1] == [ps[0]] && ps[0].0 != ps[1].0;
    assert ParamDefault(ps, "PH_L7Latency_IsolationForest_n_estimators") == Some(VInt(100));
    assert ParamDefault(ps, "PH_L7Latency_IsolationForest_score_threshold") == Some(VFloat(-0.836));
  }
}
