/**
 * The model lifecycle of ph/model_processor.py: the artifact store that
 * keeps one (model, aggregators) pair per job, fail-soft training and
 * detection of one job, the correlation filter `aggregate_byte_anomalies`,
 * and the control flow of a training cycle and a detection cycle,
 * including the checkpoint that chains detection windows.
 *
 * Models and aggregators are opaque type parameters. A job's training
 * (`trainer`) and its detector (`finder`) are functions that either
 * produce a result or raise; data loading is a parameter too, so a cycle
 * is a pure function of its inputs. The model files are a map.
 */
module ModelProcessor {
  import opened Wrappers
  import opened Text
  import opened Values
  import opened Registry
  import opened AlertApi
  import Checkpoint

  // ---- the artifact store ---------------------------------------------------

  /** What `_save_model` writes: the model and the aggregators, either possibly None. */
  datatype Artifact<M, A> = Artifact(model: Option<M>, aggregators: Option<A>)

  type ArtifactStore<M, A> = map<string, Artifact<M, A>>

  /** `_save_model(model, aggregators, job)`: the job's file is replaced. */
  function SaveModel<M, A>(store: ArtifactStore<M, A>, job: string, model: Option<M>, aggregators: Option<A>)
    : (s: ArtifactStore<M, A>)
    ensures s.Keys == store.Keys + {job}
    ensures forall k :: k in store && k != job ==> s[k] == store[k]
  {
    store[job := Artifact(model, aggregators)]
  }

  /** `_load_model(job)`: the saved pair, or (None, None) when the job was never saved. */
  function LoadModel<M, A>(store: ArtifactStore<M, A>, job: string): (a: Artifact<M, A>)
    ensures job !in store ==> a == Artifact(None, None)
    ensures job in store ==> a == store[job]
  {
    if job in store then store[job] else Artifact(None, None)
  }

  /** Loading returns what was saved last for that job, and saving one job leaves the others' loads alone. */
  lemma LoadAfterSave<M, A>(store: ArtifactStore<M, A>, job: string, other: string, model: Option<M>, aggregators: Option<A>)
    ensures LoadModel(SaveModel(store, job, model, aggregators), job) == Artifact(model, aggregators)
    ensures other != job ==> LoadModel(SaveModel(store, job, model, aggregators), other) == LoadModel(store, other)
  {
  }

  // ---- train_job / detect ---------------------------------------------------

  /** Training one job on its samples: a (model, aggregators) pair, or the exception's message. */
  type Trainer<M, A> = (string, seq<Record>) -> Result<(Option<M>, Option<A>), string>

  /** A job's detector run with a model, samples and aggregators: alerts, or the exception's message. */
  type Finder<!M, !A> = (string, Option<M>, seq<Record>, Option<A>) -> Result<seq<Alert>, string>

  /**
   * `train_job(job, samples)`: a successful training is saved, even with
   * no model; a failing one is logged and leaves the store as it was.
   */
  function TrainJob<M, A>(store: ArtifactStore<M, A>, job: string, samples: seq<Record>, trainer: Trainer<M, A>)
    : (s: ArtifactStore<M, A>)
    ensures trainer(job, samples).Ok? ==> LoadModel(s, job) == Artifact(trainer(job, samples).value.0, trainer(job, samples).value.1)
    ensures trainer(job, samples).Err? ==> s == store
    ensures forall k :: k != job ==> LoadModel(s, k) == LoadModel(store, k)
  {
    match trainer(job, samples)
    case Ok(pair) => SaveModel(store, job, pair.0, pair.1)
    case Err(_) => store
  }

  /**
   * `detect(job, samples)`: a dynamic job reloads its model and finds
   * nothing when there is none; a static job runs without the store; an
   * unknown job or any exception gives no alerts.
   */
  function Detect<M, A>(store: ArtifactStore<M, A>, jobs: seq<Job>, job: string, samples: seq<Record>, finder: Finder<M, A>)
    : (r: seq<Alert>)
    ensures JobByName(jobs, job).None? ==> r == []
    ensures JobByName(jobs, job).Some? && JobByName(jobs, job).value.dynamic && LoadModel(store, job).model.None? ==> r == []
    ensures JobByName(jobs, job).Some? && !JobByName(jobs, job).value.dynamic ==>
      r == finder(job, None, samples, None).GetOrDefault([])
  {
    match JobByName(jobs, job)
    case None => []
    case Some(j) =>
      if j.dynamic then
        var art := LoadModel(store, job);
        if art.model.None? then [] else finder(job, art.model, samples, art.aggregators).GetOrDefault([])
      else finder(job, None, samples, None).GetOrDefault([])
  }

  /** A static job's alerts do not depend on the model files. */
  lemma DetectStaticIgnoresStore<M, A>(s1: ArtifactStore<M, A>, s2: ArtifactStore<M, A>, jobs: seq<Job>, job: string,
                                       samples: seq<Record>, finder: Finder<M, A>)
    requires JobByName(jobs, job).Some? && !JobByName(jobs, job).value.dynamic
    ensures Detect(s1, jobs, job, samples, finder) == Detect(s2, jobs, job, samples, finder)
  {
  }

  /** A dynamic job detects with what its last successful training saved; a failing detector yields nothing. */
  lemma DetectAfterTrain<M, A>(store: ArtifactStore<M, A>, jobs: seq<Job>, job: string, train: seq<Record>, samples: seq<Record>,
                               trainer: Trainer<M, A>, finder: Finder<M, A>)
    requires JobByName(jobs, job).Some? && JobByName(jobs, job).value.dynamic
    requires trainer(job, train).Ok? && trainer(job, train).value.0.Some?
    ensures
      var pair := trainer(job, train).value;
      Detect(TrainJob(store, job, train, trainer), jobs, job, samples, finder) == finder(job, pair.0, samples, pair.1).GetOrDefault([])
  {
  }

  // ---- aggregate_byte_anomalies ---------------------------------------------

  datatype CycleError =
    | IndexError            // an alert name without '.'
    | KeyError              // a missing record, field, or samples entry
    | TypeError             // a comparison Python refuses
    | ValueError            // a time text that does not parse
    | LoadFailed(connection: bool, message: string)   // data loading raised; `connection` for a ConnectionError

  /** The `process_bytes` records by start time, in first-insertion order (a Python dict). */
  type StartIndex = seq<(Value, Record)>

  ghost predicate DistinctStarts(d: StartIndex) {
    forall i, j :: 0 <= i < j < |d| ==> d[i].0 != d[j].0
  }

  function Lookup(d: StartIndex, k: Value): Option<Record> {
    if |d| == 0 then None else if d[0].0 == k then Some(d[0].1) else Lookup(d[1..], k)
  }

  /** `d[k] = v`: an existing key keeps its position and takes the new value; a new key goes last. */
  function Put(d: StartIndex, k: Value, v: Record): (r: StartIndex)
    ensures Lookup(r, k) == Some(v)
    ensures forall k' :: k' != k ==> Lookup(r, k') == Lookup(d, k')
    ensures |r| == |d| || |r| == |d| + 1
    decreases |d|
  {
    if |d| == 0 then [(k, v)]
    else if d[0].0 == k then [(k, v)] + d[1..]
    else [d[0]] + Put(d[1..], k, v)
  }

  /** Every entry after `d[k] = v` is the new one or was already in `d`. */
  lemma {:induction false} PutFrom(d: StartIndex, k: Value, v: Record)
    ensures forall i :: 0 <= i < |Put(d, k, v)| ==> Put(d, k, v)[i] == (k, v) || Put(d, k, v)[i] in d
    decreases |d|
  {
    if |d| > 0 && d[0].0 != k {
      PutFrom(d[1..], k, v);
      var r := Put(d, k, v);
      var rest := Put(d[1..], k, v);
      assert r == [d[0]] + rest;
      forall i | 0 < i < |r| ensures r[i] == (k, v) || r[i] in d {
        assert r[i] == rest[i - 1];
        if rest[i - 1] in d[1..] {
          var m :| 0 <= m < |d[1..]| && d[1..][m] == rest[i - 1];
          assert d[m + 1] == rest[i - 1];
        }
      }
    } else if |d| > 0 {
      var r := Put(d, k, v);
      forall i | 0 < i < |r| ensures r[i] in d {
        assert r[i] == d[i];
      }
    }
  }

  /** `d[k] = v` keeps the start times distinct. */
  lemma {:induction false} PutDistinct(d: StartIndex, k: Value, v: Record)
    requires DistinctStarts(d)
    ensures DistinctStarts(Put(d, k, v))
    decreases |d|
  {
    var r := Put(d, k, v);
    if |d| > 0 && d[0].0 != k {
      var rest := Put(d[1..], k, v);
      assert DistinctStarts(d[1..]) by {
        forall i, j | 0 <= i < j < |d[1..]| ensures d[1..][i].0 != d[1..][j].0 {
          assert d[1..][i] == d[i + 1] && d[1..][j] == d[j + 1];
        }
      }
      PutDistinct(d[1..], k, v);
      PutFrom(d[1..], k, v);
      assert r == [d[0]] + rest;
      forall i, j | 0 <= i < j < |r| ensures r[i].0 != r[j].0 {
        assert r[j] == rest[j - 1];
        if i > 0 {
          assert r[i] == rest[i - 1];
        } else if rest[j - 1] != (k, v) {
          var m :| 0 <= m < |d[1..]| && d[1..][m] == rest[j - 1];
          assert d[m + 1] == rest[j - 1];
        }
      }
    } else if |d| > 0 {
      forall i, j | 0 <= i < j < |r| ensures r[i].0 != r[j].0 {
        assert r[j] == d[j];
        if i > 0 { assert r[i] == d[i]; }
      }
    }
  }

  /** The first loop: every `process_bytes` record indexed by its start time, a later one overwriting an earlier. */
  function ProcessBytesIndex(anomalies: seq<Alert>): (r: Result<StartIndex, CycleError>)
    ensures r.Ok? ==> DistinctStarts(r.value)
    ensures r.Ok? <==> forall i :: 0 <= i < |anomalies| ==> IndexableAlert(anomalies[i])
    decreases |anomalies|
  {
    if |anomalies| == 0 then Ok([])
    else
      var front := anomalies[..|anomalies| - 1];
      var a := anomalies[|anomalies| - 1];
      assert forall i :: 0 <= i < |front| ==> front[i] == anomalies[i];
      match ProcessBytesIndex(front)
      case Err(e) => Err(e)
      case Ok(d) =>
        if JobOf(a).None? then Err(CycleError.IndexError)
        else if a.record.None? then Err(CycleError.KeyError)
        else if JobOf(a).value != "process_bytes" then Ok(d)
        else if "start_time" !in a.record.value then Err(CycleError.KeyError)
        else
          PutDistinct(d, a.record.value["start_time"], a.record.value);
          Ok(Put(d, a.record.value["start_time"], a.record.value))
  }

  /** An alert the first loop accepts: a job name, a record, and a start time when it is a process_bytes alert. */
  predicate IndexableAlert(a: Alert) {
    JobOf(a).Some? && a.record.Some? && (JobOf(a).value == "process_bytes" ==> "start_time" in a.record.value)
  }

  /** A later process_bytes record with the same start time replaces an earlier one. */
  lemma LaterProcessBytesWins(anomalies: seq<Alert>, a: Alert)
    requires ProcessBytesIndex(anomalies).Ok? && IndexableAlert(a)
    requires JobOf(a) == Some("process_bytes")
    ensures ProcessBytesIndex(anomalies + [a]).Ok?
    ensures Lookup(ProcessBytesIndex(anomalies + [a]).value, a.record.value["start_time"]) == Some(a.record.value)
  {
    assert (anomalies + [a])[..|anomalies|] == anomalies;
  }

  /** Python's ordering of a start-time key against a numeric timestamp. */
  datatype Comparable = Number(x: real) | NotANumber | Incomparable

  function AsNumber(v: Value): Comparable {
    match v
    case VInt(i) => Number(i as real)
    case VFloat(x) => Number(x)
    case VBool(b) => Number(if b then 1.0 else 0.0)
    case VNaN => NotANumber
    case _ => Incomparable
  }

  /** `strptime(rec[field], '%Y-%m-%d %H:%M:%S').timestamp()`; `parse` is that format's parser. */
  function TimeOf(rec: Record, field: string, parse: string -> Option<int>): (r: Result<int, CycleError>)
    ensures r.Ok? ==> field in rec && rec[field].VStr? && parse(rec[field].s) == Some(r.value)
  {
    if field !in rec then Err(CycleError.KeyError)
    else if !rec[field].VStr? then Err(CycleError.TypeError)
    else if parse(rec[field].s).None? then Err(CycleError.ValueError)
    else Ok(parse(rec[field].s).value)
  }

  predicate InInterval(k: Value, lo: int, hi: int) {
    AsNumber(k).Number? && lo as real <= AsNumber(k).x < hi as real
  }

  /** The start key `k` lies in the record's interval; both ends parse. */
  predicate Hits(k: Value, rec: Record, parse: string -> Option<int>) {
    TimeOf(rec, "start_time", parse).Ok? && TimeOf(rec, "end_time", parse).Ok?
    && InInterval(k, TimeOf(rec, "start_time", parse).value, TimeOf(rec, "end_time", parse).value)
  }

  /**
   * The chained comparison `start <= k < end` is false for `k` without
   * raising: `k` is NaN, below the start (the end is then never parsed),
   * or not below a parsable end.
   */
  predicate Misses(k: Value, rec: Record, parse: string -> Option<int>) {
    TimeOf(rec, "start_time", parse).Ok?
    && (AsNumber(k).NotANumber?
        || (AsNumber(k).Number?
            && (AsNumber(k).x < TimeOf(rec, "start_time", parse).value as real
                || (TimeOf(rec, "end_time", parse).Ok? && AsNumber(k).x >= TimeOf(rec, "end_time", parse).value as real))))
  }

  /**
   * `element_in_interval(rec, index)`: the record of the first start time
   * k, in insertion order, with start <= k < end. Each entry looked at
   * parses the start again, and the end only once the start is not
   * above k; an empty index parses nothing.
   */
  function ElementInInterval(rec: Record, d: StartIndex, parse: string -> Option<int>): (r: Result<Option<Record>, CycleError>)
    ensures |d| == 0 ==> r == Ok(None)
    ensures r.Ok? && r.value.Some? ==>
      exists i :: 0 <= i < |d| && d[i].1 == r.value.value && Hits(d[i].0, rec, parse)
        && forall j :: 0 <= j < i ==> Misses(d[j].0, rec, parse)
    ensures r.Ok? && r.value.None? ==> forall i :: 0 <= i < |d| ==> Misses(d[i].0, rec, parse)
    decreases |d|
  {
    if |d| == 0 then Ok(None)
    else
      match TimeOf(rec, "start_time", parse)
      case Err(e) => Err(e)
      case Ok(lo) =>
        match AsNumber(d[0].0)
        case Incomparable => Err(CycleError.TypeError)
        case NotANumber => ElementInIntervalTail(rec, d, parse)
        case Number(k) =>
          if k < lo as real then ElementInIntervalTail(rec, d, parse)
          else
            match TimeOf(rec, "end_time", parse)
            case Err(e) => Err(e)
            case Ok(hi) =>
              if k < hi as real then Ok(Some(d[0].1)) else ElementInIntervalTail(rec, d, parse)
  }

  /** The rest of the scan once the first entry missed. */
  function ElementInIntervalTail(rec: Record, d: StartIndex, parse: string -> Option<int>)
    : (r: Result<Option<Record>, CycleError>)
    requires |d| > 0 && Misses(d[0].0, rec, parse)
    ensures r.Ok? && r.value.Some? ==>
      exists i :: 0 <= i < |d| && d[i].1 == r.value.value && Hits(d[i].0, rec, parse)
        && forall j :: 0 <= j < i ==> Misses(d[j].0, rec, parse)
    ensures r.Ok? && r.value.None? ==> forall i :: 0 <= i < |d| ==> Misses(d[i].0, rec, parse)
    decreases |d|, 0
  {
    var r := ElementInInterval(rec, d[1..], parse);
    assert r.Ok? && r.value.Some? ==>
      exists i :: 0 <= i < |d| && d[i].1 == r.value.value && Hits(d[i].0, rec, parse)
        && forall j :: 0 <= j < i ==> Misses(d[j].0, rec, parse) by {
      if r.Ok? && r.value.Some? {
        var i :| 0 <= i < |d[1..]| && d[1..][i].1 == r.value.value && Hits(d[1..][i].0, rec, parse)
          && forall j :: 0 <= j < i ==> Misses(d[1..][j].0, rec, parse);
        assert d[i + 1] == d[1..][i];
        assert forall j :: 1 <= j < i + 1 ==> d[j] == d[1..][j - 1];
      }
    }
    assert r.Ok? && r.value.None? ==> forall i :: 0 <= i < |d| ==> Misses(d[i].0, rec, parse) by {
      if r.Ok? && r.value.None? && |d| > 1 {
        assert forall i :: 1 <= i < |d| ==> d[i] == d[1..][i - 1];
      }
    }
    r
  }

  predicate IsBytesJob(job: string) { job == "bytes_in" || job == "bytes_out" }

  /** An alert that passes the filter untouched: its job is none of the three byte jobs. */
  predicate PassesThrough(a: Alert) {
    JobOf(a).Some? && !IsBytesJob(JobOf(a).value) && JobOf(a).value != "process_bytes"
  }

  /**
   * The second loop for one alert: a bytes_in/bytes_out alert is kept,
   * with the matching process_bytes record and a new description, only
   * when some process_bytes start falls in its interval; process_bytes
   * alerts are dropped; all others pass unchanged.
   */
  function Rewrite(a: Alert, d: StartIndex, parse: string -> Option<int>, describe: (string, Record) -> string)
    : (r: Result<seq<Alert>, CycleError>)
    ensures r.Ok? ==> |r.value| <= 1
    ensures r.Ok? && PassesThrough(a) ==> r.value == [a]
    ensures r.Ok? && JobOf(a) == Some("process_bytes") ==> r.value == []
    ensures r.Ok? ==> forall x :: x in r.value ==> JobOf(x) == JobOf(a) && x.time == a.time
  {
    if a.record.None? then Err(CycleError.KeyError)
    else if JobOf(a).None? then Err(CycleError.IndexError)
    else
      var job := JobOf(a).value;
      var rec := a.record.value;
      if IsBytesJob(job) then
        match TimeOf(rec, "start_time", parse)
        case Err(e) => Err(e)
        case Ok(_) =>
          match ElementInInterval(rec, d, parse)
          case Err(e) => Err(e)
          case Ok(found) =>
            if found.Some? && found.value != map[] then Ok([a.(description := describe(job, found.value), record := Some(found.value))])
            else Ok([])
      else if job == "process_bytes" then Ok([])
      else Ok([a])
  }

  function RewriteAll(anomalies: seq<Alert>, d: StartIndex, parse: string -> Option<int>, describe: (string, Record) -> string)
    : (r: Result<seq<Alert>, CycleError>)
    ensures r.Ok? ==> |r.value| <= |anomalies|
    ensures r.Ok? ==> forall x :: x in r.value ==> JobOf(x).Some? && JobOf(x).value != "process_bytes"
    decreases |anomalies|
  {
    if |anomalies| == 0 then Ok([])
    else
      match Rewrite(anomalies[0], d, parse, describe)
      case Err(e) => Err(e)
      case Ok(head) =>
        match RewriteAll(anomalies[1..], d, parse, describe)
        case Err(e) => Err(e)
        case Ok(tail) => Ok(head + tail)
  }

  /** The second loop keeps every pass-through alert, in order, and adds none. */
  lemma {:induction false} RewriteAllPassing(anomalies: seq<Alert>, d: StartIndex, parse: string -> Option<int>,
                                             describe: (string, Record) -> string)
    requires RewriteAll(anomalies, d, parse, describe).Ok?
    ensures PassingOnes(RewriteAll(anomalies, d, parse, describe).value) == PassingOnes(anomalies)
    decreases |anomalies|
  {
    if |anomalies| > 0 {
      var head := Rewrite(anomalies[0], d, parse, describe).value;
      var tail := RewriteAll(anomalies[1..], d, parse, describe).value;
      RewriteAllPassing(anomalies[1..], d, parse, describe);
      assert RewriteAll(anomalies, d, parse, describe).value == head + tail;
      PassingOnesConcat(head, tail);
      assert anomalies == [anomalies[0]] + anomalies[1..];
      PassingOnesConcat([anomalies[0]], anomalies[1..]);
      assert PassingOnes(head) == PassingOnes([anomalies[0]]) by {
        if PassesThrough(anomalies[0]) {
        } else if |head| == 1 {
          assert JobOf(head[0]) == JobOf(anomalies[0]);
          assert PassingOnes([head[0]]) == [] && PassingOnes([anomalies[0]]) == [];
        }
      }
    }
  }

  /** The alerts of `s` that pass through, in order. */
  function PassingOnes(s: seq<Alert>): seq<Alert>
    decreases |s|
  {
    if |s| == 0 then [] else (if PassesThrough(s[0]) then [s[0]] else []) + PassingOnes(s[1..])
  }

  lemma {:induction false} PassingOnesConcat(a: seq<Alert>, b: seq<Alert>)
    ensures PassingOnes(a + b) == PassingOnes(a) + PassingOnes(b)
    decreases |a|
  {
    if |a| > 0 {
      assert (a + b)[0] == a[0] && (a + b)[1..] == a[1..] + b;
      PassingOnesConcat(a[1..], b);
      var h := if PassesThrough(a[0]) then [a[0]] else [];
      assert PassingOnes(a + b) == h + PassingOnes(a[1..] + b);
      assert PassingOnes(a) == h + PassingOnes(a[1..]);
    } else {
      assert a + b == b;
    }
  }

  /**
   * `aggregate_byte_anomalies(anomalies)`: process_bytes alerts are dropped,
   * other jobs' alerts pass unchanged and in order, and a bytes alert
   * survives only next to a process_bytes anomaly of its interval.
   */
  function AggregateByteAnomalies(anomalies: seq<Alert>, parse: string -> Option<int>, describe: (string, Record) -> string)
    : (r: Result<seq<Alert>, CycleError>)
    ensures r.Ok? ==> |r.value| <= |anomalies|
    ensures r.Ok? ==> forall x :: x in r.value ==> JobOf(x).Some? && JobOf(x).value != "process_bytes"
    ensures r.Ok? ==> PassingOnes(r.value) == PassingOnes(anomalies)
  {
    match ProcessBytesIndex(anomalies)
    case Err(e) => Err(e)
    case Ok(d) =>
      var r := RewriteAll(anomalies, d, parse, describe);
      if r.Ok? then RewriteAllPassing(anomalies, d, parse, describe); r else r
  }

  /**
   * A bytes alert with a parsable interval is kept exactly when some
   * indexed process_bytes start lies in it, and then carries the first
   * such record.
   */
  lemma BytesAlertKeptIff(a: Alert, d: StartIndex, parse: string -> Option<int>, describe: (string, Record) -> string)
    requires a.record.Some? && JobOf(a).Some? && IsBytesJob(JobOf(a).value) && |d| > 0
    requires TimeOf(a.record.value, "start_time", parse).Ok? && TimeOf(a.record.value, "end_time", parse).Ok?
    requires forall i :: 0 <= i < |d| ==> !AsNumber(d[i].0).Incomparable? && d[i].1 != map[]
    ensures Rewrite(a, d, parse, describe).Ok?
    ensures
      var lo := TimeOf(a.record.value, "start_time", parse).value;
      var hi := TimeOf(a.record.value, "end_time", parse).value;
      (|Rewrite(a, d, parse, describe).value| == 1 <==> exists i :: 0 <= i < |d| && InInterval(d[i].0, lo, hi))
    ensures
      var lo := TimeOf(a.record.value, "start_time", parse).value;
      var hi := TimeOf(a.record.value, "end_time", parse).value;
      |Rewrite(a, d, parse, describe).value| == 1 ==>
        exists i :: 0 <= i < |d| && InInterval(d[i].0, lo, hi) && Rewrite(a, d, parse, describe).value[0].record == Some(d[i].1)
          && forall j :: 0 <= j < i ==> !InInterval(d[j].0, lo, hi)
  {
    var lo := TimeOf(a.record.value, "start_time", parse).value;
    var hi := TimeOf(a.record.value, "end_time", parse).value;
    ElementInIntervalOk(a.record.value, d, parse, lo, hi);
  }

  lemma {:induction false} ElementInIntervalOk(rec: Record, d: StartIndex, parse: string -> Option<int>, lo: int, hi: int)
    requires TimeOf(rec, "start_time", parse) == Ok(lo) && TimeOf(rec, "end_time", parse) == Ok(hi)
    requires forall i :: 0 <= i < |d| ==> !AsNumber(d[i].0).Incomparable?
    ensures ElementInInterval(rec, d, parse).Ok?
    decreases |d|
  {
    if |d| > 0 {
      ElementInIntervalOk(rec, d[1..], parse, lo, hi);
    }
  }

  // ---- ModelProcessor.train ---------------------------------------------------

  /** The samples of one cycle, keyed by job name in a test cycle and by data type otherwise. */
  type SampleMap = map<string, seq<Record>>

  function SampleKey(job: Job, isTest: bool): string {
    if isTest then job.name else job.dataType
  }

  /** `any(all_samples.values())`. */
  predicate AnySamples(all: SampleMap) {
    exists k :: k in all && |all[k]| > 0
  }

  /** A cycle's effect on the store, with the exception that ended it early, if any. */
  datatype TrainOutcome<M, A> = TrainOutcome(store: ArtifactStore<M, A>, error: Option<CycleError>)

  /** The training loop over the dynamic jobs, in registry order; a missing samples entry raises. */
  function TrainEach<M, A>(store: ArtifactStore<M, A>, jobs: seq<Job>, all: SampleMap, isTest: bool, trainer: Trainer<M, A>)
    : (r: TrainOutcome<M, A>)
    ensures forall k :: (forall j :: j in jobs && j.dynamic ==> j.name != k) ==> LoadModel(r.store, k) == LoadModel(store, k)
    ensures r.error.None? <==> forall j :: j in jobs && j.dynamic ==> SampleKey(j, isTest) in all
    decreases |jobs|
  {
    if |jobs| == 0 then TrainOutcome(store, None)
    else if !jobs[0].dynamic then TrainEach(store, jobs[1..], all, isTest, trainer)
    else if SampleKey(jobs[0], isTest) !in all then TrainOutcome(store, Some(CycleError.KeyError))
    else
      var j := jobs[0];
      var s := TrainJob(store, j.name, all[SampleKey(j, isTest)], trainer);
      var r := TrainEach(s, jobs[1..], all, isTest, trainer);
      assert forall x :: x in jobs <==> x == j || x in jobs[1..];
      r
  }

  /** Job `i` is dynamic and no later dynamic job shares its name: its training is the one that sticks. */
  ghost predicate LastDynamicAt(jobs: seq<Job>, i: int) {
    && 0 <= i < |jobs| && jobs[i].dynamic
    && forall m :: i < m < |jobs| ==> !(jobs[m].dynamic && jobs[m].name == jobs[i].name)
  }

  /**
   * After a loop that ran to the end, the artifact stored for the last
   * dynamic job of a name is what its trainer returned, when the trainer
   * succeeded.
   */
  lemma {:induction false} TrainEachSaves<M, A>(store: ArtifactStore<M, A>, jobs: seq<Job>, all: SampleMap, isTest: bool,
                                                trainer: Trainer<M, A>, i: int)
    requires TrainEach(store, jobs, all, isTest, trainer).error.None?
    requires LastDynamicAt(jobs, i)
    requires trainer(jobs[i].name, all[SampleKey(jobs[i], isTest)]).Ok?
    ensures var pair := trainer(jobs[i].name, all[SampleKey(jobs[i], isTest)]).value;
      LoadModel(TrainEach(store, jobs, all, isTest, trainer).store, jobs[i].name) == Artifact(pair.0, pair.1)
    decreases |jobs|
  {
    var j := jobs[0];
    if !j.dynamic {
      assert LastDynamicAt(jobs[1..], i - 1);
      TrainEachSaves(store, jobs[1..], all, isTest, trainer, i - 1);
    } else {
      var s := TrainJob(store, j.name, all[SampleKey(j, isTest)], trainer);
      if i == 0 {
        assert forall x :: x in jobs[1..] && x.dynamic ==> x.name != j.name by {
          forall x | x in jobs[1..] && x.dynamic ensures x.name != j.name {
            var m :| 0 <= m < |jobs[1..]| && jobs[1..][m] == x;
            assert jobs[m + 1] == x;
          }
        }
      } else {
        assert LastDynamicAt(jobs[1..], i - 1);
        TrainEachSaves(s, jobs[1..], all, isTest, trainer, i - 1);
      }
    }
  }

  /**
   * After a loop that ran to the end, a name whose every dynamic job failed
   * to train keeps the artifact it had before the cycle.
   */
  lemma {:induction false} TrainEachFailuresKeep<M, A>(store: ArtifactStore<M, A>, jobs: seq<Job>, all: SampleMap,
                                                       isTest: bool, trainer: Trainer<M, A>, k: string)
    requires TrainEach(store, jobs, all, isTest, trainer).error.None?
    requires forall j :: j in jobs && j.dynamic && j.name == k ==> trainer(k, all[SampleKey(j, isTest)]).Err?
    ensures LoadModel(TrainEach(store, jobs, all, isTest, trainer).store, k) == LoadModel(store, k)
    decreases |jobs|
  {
    if |jobs| > 0 {
      var j := jobs[0];
      assert forall x :: x in jobs[1..] ==> x in jobs;
      if !j.dynamic {
        TrainEachFailuresKeep(store, jobs[1..], all, isTest, trainer, k);
      } else {
        var s := TrainJob(store, j.name, all[SampleKey(j, isTest)], trainer);
        assert LoadModel(s, k) == LoadModel(store, k);
        TrainEachFailuresKeep(s, jobs[1..], all, isTest, trainer, k);
      }
    }
  }

  /**
   * `ModelProcessor.train`: nothing happens when every sample list is
   * empty; otherwise each dynamic job is trained on its samples, and the
   * cycle ends early exactly when a dynamic job's samples are missing.
   */
  function Train<M, A>(store: ArtifactStore<M, A>, jobs: seq<Job>, all: SampleMap, isTest: bool, trainer: Trainer<M, A>)
    : (r: TrainOutcome<M, A>)
    ensures !AnySamples(all) ==> r == TrainOutcome(store, None)
    ensures r.error.None? <==> !AnySamples(all) || forall j :: j in jobs && j.dynamic ==> SampleKey(j, isTest) in all
    ensures forall k :: (forall j :: j in jobs && j.dynamic ==> j.name != k) ==> LoadModel(r.store, k) == LoadModel(store, k)
  {
    if !AnySamples(all) then TrainOutcome(store, None)
    else TrainEach(store, jobs, all, isTest, trainer)
  }

  /**
   * A training cycle with samples stores, for the last dynamic job of each
   * name, its trainer's result; and detection with that name afterwards
   * runs the detector on the trained model, when that job is the name's
   * last job of all.
   */
  lemma TrainThenDetect<M, A>(store: ArtifactStore<M, A>, jobs: seq<Job>, all: SampleMap, isTest: bool,
                              trainer: Trainer<M, A>, finder: Finder<M, A>, i: int, samples: seq<Record>)
    requires AnySamples(all) && Train(store, jobs, all, isTest, trainer).error.None?
    requires LastDynamicAt(jobs, i)
    requires trainer(jobs[i].name, all[SampleKey(jobs[i], isTest)]).Ok?
    ensures var pair := trainer(jobs[i].name, all[SampleKey(jobs[i], isTest)]).value;
      LoadModel(Train(store, jobs, all, isTest, trainer).store, jobs[i].name) == Artifact(pair.0, pair.1)
    ensures var pair := trainer(jobs[i].name, all[SampleKey(jobs[i], isTest)]).value;
      (forall m :: i < m < |jobs| ==> jobs[m].name != jobs[i].name) && pair.0.Some? ==>
        Detect(Train(store, jobs, all, isTest, trainer).store, jobs, jobs[i].name, samples, finder)
        == finder(jobs[i].name, pair.0, samples, pair.1).GetOrDefault([])
  {
    TrainEachSaves(store, jobs, all, isTest, trainer, i);
    if forall m :: i < m < |jobs| ==> jobs[m].name != jobs[i].name {
      JobByNameLast(jobs, i);
    }
  }

  /** Static jobs are never retrained: their saved artifacts survive any training cycle. */
  lemma TrainKeepsStaticJobs<M, A>(store: ArtifactStore<M, A>, jobs: seq<Job>, all: SampleMap, isTest: bool,
                                   trainer: Trainer<M, A>, fixed: Job)
    requires fixed in jobs && !fixed.dynamic
    requires forall j :: j in jobs && j.dynamic ==> j.name != fixed.name
    ensures LoadModel(Train(store, jobs, all, isTest, trainer).store, fixed.name) == LoadModel(store, fixed.name)
  {
  }

  // ---- ModelProcessor.find_anomalies ------------------------------------------

  /** The detection loop: jobs in registry order, skipping those without samples; a missing entry raises. */
  function DetectEach<M, A>(store: ArtifactStore<M, A>, jobs: seq<Job>, all: SampleMap, isTest: bool, finder: Finder<M, A>)
    : (r: Result<seq<Alert>, CycleError>)
    ensures r.Ok? <==> forall j :: j in jobs ==> SampleKey(j, isTest) in all
    ensures r.Ok? && (forall j :: j in jobs ==> |all[SampleKey(j, isTest)]| == 0) ==> r.value == []
    decreases |jobs|
  {
    if |jobs| == 0 then Ok([])
    else
      var j := jobs[0];
      assert forall x :: x in jobs <==> x == j || x in jobs[1..];
      if SampleKey(j, isTest) !in all then Err(CycleError.KeyError)
      else
        var rest := DetectEach(store, jobs[1..], all, isTest, finder);
        if rest.Err? then rest
        else if |all[SampleKey(j, isTest)]| == 0 then rest
        else Ok(Detect(store, jobs, j.name, all[SampleKey(j, isTest)], finder) + rest.value)
  }

  /** Where the search window starts: the configured time, else the checkpoint (with its default). */
  datatype WindowStart = Configured(text: string) | FromCheckpoint(time: int)

  /** The settings a detection cycle reads. */
  datatype Config = Config(sendAlerts: bool, searchStart: Option<string>, searchIntervalMinutes: int, removedFields: seq<string>)

  /** How a cycle loads its samples: the test datasets, or the logs from a window start. */
  datatype Loader = Loader(testData: Result<SampleMap, CycleError>, download: WindowStart -> Result<SampleMap, CycleError>)

  /** The file the cycle's anomalies are saved to. */
  const FileAllDetectedTest: string := "all_anomalies_test"
  const FileAllDetected: string := "all_anomalies"

  /** `_save_data(rows, name, timestamp=False)`: rows are written, and no rows removes the file. */
  datatype FileEffect = Written(name: string, rows: seq<Alert>) | Removed(name: string)

  function SaveData(rows: seq<Alert>, name: string): (e: FileEffect)
    ensures e.name == name
    ensures e.Written? <==> |rows| > 0
    ensures e.Written? ==> e.rows == rows
  {
    if |rows| == 0 then Removed(name) else Written(name, rows)
  }

  /**
   * What a detection cycle leaves behind: its anomalies, the checkpoint,
   * the saved anomalies file, the alerts written, and the exception that
   * ended it, if any.
   */
  datatype FindOutcome = FindOutcome(
    anomalies: seq<Alert>,
    checkpoint: Checkpoint.Store,
    saved: Option<FileEffect>,
    sent: seq<Alert>,
    error: Option<CycleError>)

  /** The window start of a live cycle run against checkpoint `cp`. */
  function StartOf(cfg: Config, cp: Checkpoint.Store, now: int): WindowStart {
    if cfg.searchStart.Some? && cfg.searchStart.value != "" then Configured(cfg.searchStart.value)
    else FromCheckpoint(Checkpoint.Load(cp, now, cfg.searchIntervalMinutes))
  }

  /** The detection step of a cycle: nothing to find without samples, else every job's alerts, aggregated. */
  function DetectAll<M, A>(store: ArtifactStore<M, A>, jobs: seq<Job>, all: SampleMap, isTest: bool, finder: Finder<M, A>,
                           parse: string -> Option<int>, describe: (string, Record) -> string)
    : Result<seq<Alert>, CycleError>
  {
    if AnySamples(all) then
      match DetectEach(store, jobs, all, isTest, finder)
      case Err(e) => Err(e)
      case Ok(alerts) => AggregateByteAnomalies(alerts, parse, describe)
    else Ok([])
  }

  /** `ModelProcessor.find_anomalies(lock, i, is_test)` at time `now`. */
  function FindAnomalies<M, A>(cycle: int, isTest: bool, cfg: Config, jobs: seq<Job>, store: ArtifactStore<M, A>,
                               cp: Checkpoint.Store, now: int, load: Loader, finder: Finder<M, A>,
                               parse: string -> Option<int>, describe: (string, Record) -> string,
                               strptime: (string, string) -> Option<int>)
    : (r: FindOutcome)
    ensures r.error.None? ==> r.checkpoint == Some(now)
    ensures r.error.Some? ==> r.checkpoint == (if cycle == 0 then None else cp) && r.saved.None? && r.sent == []
    ensures r.error.None? ==> r.saved.Some? && r.saved.value.name == (if isTest then FileAllDetectedTest else FileAllDetected)
    ensures r.error.None? ==> (r.saved.value.Written? <==> |r.anomalies| > 0) && (r.saved.value.Written? ==> r.saved.value.rows == r.anomalies)
    ensures r.error.None? ==> (|r.sent| > 0 <==> |r.anomalies| > 0 && cfg.sendAlerts && cycle != 0)
    ensures |r.sent| > 0 ==> |r.sent| == |r.anomalies|
  {
    var cp1 := if cycle == 0 then Checkpoint.Remove(cp) else cp;
    var loaded := if isTest then load.testData else load.download(StartOf(cfg, cp1, now));
    match loaded
    case Err(e) => FindOutcome([], cp1, None, [], Some(e))
    case Ok(all) =>
      match DetectAll(store, jobs, all, isTest, finder, parse, describe)
      case Err(e) => FindOutcome([], cp1, None, [], Some(e))
      case Ok(anomalies) =>
        var sent :=
          if |anomalies| > 0 && cfg.sendAlerts && cycle != 0 then
            seq(|anomalies|, i requires 0 <= i < |anomalies| => PrepareAlert(anomalies[i], cfg.removedFields, strptime, now))
          else [];
        FindOutcome(anomalies, Checkpoint.Save(cp1, now), Some(SaveData(anomalies, if isTest then FileAllDetectedTest else FileAllDetected)),
                    sent, None)
  }

  /**
   * Detection windows chain: a live cycle numbered i > 0 after a
   * successful one at `t` starts at `t` unless a start is configured,
   * while cycle 0 ignores any old checkpoint.
   */
  lemma WindowsChain(cfg: Config, cp: Checkpoint.Store, t: int, now: int)
    requires cfg.searchStart.None?
    ensures StartOf(cfg, Checkpoint.Save(cp, t), now) == FromCheckpoint(t)
    ensures StartOf(cfg, Checkpoint.Remove(cp), now) == FromCheckpoint(now - 2 * cfg.searchIntervalMinutes * 60)
  {
  }

  /** A live cycle numbered i > 0 never clears the checkpoint: when loading fails, the old one is still there. */
  lemma LaterCyclesKeepCheckpoint<M, A>(cycle: int, cfg: Config, jobs: seq<Job>, store: ArtifactStore<M, A>, cp: Checkpoint.Store,
                                        now: int, load: Loader, finder: Finder<M, A>, parse: string -> Option<int>,
                                        describe: (string, Record) -> string, strptime: (string, string) -> Option<int>)
    requires cycle != 0
    requires load.download(StartOf(cfg, cp, now)).Err?
    ensures FindAnomalies(cycle, false, cfg, jobs, store, cp, now, load, finder, parse, describe, strptime).checkpoint == cp
  {
  }

  /** With every sample list empty, a cycle finds nothing, sends nothing, and still moves the checkpoint. */
  lemma EmptyCycle<M, A>(cycle: int, isTest: bool, cfg: Config, jobs: seq<Job>, store: ArtifactStore<M, A>, cp: Checkpoint.Store,
                         now: int, load: Loader, finder: Finder<M, A>, parse: string -> Option<int>,
                         describe: (string, Record) -> string, strptime: (string, string) -> Option<int>)
    requires isTest && load.testData.Ok? && !AnySamples(load.testData.value)
    ensures
      var r := FindAnomalies(cycle, isTest, cfg, jobs, store, cp, now, load, finder, parse, describe, strptime);
      r.anomalies == [] && r.sent == [] && r.checkpoint == Some(now) && r.error.None?
  {
  }
}
