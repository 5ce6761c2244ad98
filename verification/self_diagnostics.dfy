/**
 * The scoring of the self-diagnostics run, ph/self_diagnostics.py: the
 * per-job count of the alerts a live cycle produced, the group key that
 * identifies a labelled or detected row, the TP/FP/FN counts and the
 * precision, recall and F1 of each job against its tolerance, and the
 * overall verdict, which is saved to the history before a captured
 * exception is raised again.
 *
 * CSV files are lists of rows given by the caller; a row keeps its
 * column order. Metrics are exact reals (the report's 3-digit rounding
 * is not modelled).
 */
module SelfDiagnostics {
  import opened Wrappers
  import opened Text
  import opened Values
  import opened Registry
  import opened AlertApi
  import History

  datatype DiagError =
    | IndexError          // an alert name without '.'
    | KeyError            // a missing column
    | AssertionError      // a job the registry or the test datasets do not know
    | ZeroDivisionError   // a job with no detected or no labelled keys
    | FileNotFoundError   // a missing test dataset, or no test anomalies file (no test anomaly was detected)
    | DgaNotModelled      // the `dga` key remapping is not part of this model

  // ---- _format_all_detected_anomalies ---------------------------------------

  /** One entry of the alert report: a job and how many alerts it raised. */
  datatype JobCount = JobCount(name: string, anomalies: nat)

  /** How often `n` occurs in `names`. */
  function Count(names: seq<string>, n: string): nat
    decreases |names|
  {
    if |names| == 0 then 0
    else Count(names[..|names| - 1], n) + (if names[|names| - 1] == n then 1 else 0)
  }

  /** `names` without repeats, each at its first appearance. */
  function Dedup(names: seq<string>): (r: seq<string>)
    ensures forall n :: n in r <==> n in names
    decreases |names|
  {
    if |names| == 0 then []
    else
      var front := Dedup(names[..|names| - 1]);
      assert forall n :: n in names <==> n in names[..|names| - 1] || n == names[|names| - 1];
      if names[|names| - 1] in front then front else front + [names[|names| - 1]]
  }

  /** The names of the counter's entries, in order. */
  function Names(t: seq<JobCount>): (r: seq<string>)
    ensures |r| == |t|
    decreases |t|
  {
    if |t| == 0 then [] else [t[0].name] + Names(t[1..])
  }

  function CountOf(t: seq<JobCount>, n: string): nat
    decreases |t|
  {
    if |t| == 0 then 0 else if t[0].name == n then t[0].anomalies else CountOf(t[1..], n)
  }

  function SumCounts(t: seq<JobCount>): nat
    decreases |t|
  {
    if |t| == 0 then 0 else t[0].anomalies + SumCounts(t[1..])
  }

  lemma NamesCons(x: JobCount, t: seq<JobCount>)
    ensures Names([x] + t) == [x.name] + Names(t)
  {
    assert ([x] + t)[1..] == t;
  }

  /** `counter[n] += 1`: an existing entry is incremented in place; a new name goes last with count 1. */
  function Bump(t: seq<JobCount>, n: string): (r: seq<JobCount>)
    ensures |r| == if n in Names(t) then |t| else |t| + 1
    decreases |t|
  {
    if |t| == 0 then [JobCount(n, 1)]
    else
      NamesCons(t[0], t[1..]);
      assert t == [t[0]] + t[1..];
      if t[0].name == n then [t[0].(anomalies := t[0].anomalies + 1)] + t[1..]
      else [t[0]] + Bump(t[1..], n)
  }

  /** The counter's names are unchanged, or gain `n` at the end. */
  lemma {:induction false} BumpNames(t: seq<JobCount>, n: string)
    ensures Names(Bump(t, n)) == if n in Names(t) then Names(t) else Names(t) + [n]
    decreases |t|
  {
    if |t| > 0 {
      NamesCons(t[0], t[1..]);
      assert t == [t[0]] + t[1..];
      if t[0].name == n {
        NamesCons(t[0].(anomalies := t[0].anomalies + 1), t[1..]);
      } else {
        BumpNames(t[1..], n);
        NamesCons(t[0], Bump(t[1..], n));
      }
    }
  }

  /** Only the count of `n` changes, by one; so does the total. */
  lemma {:induction false} BumpCounts(t: seq<JobCount>, n: string, m: string)
    ensures CountOf(Bump(t, n), m) == CountOf(t, m) + (if m == n then 1 else 0)
    ensures SumCounts(Bump(t, n)) == SumCounts(t) + 1
    decreases |t|
  {
    if |t| > 0 && t[0].name != n {
      BumpCounts(t[1..], n, m);
      assert ([t[0]] + Bump(t[1..], n))[1..] == Bump(t[1..], n);
    } else if |t| > 0 {
      assert ([t[0].(anomalies := t[0].anomalies + 1)] + t[1..])[1..] == t[1..];
    }
  }

  /** `Counter(names)`: first-appearance order, one entry per distinct name. */
  function Tally(names: seq<string>): (r: seq<JobCount>)
    ensures Names(r) == Dedup(names)
    ensures forall m :: CountOf(r, m) == Count(names, m)
    ensures SumCounts(r) == |names|
    decreases |names|
  {
    if |names| == 0 then []
    else
      var front := Tally(names[..|names| - 1]);
      var n := names[|names| - 1];
      BumpNames(front, n);
      BumpCounts(front, n, n);
      assert forall m :: CountOf(Bump(front, n), m) == Count(names, m) by {
        forall m ensures CountOf(Bump(front, n), m) == Count(names, m) {
          BumpCounts(front, n, m);
        }
      }
      Bump(front, n)
  }

  /** The job of every alert, or None when some alert name has no second component. */
  function AlertJobs(alerts: seq<Alert>): (r: Option<seq<string>>)
    ensures r.Some? <==> forall i :: 0 <= i < |alerts| ==> JobOf(alerts[i]).Some?
    ensures r.Some? ==> |r.value| == |alerts| && forall i :: 0 <= i < |alerts| ==> r.value[i] == JobOf(alerts[i]).value
    decreases |alerts|
  {
    if |alerts| == 0 then Some([])
    else
      match AlertJobs(alerts[..|alerts| - 1])
      case None => None
      case Some(front) =>
        match JobOf(alerts[|alerts| - 1])
        case None => None
        case Some(j) => Some(front + [j])
  }

  /** The report on a cycle's alerts: job counts and a verdict, or the exception that ended the cycle. */
  datatype AlertReport = Counted(jobs: seq<JobCount>, success: bool) | Failed(description: string)

  predicate Succeeded(a: AlertReport) {
    a.Counted? && a.success
  }

  /**
   * `_format_all_detected_anomalies(alerts, allow_no_anomalies)`: no
   * alerts succeed only when allowed; otherwise one entry per job, with
   * counts adding up to the number of alerts, and success.
   */
  function FormatAllDetected(alerts: seq<Alert>, allowNone: bool): (r: Result<AlertReport, DiagError>)
    ensures |alerts| == 0 ==> r == Ok(Counted([], allowNone))
    ensures r.Err? <==> exists i :: 0 <= i < |alerts| && JobOf(alerts[i]).None?
    ensures r.Ok? ==> r.value.Counted?
    ensures r.Ok? && |alerts| > 0 ==>
      var jobs := AlertJobs(alerts).value;
      && r.value.success
      && Names(r.value.jobs) == Dedup(jobs)
      && (forall m :: CountOf(r.value.jobs, m) == Count(jobs, m))
      && SumCounts(r.value.jobs) == |alerts|
  {
    if |alerts| == 0 then Ok(Counted([], allowNone))
    else
      match AlertJobs(alerts)
      case None => Err(IndexError)
      case Some(jobs) =>
        var t := Tally(jobs);
        Ok(Counted(t, SumCounts(t) > 0))
  }

  // ---- group keys -------------------------------------------------------------

  /** A CSV row: its columns in file order. */
  type Row = seq<(string, Value)>

  /** `[str(v) for k, v in row.items() if k in group_fields]`. */
  function GroupValues(row: Row, fields: seq<string>, floatRepr: real -> string): (r: seq<string>)
    ensures |r| <= |row|
    ensures forall v :: v in r ==> exists i :: 0 <= i < |row| && row[i].0 in fields && v == PyStr(row[i].1, floatRepr)
    decreases |row|
  {
    if |row| == 0 then []
    else
      var rest := GroupValues(row[1..], fields, floatRepr);
      assert forall v :: v in rest ==> exists i :: 0 <= i < |row| && row[i].0 in fields && v == PyStr(row[i].1, floatRepr) by {
        forall v | v in rest ensures exists i :: 0 <= i < |row| && row[i].0 in fields && v == PyStr(row[i].1, floatRepr) {
          var i :| 0 <= i < |row[1..]| && row[1..][i].0 in fields && v == PyStr(row[1..][i].1, floatRepr);
          assert row[i + 1] == row[1..][i];
        }
      }
      (if row[0].0 in fields then [PyStr(row[0].1, floatRepr)] else []) + rest
  }

  /** The row's identity in the report: its group values joined with '^'. */
  function GroupKey(row: Row, fields: seq<string>, floatRepr: real -> string): string {
    Join(GroupValues(row, fields, floatRepr), "^")
  }

  /**
   * The key can be taken apart again: with at least one group value and
   * no '^' inside any of them, splitting the key at '^' gives the values.
   */
  lemma GroupKeyRoundTrip(row: Row, fields: seq<string>, floatRepr: real -> string)
    requires |GroupValues(row, fields, floatRepr)| >= 1
    requires forall v :: v in GroupValues(row, fields, floatRepr) ==> '^' !in v
    ensures Split(GroupKey(row, fields, floatRepr), '^') == GroupValues(row, fields, floatRepr)
  {
    JoinSplit(GroupValues(row, fields, floatRepr), '^');
  }

  /** So rows collapse under one key only when their group values agree (given no '^' in them). */
  lemma GroupKeyInjective(r1: Row, r2: Row, fields: seq<string>, floatRepr: real -> string)
    requires |GroupValues(r1, fields, floatRepr)| >= 1 && |GroupValues(r2, fields, floatRepr)| >= 1
    requires forall v :: v in GroupValues(r1, fields, floatRepr) ==> '^' !in v
    requires forall v :: v in GroupValues(r2, fields, floatRepr) ==> '^' !in v
    requires GroupKey(r1, fields, floatRepr) == GroupKey(r2, fields, floatRepr)
    ensures GroupValues(r1, fields, floatRepr) == GroupValues(r2, fields, floatRepr)
  {
    GroupKeyRoundTrip(r1, fields, floatRepr);
    GroupKeyRoundTrip(r2, fields, floatRepr);
  }

  /** The group key of a row under one job's group fields, as a function. */
  function GroupKeyOf(fields: seq<string>, floatRepr: real -> string): Row -> string {
    row => GroupKey(row, fields, floatRepr)
  }

  /** Row `i` has key `k` and no later row does. */
  ghost predicate LastWithKey<T>(rows: seq<T>, key: T -> string, i: int, k: string) {
    0 <= i < |rows| && key(rows[i]) == k && forall j :: i < j < |rows| ==> key(rows[j]) != k
  }

  /** `{key(row): row for row in rows}`: every row's key is present. */
  function KeyBy<T>(rows: seq<T>, key: T -> string): (m: map<string, T>)
    ensures forall i :: 0 <= i < |rows| ==> key(rows[i]) in m
    decreases |rows|
  {
    if |rows| == 0 then map[]
    else
      var n := |rows| - 1;
      assert forall i :: 0 <= i < n ==> rows[..n][i] == rows[i];
      KeyBy(rows[..n], key)[key(rows[n]) := rows[n]]
  }

  /** A key holds the last row that carries it. */
  lemma {:induction false} KeyByHoldsLast<T>(rows: seq<T>, key: T -> string, i: int)
    requires 0 <= i < |rows| && LastWithKey(rows, key, i, key(rows[i]))
    ensures KeyBy(rows, key)[key(rows[i])] == rows[i]
    decreases |rows|
  {
    var n := |rows| - 1;
    if i < n {
      assert rows[..n][i] == rows[i];
      assert key(rows[n]) != key(rows[i]);
      assert LastWithKey(rows[..n], key, i, key(rows[i])) by {
        forall j | i < j < n ensures key(rows[..n][j]) != key(rows[i]) {
          assert rows[..n][j] == rows[j];
        }
      }
      KeyByHoldsLast(rows[..n], key, i);
    }
  }

  /** Every key of the map is the key of some row. */
  lemma {:induction false} KeyByKeys<T>(rows: seq<T>, key: T -> string, k: string)
    requires k in KeyBy(rows, key)
    ensures exists i :: 0 <= i < |rows| && key(rows[i]) == k
    decreases |rows|
  {
    var n := |rows| - 1;
    if key(rows[n]) != k {
      KeyByKeys(rows[..n], key, k);
      var i :| 0 <= i < n && key(rows[..n][i]) == k;
      assert rows[..n][i] == rows[i];
    }
  }

  // ---- the labelled test anomalies --------------------------------------------

  /** The value of a column, if the row has it. */
  function Column(row: Row, col: string): (r: Option<Value>)
    ensures r.Some? ==> (col, r.value) in row
    ensures r.None? ==> forall p :: p in row ==> p.0 != col
    decreases |row|
  {
    if |row| == 0 then None else if row[0].0 == col then Some(row[0].1) else Column(row[1..], col)
  }

  /** The row without the given column. */
  function DropColumn(row: Row, col: string): (r: Row)
    ensures forall p :: p in r <==> p in row && p.0 != col
    decreases |row|
  {
    if |row| == 0 then []
    else (if row[0].0 == col then [] else [row[0]]) + DropColumn(row[1..], col)
  }

  /** `v == 0` in pandas: a zero of any numeric kind; NaN and text are never zero. */
  predicate IsZero(v: Value) {
    v == VInt(0) || v == VFloat(0.0) || v == VBool(false)
  }

  /** A row labelled an anomaly: its `anomaly` column is present and not zero. */
  predicate Labelled(row: Row) {
    Column(row, "anomaly").Some? && !IsZero(Column(row, "anomaly").value)
  }

  /**
   * `df[df['anomaly'] != 0]` with the `anomaly` column dropped: the
   * labelled rows, in order; a row without the column raises.
   */
  function LabelledRows(rows: seq<Row>): (r: Result<seq<Row>, DiagError>)
    ensures r.Ok? <==> forall i :: 0 <= i < |rows| ==> Column(rows[i], "anomaly").Some?
    ensures r.Ok? ==> |r.value| <= |rows|
    ensures r.Err? ==> r.error == DiagError.KeyError
    decreases |rows|
  {
    if |rows| == 0 then Ok([])
    else if Column(rows[0], "anomaly").None? then Err(DiagError.KeyError)
    else
      assert forall i :: 1 <= i < |rows| ==> rows[i] == rows[1..][i - 1];
      match LabelledRows(rows[1..])
      case Err(e) => Err(e)
      case Ok(rest) => Ok((if Labelled(rows[0]) then [DropColumn(rows[0], "anomaly")] else []) + rest)
  }

  /** Labelled row `i` appears, without its label, among the labelled rows. */
  ghost predicate LabelledAt(rows: seq<Row>, i: int, x: Row) {
    0 <= i < |rows| && Labelled(rows[i]) && x == DropColumn(rows[i], "anomaly")
  }

  /** The labelled rows are exactly the rows labelled an anomaly, each without the label. */
  lemma {:induction false} LabelledRowsMembers(rows: seq<Row>, x: Row)
    requires LabelledRows(rows).Ok?
    ensures x in LabelledRows(rows).value <==> exists i :: LabelledAt(rows, i, x)
    decreases |rows|
  {
    if |rows| > 0 {
      var rest := LabelledRows(rows[1..]).value;
      var head := if Labelled(rows[0]) then [DropColumn(rows[0], "anomaly")] else [];
      assert LabelledRows(rows).value == head + rest;
      LabelledRowsMembers(rows[1..], x);
      if x in head {
        assert LabelledAt(rows, 0, x);
      }
      if x in rest {
        var i :| LabelledAt(rows[1..], i, x);
        assert rows[1..][i] == rows[i + 1];
        assert LabelledAt(rows, i + 1, x);
      }
      if i :| LabelledAt(rows, i, x) {
        if i > 0 {
          assert rows[1..][i - 1] == rows[i];
          assert LabelledAt(rows[1..], i - 1, x);
        }
      }
    }
  }

  /** The test anomalies of every registered job, keyed by group key; datasets are read by job name. */
  function TestAnomalies(jobs: seq<Job>, datasets: map<string, seq<Row>>, floatRepr: real -> string)
    : (r: Result<map<string, map<string, Row>>, DiagError>)
    ensures r.Ok? ==> forall j :: j in jobs ==> j.name in r.value
    ensures r.Ok? ==> forall n :: n in r.value ==> exists j :: j in jobs && j.name == n
    decreases |jobs|
  {
    if |jobs| == 0 then Ok(map[])
    else
      var n := |jobs| - 1;
      var j := jobs[n];
      assert forall x :: x in jobs <==> x in jobs[..n] || x == j;
      match TestAnomalies(jobs[..n], datasets, floatRepr)
      case Err(e) => Err(e)
      case Ok(front) =>
        if j.name !in datasets then Err(FileNotFoundError)
        else
          match LabelledRows(datasets[j.name])
          case Err(e) => Err(e)
          case Ok(rows) => Ok(front[j.name := KeyBy(rows, GroupKeyOf(j.groupFields, floatRepr))])
  }

  // ---- the detected test anomalies --------------------------------------------

  /**
   * `eval(record.replace('nan', 'None'))`, on the record's `repr`: the
   * rewrite reaches every key and every text value, and a NaN value,
   * whose `repr` is `nan`, reads back as None. Integers, booleans and
   * finite floats have no `nan` in their `repr`.
   */
  function EvalRewritten(row: Row): (r: Row)
    ensures |r| == |row|
  {
    seq(|row|, i requires 0 <= i < |row| => (Replace(row[i].0, "nan", "None"), RewriteValue(row[i].1)))
  }

  function RewriteValue(v: Value): Value {
    match v
    case VNaN => VNone
    case VStr(t) => VStr(Replace(t, "nan", "None"))
    case _ => v
  }

  /** No `nan` anywhere in the record's `repr`. */
  predicate NanFree(row: Row) {
    forall i :: 0 <= i < |row| ==>
      !Occurs(row[i].0, "nan") && !row[i].1.VNaN? && (row[i].1.VStr? ==> !Occurs(row[i].1.s, "nan"))
  }

  /** A record without `nan` in its `repr` reads back as it was written. */
  lemma EvalRewrittenNanFree(row: Row)
    requires NanFree(row)
    ensures EvalRewritten(row) == row
  {
    forall i | 0 <= i < |row| ensures EvalRewritten(row)[i] == row[i] {
      ReplaceAbsent(row[i].0, "nan", "None");
      if row[i].1.VStr? {
        ReplaceAbsent(row[i].1.s, "nan", "None");
      }
    }
  }

  /** The records of the detected alerts of one job, in file order, as `eval` reads them back. */
  function RecordsOf(detected: seq<(string, Row)>, job: string): (r: seq<Row>)
    ensures |r| <= |detected|
    decreases |detected|
  {
    if |detected| == 0 then []
    else (if Component(detected[0].0, '.', 1) == Some(job) then [EvalRewritten(detected[0].1)] else []) + RecordsOf(detected[1..], job)
  }

  /** Alert `i` belongs to `job` and carries the record `x`. */
  ghost predicate AlertOf(detected: seq<(string, Row)>, job: string, i: int, x: Row) {
    0 <= i < |detected| && Component(detected[i].0, '.', 1) == Some(job) && detected[i].1 == x
  }

  /** With no `nan` in any record, a job's records are exactly the records of its alerts. */
  lemma {:induction false} RecordsOfNanFree(detected: seq<(string, Row)>, job: string, x: Row)
    requires forall i :: 0 <= i < |detected| ==> NanFree(detected[i].1)
    ensures x in RecordsOf(detected, job) <==> exists i :: AlertOf(detected, job, i, x)
    decreases |detected|
  {
    if |detected| > 0 {
      RecordsOfNanFree(detected[1..], job, x);
      EvalRewrittenNanFree(detected[0].1);
      var head := if Component(detected[0].0, '.', 1) == Some(job) then [detected[0].1] else [];
      assert RecordsOf(detected, job) == head + RecordsOf(detected[1..], job);
      if x in head {
        assert AlertOf(detected, job, 0, x);
      }
      if exists i :: AlertOf(detected[1..], job, i, x) {
        var i :| AlertOf(detected[1..], job, i, x);
        assert AlertOf(detected, job, i + 1, x);
      }
      if exists i :: AlertOf(detected, job, i, x) {
        var i :| AlertOf(detected, job, i, x);
        if i > 0 {
          assert detected[1..][i - 1] == detected[i];
          assert AlertOf(detected[1..], job, i - 1, x);
        }
      }
    }
  }

  /** An alert row names a registered job. */
  predicate RegisteredAlert(jobs: seq<Job>, a: (string, Row)) {
    Component(a.0, '.', 1).Some? && JobByName(jobs, Component(a.0, '.', 1).value).Some?
  }

  /** The jobs named by the alert rows. */
  function JobsNamed(detected: seq<(string, Row)>): (r: set<string>)
    ensures forall n :: n in r <==> exists i :: 0 <= i < |detected| && Component(detected[i].0, '.', 1) == Some(n)
    decreases |detected|
  {
    if |detected| == 0 then {}
    else
      var rest := JobsNamed(detected[1..]);
      assert forall i :: 1 <= i < |detected| ==> detected[i] == detected[1..][i - 1];
      assert forall n :: n in rest ==> exists i :: 0 <= i < |detected| && Component(detected[i].0, '.', 1) == Some(n) by {
        forall n | n in rest ensures exists i :: 0 <= i < |detected| && Component(detected[i].0, '.', 1) == Some(n) {
          var i :| 0 <= i < |detected[1..]| && Component(detected[1..][i].0, '.', 1) == Some(n);
          assert detected[i + 1] == detected[1..][i];
        }
      }
      var c := Component(detected[0].0, '.', 1);
      (if c.Some? then {c.value} else {}) + rest
  }

  /** The loop's checks in file order: the first row without a job name raises IndexError, one with an unknown job AssertionError. */
  function CheckAlerts(jobs: seq<Job>, detected: seq<(string, Row)>): (r: Option<DiagError>)
    ensures r.None? <==> forall i :: 0 <= i < |detected| ==> RegisteredAlert(jobs, detected[i])
    decreases |detected|
  {
    if |detected| == 0 then None
    else if Component(detected[0].0, '.', 1).None? then Some(IndexError)
    else if !RegisteredAlert(jobs, detected[0]) then Some(AssertionError)
    else
      assert forall i :: 1 <= i < |detected| ==> detected[i] == detected[1..][i - 1];
      CheckAlerts(jobs, detected[1..])
  }

  /** Once the checks pass, every job an alert names is registered. */
  lemma {:induction false} NamedJobsRegistered(jobs: seq<Job>, detected: seq<(string, Row)>, n: string)
    requires CheckAlerts(jobs, detected).None?
    requires n in JobsNamed(detected)
    ensures JobByName(jobs, n).Some?
  {
    var i :| 0 <= i < |detected| && Component(detected[i].0, '.', 1) == Some(n);
    assert RegisteredAlert(jobs, detected[i]);
  }

  /** A successful read of the labelled anomalies found every registered job's dataset. */
  lemma {:induction false} TestAnomaliesReadAll(jobs: seq<Job>, datasets: map<string, seq<Row>>, floatRepr: real -> string)
    requires TestAnomalies(jobs, datasets, floatRepr).Ok?
    ensures forall i :: 0 <= i < |jobs| ==> jobs[i].name in datasets
    decreases |jobs|
  {
    if |jobs| > 0 {
      var n := |jobs| - 1;
      var front := TestAnomalies(jobs[..n], datasets, floatRepr);
      assert front.Ok? && jobs[n].name in datasets;
      TestAnomaliesReadAll(jobs[..n], datasets, floatRepr);
      assert forall i :: 0 <= i < n ==> jobs[i] == jobs[..n][i];
    }
  }

  /** A FileNotFoundError points at a registered job whose dataset is missing. */
  lemma {:induction false} TestAnomaliesNotFound(jobs: seq<Job>, datasets: map<string, seq<Row>>, floatRepr: real -> string)
    requires TestAnomalies(jobs, datasets, floatRepr) == Err(FileNotFoundError)
    ensures exists j :: j in jobs && j.name !in datasets
    decreases |jobs|
  {
    var n := |jobs| - 1;
    if TestAnomalies(jobs[..n], datasets, floatRepr).Err? {
      TestAnomaliesNotFound(jobs[..n], datasets, floatRepr);
      var j :| j in jobs[..n] && j.name !in datasets;
      assert j in jobs;
    } else {
      assert jobs[n].name !in datasets;
      assert jobs[n] in jobs;
    }
  }

  /** The datasets are read in registry order without a check first, so a missing first one raises FileNotFoundError. */
  lemma {:induction false} TestAnomaliesFirstMissing(jobs: seq<Job>, datasets: map<string, seq<Row>>, floatRepr: real -> string)
    requires |jobs| > 0 && jobs[0].name !in datasets
    ensures TestAnomalies(jobs, datasets, floatRepr) == Err(FileNotFoundError)
    decreases |jobs|
  {
    var n := |jobs| - 1;
    if n > 0 {
      assert jobs[..n][0] == jobs[0];
      TestAnomaliesFirstMissing(jobs[..n], datasets, floatRepr);
    } else {
      assert TestAnomalies(jobs[..n], datasets, floatRepr) == Ok(map[]);
    }
  }

  /** The detected anomalies of job `n`, keyed by its group key (empty for an unknown job). */
  function DetectedOf(jobs: seq<Job>, detected: seq<(string, Row)>, floatRepr: real -> string, n: string): map<string, Row> {
    match JobByName(jobs, n)
    case Some(j) => KeyBy(RecordsOf(detected, n), GroupKeyOf(j.groupFields, floatRepr))
    case None => map[]
  }

  /**
   * The detected test anomalies by job, from the (alert name, record)
   * rows of the test anomalies file; every job must be registered.
   */
  function DetectedTest(jobs: seq<Job>, detected: seq<(string, Row)>, floatRepr: real -> string)
    : (r: Result<map<string, map<string, Row>>, DiagError>)
    ensures r.Ok? <==> forall i :: 0 <= i < |detected| ==> RegisteredAlert(jobs, detected[i])
    ensures r.Ok? ==> r.value.Keys == JobsNamed(detected)
    ensures r.Ok? ==> forall n :: n in r.value ==> r.value[n] == DetectedOf(jobs, detected, floatRepr, n)
  {
    match CheckAlerts(jobs, detected)
    case Some(e) => Err(e)
    case None => Ok(map n | n in JobsNamed(detected) :: DetectedOf(jobs, detected, floatRepr, n))
  }

  /** Every job of the detected anomalies is registered. */
  lemma DetectedJobsRegistered(jobs: seq<Job>, detected: seq<(string, Row)>, floatRepr: real -> string, n: string)
    requires DetectedTest(jobs, detected, floatRepr).Ok?
    requires n in DetectedTest(jobs, detected, floatRepr).value
    ensures JobByName(jobs, n).Some?
  {
    NamedJobsRegistered(jobs, detected, n);
  }

  // ---- _report_job_statistics -------------------------------------------------

  /** One job's line of the test report. */
  datatype JobStats = JobStats(
    name: string, tp: nat, fp: nat, fn: nat,
    precision: real, recall: real, f1: real, tolerance: real, success: bool)

  datatype TestReport = TestReport(jobs: seq<JobStats>, success: bool)

  /** `|A ∩ B| + |B - A| == |B|`. */
  lemma SplitCount(a: set<string>, b: set<string>)
    ensures |a * b| + |b - a| == |b|
  {
    assert (a * b) + (b - a) == b;
    assert (a * b) * (b - a) == {};
  }

  /** The statistics of one job from its labelled keys `test` and its detected keys `detected`. */
  function StatsOf(name: string, tolerance: real, test: set<string>, detected: set<string>): (r: Result<JobStats, DiagError>)
    ensures r.Ok? <==> |test| > 0 && |detected| > 0
    ensures r.Ok? ==> r.value.name == name && r.value.tolerance == tolerance
    ensures r.Ok? ==> r.value.tp + r.value.fn == |test| && r.value.tp + r.value.fp == |detected|
    ensures r.Ok? ==> r.value.tp == |detected * test| && r.value.fp == |detected - test| && r.value.fn == |test - detected|
    ensures r.Ok? ==> r.value.precision * (|detected| as real) == r.value.tp as real
    ensures r.Ok? ==> r.value.recall * (|test| as real) == r.value.tp as real
    ensures r.Ok? ==> r.value.f1 * ((|test| + |detected|) as real) == 2.0 * r.value.tp as real
    ensures r.Ok? ==> 0.0 <= r.value.f1 <= 1.0
    ensures r.Ok? ==> (r.value.success <==> r.value.f1 >= tolerance)
  {
    SplitCount(detected, test);
    SplitCount(test, detected);
    assert detected * test == test * detected;
    var tp := |detected * test|;
    var fn := |test - detected|;
    var fp := |detected - test|;
    if tp + fp == 0 || tp + fn == 0 then Err(ZeroDivisionError)
    else
      var f1 := (2 * tp) as real / (2 * tp + fp + fn) as real;
      FractionAtMostOne((2 * tp) as real, (2 * tp + fp + fn) as real);
      Ok(JobStats(name, tp, fp, fn, tp as real / (tp + fp) as real, tp as real / (tp + fn) as real, f1, tolerance, f1 >= tolerance))
  }

  lemma FractionAtMostOne(a: real, b: real)
    requires 0.0 <= a <= b && b > 0.0
    ensures 0.0 <= a / b <= 1.0
  {
    assert a / b * b == a;
  }

  /** F1 is the harmonic mean of precision and recall whenever something was found correctly. */
  lemma F1HarmonicMean(s: JobStats, name: string, tolerance: real, test: set<string>, detected: set<string>)
    requires StatsOf(name, tolerance, test, detected) == Ok(s) && s.tp > 0
    ensures s.f1 * (s.precision + s.recall) == 2.0 * s.precision * s.recall
  {
    var tp := s.tp as real;
    var d := (s.tp + s.fp) as real;
    var t := (s.tp + s.fn) as real;
    assert s.precision == tp / d && s.recall == tp / t;
    assert s.f1 == 2.0 * tp / (d + t);
    calc {
      s.f1 * (s.precision + s.recall);
      2.0 * tp / (d + t) * (tp / d + tp / t);
      { assert tp / d + tp / t == tp * (d + t) / (d * t); }
      2.0 * tp / (d + t) * (tp * (d + t) / (d * t));
      2.0 * tp * tp / (d * t);
      2.0 * (tp / d) * (tp / t);
    }
  }

  /** `s` is the statistics line of its job: registered, labelled, detected, and scored against its tolerance. */
  predicate Reported(jobs: seq<Job>, test: map<string, map<string, Row>>, detected: map<string, map<string, Row>>, s: JobStats) {
    JobByName(jobs, s.name).Some? && s.name in test && s.name in detected
    && StatsOf(s.name, JobByName(jobs, s.name).value.tolerance, test[s.name].Keys, detected[s.name].Keys) == Ok(s)
  }

  /**
   * The per-job loop: each labelled job is registered; jobs without
   * detections are skipped; the others get their statistics, in the
   * order of the test datasets.
   */
  function EachJob(jobs: seq<Job>, order: seq<string>, test: map<string, map<string, Row>>,
                   detected: map<string, map<string, Row>>): (r: Result<seq<JobStats>, DiagError>)
    requires forall n :: n in order ==> n in test
    ensures r.Ok? ==> forall n :: n in order ==> JobByName(jobs, n).Some?
    ensures r.Ok? ==> |r.value| <= |order|
    ensures r.Ok? ==> forall s :: s in r.value ==> s.name in order && s.name in detected
    decreases |order|
  {
    if |order| == 0 then Ok([])
    else
      var n := order[0];
      assert forall x :: x in order <==> x == n || x in order[1..];
      match JobByName(jobs, n)
      case None => Err(AssertionError)
      case Some(j) =>
        if n !in detected then EachJob(jobs, order[1..], test, detected)
        else if n == "dga" then Err(DgaNotModelled)
        else
          match StatsOf(n, j.tolerance, test[n].Keys, detected[n].Keys)
          case Err(e) => Err(e)
          case Ok(s) =>
            match EachJob(jobs, order[1..], test, detected)
            case Err(e) => Err(e)
            case Ok(rest) => Ok([s] + rest)
  }

  /** Every line of the loop is its job's statistics, and every labelled job with detections has a line. */
  lemma {:induction false} EachJobReports(jobs: seq<Job>, order: seq<string>, test: map<string, map<string, Row>>,
                                          detected: map<string, map<string, Row>>)
    requires forall n :: n in order ==> n in test
    requires EachJob(jobs, order, test, detected).Ok?
    ensures forall s :: s in EachJob(jobs, order, test, detected).value ==> Reported(jobs, test, detected, s)
    ensures forall n :: n in order && n in detected ==> exists s :: s in EachJob(jobs, order, test, detected).value && s.name == n
    decreases |order|
  {
    if |order| > 0 {
      var n := order[0];
      assert forall x :: x in order <==> x == n || x in order[1..];
      EachJobReports(jobs, order[1..], test, detected);
      var rest := EachJob(jobs, order[1..], test, detected).value;
      if n in detected {
        var j := JobByName(jobs, n).value;
        var s := StatsOf(n, j.tolerance, test[n].Keys, detected[n].Keys).value;
        assert EachJob(jobs, order, test, detected).value == [s] + rest;
        assert Reported(jobs, test, detected, s);
      }
    }
  }

  /**
   * `_report_job_statistics(test, detected)` over the test datasets in
   * `order`: every detected job must have a test dataset; the verdict
   * is that every reported job succeeds, which holds vacuously.
   */
  function ReportJobStatistics(jobs: seq<Job>, order: seq<string>, test: map<string, map<string, Row>>,
                               detected: map<string, map<string, Row>>): (r: Result<TestReport, DiagError>)
    requires forall n :: n in order <==> n in test
    ensures (exists n :: n in detected && n !in test) ==> r == Err(AssertionError)
    ensures r.Ok? ==> forall n :: n in order ==> JobByName(jobs, n).Some?
    ensures r.Ok? ==> forall s :: s in r.value.jobs ==> Reported(jobs, test, detected, s)
    ensures r.Ok? ==> forall n :: n in detected ==> exists s :: s in r.value.jobs && s.name == n
    ensures r.Ok? ==> (r.value.success <==> forall s :: s in r.value.jobs ==> s.success)
  {
    if exists n :: n in detected && n !in test then Err(AssertionError)
    else
      match EachJob(jobs, order, test, detected)
      case Err(e) => Err(e)
      case Ok(stats) =>
        EachJobReports(jobs, order, test, detected);
        Ok(TestReport(stats, forall s :: s in stats ==> s.success))
  }

  /** Nothing detected: no job is reported and the test cycle succeeds. */
  lemma {:induction false} NothingDetectedSucceeds(jobs: seq<Job>, order: seq<string>, test: map<string, map<string, Row>>)
    requires forall n :: n in order <==> n in test
    requires forall n :: n in order ==> JobByName(jobs, n).Some?
    ensures ReportJobStatistics(jobs, order, test, map[]) == Ok(TestReport([], true))
  {
    NothingDetectedEach(jobs, order, test);
  }

  lemma {:induction false} NothingDetectedEach(jobs: seq<Job>, order: seq<string>, test: map<string, map<string, Row>>)
    requires forall n :: n in order ==> n in test
    requires forall n :: n in order ==> JobByName(jobs, n).Some?
    ensures EachJob(jobs, order, test, map[]) == Ok([])
    decreases |order|
  {
    if |order| > 0 {
      assert order[0] in order;
      NothingDetectedEach(jobs, order[1..], test);
    }
  }

  /** One hit and one false alarm against one label: F1 = 2/3, below the l7_latency tolerance. */
  lemma OneHitOneFalseAlarm()
    ensures StatsOf("l7_latency", 0.85, {"a"}, {"a", "x"}).Ok?
    ensures StatsOf("l7_latency", 0.85, {"a"}, {"a", "x"}).value.f1 == 2.0 / 3.0
    ensures !StatsOf("l7_latency", 0.85, {"a"}, {"a", "x"}).value.success
  {
    assert {"a", "x"} * {"a"} == {"a"};
    assert {"a", "x"} - {"a"} == {"x"};
    assert {"a"} - {"a", "x"} == {};
  }

  /**
   * The rewrite reaches text the record merely contains: a detected
   * anomaly in namespace `finance` comes back as `fiNonece`, so against
   * its own label it counts as one false alarm and one miss, and F1 is 0.
   */
  lemma NanInTextMissesLabel(floatRepr: real -> string)
    ensures RecordsOf([("ph.j", [("ns", VStr("finance"))])], "j") == [[("ns", VStr("fiNonece"))]]
    ensures GroupKey([("ns", VStr("finance"))], ["ns"], floatRepr) == "finance"
    ensures GroupKey([("ns", VStr("fiNonece"))], ["ns"], floatRepr) == "fiNonece"
    ensures StatsOf("j", 0.5, {"finance"}, {"fiNonece"}).Ok?
    ensures var st := StatsOf("j", 0.5, {"finance"}, {"fiNonece"}).value; st.tp == 0 && st.fp == 1 && st.fn == 1 && st.f1 == 0.0
  {
    PhJob();
    FinanceRewritten();
    var row := [("ns", VStr("finance"))];
    assert EvalRewritten(row)[0] == ("ns", VStr("fiNonece"));
    assert EvalRewritten(row) == [("ns", VStr("fiNonece"))];
    assert [("ph.j", row)][1..] == [];
    assert RecordsOf([("ph.j", row)], "j") == [EvalRewritten(row)] + RecordsOf([], "j");
    OneMissOneFalseAlarm();
  }

  /** `'finance'.replace('nan', 'None')` is `fiNonece`. */
  lemma FinanceRewritten()
    ensures Replace("finance", "nan", "None") == "fiNonece"
  {
    assert "finance"[..3][0] == 'f' && "finance"[1..] == "inance";
    assert "inance"[..3][0] == 'i' && "inance"[1..] == "nance";
    assert "nance"[..3] == "nan" && "nance"[3..] == "ce";
    assert Replace("ce", "nan", "None") == "ce";
  }

  /** A label that was not detected and a detection that was not labelled: F1 is 0. */
  lemma OneMissOneFalseAlarm()
    ensures StatsOf("j", 0.5, {"finance"}, {"fiNonece"}).Ok?
    ensures var st := StatsOf("j", 0.5, {"finance"}, {"fiNonece"}).value; st.tp == 0 && st.fp == 1 && st.fn == 1 && st.f1 == 0.0
  {
    assert {"fiNonece"} * {"finance"} == {};
    assert {"fiNonece"} - {"finance"} == {"fiNonece"};
    assert {"finance"} - {"fiNonece"} == {"finance"};
  }

  /** A NaN group value is labelled `nan` but detected as None: the same row gets two keys. */
  lemma NanValueMissesLabel(floatRepr: real -> string)
    ensures RecordsOf([("ph.j", [("ns", VNaN)])], "j") == [[("ns", VNone)]]
    ensures GroupKey([("ns", VNaN)], ["ns"], floatRepr) == "nan"
    ensures GroupKey([("ns", VNone)], ["ns"], floatRepr) == "None"
  {
    PhJob();
    var row := [("ns", VNaN)];
    assert EvalRewritten(row)[0] == ("ns", VNone);
    assert EvalRewritten(row) == [("ns", VNone)];
    assert [("ph.j", row)][1..] == [];
    assert RecordsOf([("ph.j", row)], "j") == [EvalRewritten(row)] + RecordsOf([], "j");
  }

  /** The alert name `ph.j` names the job `j`. */
  lemma PhJob()
    ensures Component("ph.j", '.', 1) == Some("j")
  {
    assert "ph.j" == "ph" + ['.'] + "j";
    SplitSeparated("ph", "j", '.');
    SplitNoSeparator("j", '.');
  }

  // ---- output_self_diagnostics_report ---------------------------------------

  /** The whole report: the test cycle, the live cycle, and the overall verdict. */
  datatype TotalReport = TotalReport(tests: TestReport, live: AlertReport, success: bool)

  /** The report, the history after it was saved, and whether the captured exception is raised again. */
  datatype DiagOutcome = DiagOutcome(report: TotalReport, history: History.Store<TotalReport>, raises: bool)

  /**
   * The inputs the report reads from files: datasets by job, the test
   * anomalies file and the live anomalies file, each None when the file
   * does not exist (saving no anomalies removes the file).
   */
  datatype DiagFiles = DiagFiles(datasets: map<string, seq<Row>>, detectedTest: Option<seq<(string, Row)>>, live: Option<seq<Alert>>)

  /**
   * `output_self_diagnostics_report(exc, id)`: the verdict is success
   * exactly when both cycles succeed; an exception fails the live cycle
   * with its text, and is raised only after the report is saved.
   */
  function OutputReport(jobs: seq<Job>, files: DiagFiles, exc: Option<string>, history: History.Store<TotalReport>,
                        id: Option<string>, retention: int, now: string, freshId: string, floatRepr: real -> string)
    : (r: Result<DiagOutcome, DiagError>)
    ensures r.Ok? ==> (r.value.report.success <==> r.value.report.tests.success && Succeeded(r.value.report.live))
    ensures r.Ok? ==> r.value.raises == exc.Some?
    ensures r.Ok? && exc.Some? ==> r.value.report.live == Failed("Exception: " + exc.value) && !r.value.report.success
    ensures r.Ok? && exc.None? ==> r.value.report.live.Counted?
    ensures files.detectedTest.None? ==> r.Err?
    ensures r.Ok? ==>
      var log := History.Log(r.value.history, "self_diagnostics");
      |log| > 0 && log[|log| - 1].job == "all" && log[|log| - 1].result == r.value.report
  {
    match TestCycle(jobs, files.datasets, files.detectedTest, floatRepr)
    case Err(e) => Err(e)
    case Ok(tests) =>
      match LiveReport(exc, files.live)
      case Err(e) => Err(e)
      case Ok(live) =>
        var total := TotalReport(tests, live, tests.success && Succeeded(live));
        Ok(DiagOutcome(total, SaveReport(history, total, id, retention, now, freshId), exc.Some?))
  }

  /**
   * The test cycle's report: the labelled and the detected anomalies,
   * compared job by job in the order of the registry.
   */
  function TestCycle(jobs: seq<Job>, datasets: map<string, seq<Row>>, detectedTest: Option<seq<(string, Row)>>,
                     floatRepr: real -> string): (r: Result<TestReport, DiagError>)
    ensures r.Ok? ==> (r.value.success <==> forall s :: s in r.value.jobs ==> s.success)
    ensures r.Ok? ==> detectedTest.Some? && forall i :: 0 <= i < |detectedTest.value| ==> RegisteredAlert(jobs, detectedTest.value[i])
    ensures TestAnomalies(jobs, datasets, floatRepr).Err? ==> r == Err(TestAnomalies(jobs, datasets, floatRepr).error)
    ensures TestAnomalies(jobs, datasets, floatRepr).Ok? && detectedTest.None? ==> r == Err(FileNotFoundError)
  {
    match TestAnomalies(jobs, datasets, floatRepr)
    case Err(e) => Err(e)
    case Ok(test) =>
      if detectedTest.None? then Err(FileNotFoundError) else
      match DetectedTest(jobs, detectedTest.value, floatRepr)
      case Err(e) => Err(e)
      case Ok(detected) =>
        var order := Dedup(Jobnames(jobs));
        OrderIsTestJobs(jobs, test);
        ReportJobStatistics(jobs, order, test, detected)
  }

  /** The registry's names, without repeats, are the jobs of the labelled anomalies. */
  lemma OrderIsTestJobs(jobs: seq<Job>, test: map<string, map<string, Row>>)
    requires forall j :: j in jobs ==> j.name in test
    requires forall n :: n in test ==> exists j :: j in jobs && j.name == n
    ensures forall n :: n in Dedup(Jobnames(jobs)) <==> n in test
  {
    forall n ensures n in Dedup(Jobnames(jobs)) <==> n in test {
      if n in test {
        var j :| j in jobs && j.name == n;
        var i :| 0 <= i < |jobs| && jobs[i] == j;
        assert Jobnames(jobs)[i] == n;
      }
    }
  }

  /** The live cycle's report: the exception's text when one was captured, else the counts of the live alerts (none when there is no file). */
  function LiveReport(exc: Option<string>, live: Option<seq<Alert>>): (r: Result<AlertReport, DiagError>)
    ensures exc.Some? ==> r == Ok(Failed("Exception: " + exc.value))
    ensures exc.None? ==> r == FormatAllDetected(live.GetOr([]), true)
    ensures exc.None? && live.None? ==> r == Ok(Counted([], true))
  {
    if exc.Some? then Ok(Failed("Exception: " + exc.value))
    else FormatAllDetected(live.GetOr([]), true)
  }

  /** `save_json_in_line('self_diagnostics', job='all', js=report, id=id)`, with the retention number as configured. */
  function SaveReport(history: History.Store<TotalReport>, total: TotalReport, id: Option<string>,
                      retention: int, now: string, freshId: string): (h: History.Store<TotalReport>)
    ensures
      var log := History.Log(h, "self_diagnostics");
      |log| > 0 && log[|log| - 1].job == "all" && log[|log| - 1].result == total
    ensures var log := History.Log(h, "self_diagnostics"); log[|log| - 1].id == History.ChosenId(id, freshId)
  {
    var saved := History.SaveAsWritten(history, "self_diagnostics", "all", total, id, retention, now, freshId);
    assert History.Log(saved.1, "self_diagnostics") == saved.1["self_diagnostics"];
    saved.1
  }

  /** The names of the jobs, in registry order. */
  function Jobnames(jobs: seq<Job>): (r: seq<string>)
    ensures |r| == |jobs| && forall i :: 0 <= i < |jobs| ==> r[i] == jobs[i].name
  {
    seq(|jobs|, i requires 0 <= i < |jobs| => jobs[i].name)
  }
}
