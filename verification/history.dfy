/**
 * The history store of ph/history_storage.py: one append log per
 * operation name, each entry an (id, time, job, result) record, trimmed
 * to a retention number on every save, read back by id, by Python index
 * or as the latest entry.
 *
 * A missing log file and an empty one read the same way, so the store is
 * a map from operation name to a sequence (an absent name is a missing
 * file). The clock and the uuid generator are parameters.
 */
module History {
  import opened Wrappers
  import opened Text

  /** `PH_HISTORY_RETENTION_NUMBER` when the environment does not set it. */
  const DefaultRetention: int := 100

  /** One line of a log; `result` is the saved payload. */
  datatype Entry<P> = Entry(id: string, time: string, job: string, result: P)

  type Store<P> = map<string, seq<Entry<P>>>

  /** The log of operation `op`; a missing file reads as empty. */
  function Log<P>(store: Store<P>, op: string): seq<Entry<P>> {
    if op in store then store[op] else []
  }

  // ---- Python slicing and indexing ----------------------------------------

  /** Python's `xs[k:]` for any int `k`. */
  function PyDrop<T>(xs: seq<T>, k: int): (r: seq<T>)
    ensures k >= 0 ==> r == xs[if k <= |xs| then k else |xs|..]
    ensures k < 0 ==> r == xs[if |xs| + k >= 0 then |xs| + k else 0..]
  {
    var start := if k < 0 then (if |xs| + k >= 0 then |xs| + k else 0) else (if k <= |xs| then k else |xs|);
    xs[start..]
  }

  /** Python's `xs[k]`, or None where Python raises IndexError. */
  function PyIndex<T>(xs: seq<T>, k: int): (r: Option<T>)
    ensures r.Some? <==> -|xs| <= k < |xs|
    ensures 0 <= k < |xs| ==> r == Some(xs[k])
    ensures -|xs| <= k < 0 ==> r == Some(xs[|xs| + k])
  {
    if 0 <= k < |xs| then Some(xs[k])
    else if -|xs| <= k < 0 then Some(xs[|xs| + k])
    else None
  }

  // ---- save_json_in_line ----------------------------------------------------

  /** The old entries kept by a save, as written: `xs[-N:]` once the log holds at least N. */
  function RetainAsWritten<T>(xs: seq<T>, retention: int): seq<T> {
    if |xs| > 0 && |xs| >= retention then PyDrop(xs, -retention) else xs
  }

  /**
   * The old entries kept by a save, as intended: the newest `retention`
   * of them (all of them when there are fewer).
   */
  function Retain<T>(xs: seq<T>, retention: nat): (r: seq<T>)
    ensures |r| == if |xs| < retention then |xs| else retention
    ensures r == xs[|xs| - |r|..]
  {
    if |xs| >= retention then xs[|xs| - retention..] else xs
  }

  /** The id a save stores: the one supplied when non-empty, else a fresh one. */
  function ChosenId(id: Option<string>, freshId: string): string {
    if id.Some? && id.value != "" then id.value else freshId
  }

  /**
   * `save_json_in_line(op, job, js, id)` with the intended retention:
   * returns the stored id and the new store.
   */
  function Save<P>(store: Store<P>, op: string, job: string, js: P, id: Option<string>,
                   retention: nat, now: string, freshId: string): (r: (string, Store<P>))
    ensures r.0 == (if id.Some? && id.value != "" then id.value else freshId)
    ensures op in r.1 && r.1.Keys == store.Keys + {op}
    ensures forall o :: o in store && o != op ==> r.1[o] == store[o]
    ensures var old_ := Log(store, op); var log := r.1[op];
      && |log| == (if |old_| < retention then |old_| else retention) + 1
      && log[|log| - 1] == Entry(r.0, now, job, js)
      && log[..|log| - 1] == old_[|old_| - (|log| - 1)..]
  {
    var rid := ChosenId(id, freshId);
    var kept := Retain(Log(store, op), retention);
    var log := kept + [Entry(rid, now, job, js)];
    assert log[..|log| - 1] == kept;
    (rid, store[op := log])
  }

  /** `save_json_in_line` as written, with Python's `xs[-N:]` for any int N. */
  function SaveAsWritten<P>(store: Store<P>, op: string, job: string, js: P, id: Option<string>,
                            retention: int, now: string, freshId: string): (r: (string, Store<P>))
    ensures r.0 == ChosenId(id, freshId)
    ensures op in r.1 && |r.1[op]| > 0 && r.1[op][|r.1[op]| - 1] == Entry(r.0, now, job, js)
  {
    var rid := ChosenId(id, freshId);
    (rid, store[op := RetainAsWritten(Log(store, op), retention) + [Entry(rid, now, job, js)]])
  }

  /** For every positive retention number the save as written is the intended one. */
  lemma SaveAsWrittenPositive<P>(store: Store<P>, op: string, job: string, js: P, id: Option<string>,
                                 retention: int, now: string, freshId: string)
    requires retention >= 1
    ensures SaveAsWritten(store, op, job, js, id, retention, now, freshId)
         == Save(store, op, job, js, id, retention, now, freshId)
  {
  }

  /**
   * With a retention number of 0, `xs[-0:]` is the whole list: the log
   * is never trimmed, where the intended save keeps only the new entry.
   */
  lemma RetentionZeroKeepsAll(e1: Entry<int>, e2: Entry<int>)
    ensures var store := map["op" := [e1, e2]];
      && |SaveAsWritten(store, "op", "j", 0, Some("x"), 0, "t", "u").1["op"]| == 3
      && |Save(store, "op", "j", 0, Some("x"), 0, "t", "u").1["op"]| == 1
  {
    assert PyDrop([e1, e2], -0) == [e1, e2];
  }

  // ---- read_job_jsons ---------------------------------------------------------

  /** `read_job_jsons(op, job)`: every entry when `job` is None or empty, else those of `job`. */
  function ReadJobs<P(!new)>(store: Store<P>, op: string, job: Option<string>): (r: seq<Entry<P>>)
    ensures job.None? || job.value == "" ==> r == Log(store, op)
    ensures job.Some? && job.value != "" ==>
      forall e :: e in r <==> e in Log(store, op) && e.job == job.value
    ensures |r| <= |Log(store, op)|
  {
    var log := Log(store, op);
    if job.None? || job.value == "" then log
    else Filter(log, job.value)
  }

  function Filter<P(!new)>(log: seq<Entry<P>>, job: string): (r: seq<Entry<P>>)
    ensures forall e :: e in r <==> e in log && e.job == job
    ensures |r| <= |log|
    decreases |log|
  {
    if |log| == 0 then []
    else (if log[0].job == job then [log[0]] else []) + Filter(log[1..], job)
  }

  /** Filtering keeps the log's order: filtering after an append appends or does nothing. */
  lemma {:induction false} FilterAppend<P(!new)>(log: seq<Entry<P>>, e: Entry<P>, job: string)
    ensures Filter(log + [e], job) == Filter(log, job) + (if e.job == job then [e] else [])
    decreases |log|
  {
    var l := log + [e];
    if |log| == 0 {
      assert l == [e];
      assert Filter(l, job) == (if e.job == job then [e] else []) + Filter([], job);
    } else {
      assert l[0] == log[0];
      assert l[1..] == log[1..] + [e];
      FilterAppend(log[1..], e, job);
      var h := if log[0].job == job then [log[0]] else [];
      assert Filter(l, job) == h + Filter(l[1..], job);
      assert Filter(log, job) == h + Filter(log[1..], job);
    }
  }

  // ---- read_id_json -----------------------------------------------------------

  datatype ReadError = ValueError | IndexError

  /** `str(id).lstrip('-+').isnumeric()`, for decimal digits. */
  predicate LooksNumeric(id: string) {
    var t := LStripSigns(id);
    |t| > 0 && AllDigits(t)
  }

  /** Position of the first entry whose id is `id`. */
  function FirstIdMatch<P>(log: seq<Entry<P>>, id: string): (r: Option<nat>)
    ensures r.Some? ==> r.value < |log| && log[r.value].id == id
    ensures r.Some? ==> forall j :: 0 <= j < r.value ==> log[j].id != id
    ensures r.None? ==> forall j :: 0 <= j < |log| ==> log[j].id != id
    decreases |log|
  {
    if |log| == 0 then None
    else if log[0].id == id then Some(0)
    else
      match FirstIdMatch(log[1..], id)
      case Some(k) => Some(k + 1)
      case None => None
  }

  /**
   * `read_id_json(op, id)` as written. None is the empty answer `{}`.
   * The numeric test and `int(id)` come before the search by id, so an id
   * that passes the test but is not a Python int literal (two signs, as
   * in "--1") raises ValueError even when an entry carries exactly that id.
   */
  function ReadIdAsWritten<P>(store: Store<P>, op: string, id: string): (r: Result<Option<Entry<P>>, ReadError>)
    ensures Log(store, op) == [] ==> r == Ok(None)
  {
    var log := Log(store, op);
    if log == [] then Ok(None)
    else if LooksNumeric(id) && PyInt(id).None? then Err(ValueError)
    else
      var back := if LooksNumeric(id) then PyInt(id).value else -1;
      match FirstIdMatch(log, id)
      case Some(k) => Ok(Some(log[k]))
      case None =>
        match PyIndex(log, back)
        case Some(e) => Ok(Some(e))
        case None => Err(IndexError)
  }

  /**
   * `read_id_json(op, id)` as intended: an entry with that id first; then
   * an int id as a Python index; any other id gives the latest entry.
   */
  function ReadId<P>(store: Store<P>, op: string, id: string): (r: Result<Option<Entry<P>>, ReadError>)
    ensures Log(store, op) == [] ==> r == Ok(None)
    ensures r.Err? ==> r.error == IndexError
    ensures var log := Log(store, op);
      forall k :: 0 <= k < |log| && log[k].id == id && (forall j :: 0 <= j < k ==> log[j].id != id)
        ==> r == Ok(Some(log[k]))
    ensures var log := Log(store, op);
      log != [] && (forall j :: 0 <= j < |log| ==> log[j].id != id) && LooksNumeric(id) && PyInt(id).Some? ==>
        && (r.Ok? <==> -|log| <= PyInt(id).value < |log|)
        && (r.Ok? ==> r == Ok(PyIndex(log, PyInt(id).value)))
    ensures var log := Log(store, op);
      log != [] && (forall j :: 0 <= j < |log| ==> log[j].id != id) && !(LooksNumeric(id) && PyInt(id).Some?) ==>
        r == Ok(Some(log[|log| - 1]))
  {
    var log := Log(store, op);
    if log == [] then Ok(None)
    else
      match FirstIdMatch(log, id)
      case Some(k) => Ok(Some(log[k]))
      case None =>
        var back := if LooksNumeric(id) && PyInt(id).Some? then PyInt(id).value else -1;
        match PyIndex(log, back)
        case Some(e) => Ok(Some(e))
        case None => Err(IndexError)
  }

  /** Wherever the read as written answers without ValueError, it answers as intended. */
  lemma ReadIdAsWrittenAgrees<P>(store: Store<P>, op: string, id: string)
    requires ReadIdAsWritten(store, op, id) != Err(ValueError)
    ensures ReadIdAsWritten(store, op, id) == ReadId(store, op, id)
  {
  }

  lemma StripSign(s: string)
    requires |s| > 0 && (s[0] == '-' || s[0] == '+')
    ensures LStripSigns(s) == LStripSigns(s[1..])
  {
  }

  lemma StripNothing(s: string)
    requires |s| > 0 && IsDigit(s[0])
    ensures LStripSigns(s) == s
  {
  }

  /** "--1" passes the numeric test once both signs are stripped. */
  lemma DoubleSignLooksNumeric()
    ensures LooksNumeric("--1")
  {
    var id := "--1";
    assert |id| == 3 && id[0] == '-' && id[1] == '-' && id[2] == '1';
    var tail := id[1..];
    assert |tail| == 2 && tail[0] == '-' && tail[1] == '1';
    var one := tail[1..];
    assert |one| == 1 && one[0] == '1';
    StripSign(id);
    StripSign(tail);
    StripNothing(one);
    assert AllDigits(one);
  }

  /** ... but `int("--1")` raises. */
  lemma DoubleSignNoInt()
    ensures PyInt("--1").None?
  {
    var id := "--1";
    assert |id| == 3 && id[0] == '-' && id[1] == '-';
    var tail := id[1..];
    assert |tail| == 2 && tail[0] == '-';
    assert !IsDigit(tail[0]) && !IsDigit(id[0]);
    assert !AllDigits(tail) && !AllDigits(id);
  }

  lemma DoubleSignId()
    ensures LooksNumeric("--1") && PyInt("--1").None?
  {
    DoubleSignLooksNumeric();
    DoubleSignNoInt();
  }

  /** "-1", the default id of a read, is the Python index of the latest entry. */
  lemma MinusOneId()
    ensures LooksNumeric("-1") && PyInt("-1") == Some(-1)
  {
    var id := "-1";
    assert |id| == 2 && id[0] == '-' && id[1] == '1';
    var one := id[1..];
    assert |one| == 1 && one[0] == '1';
    StripSign(id);
    StripNothing(one);
    assert AllDigits(one);
    assert one[..0] == [];
    assert DigitsValue(one) == 1;
  }

  /** An entry stored under the id "--1" cannot be read back by that id as written. */
  lemma DoubleSignIdRaises<P>(store: Store<P>, op: string, e: Entry<P>)
    requires e.id == "--1" && Log(store, op) == [e]
    ensures ReadIdAsWritten(store, op, e.id) == Err(ValueError)
    ensures ReadId(store, op, e.id) == Ok(Some(e))
  {
    DoubleSignId();
    assert FirstIdMatch([e], e.id) == Some(0);
  }

  /**
   * Save, then read by the id the save returned: the new entry comes back,
   * provided no older surviving entry has the same id.
   */
  lemma SaveThenRead<P>(store: Store<P>, op: string, job: string, js: P, id: Option<string>,
                        retention: nat, now: string, freshId: string)
    requires forall e :: e in Log(store, op) ==> e.id != ChosenId(id, freshId)
    ensures var (rid, s) := Save(store, op, job, js, id, retention, now, freshId);
      ReadId(s, op, rid) == Ok(Some(Entry(rid, now, job, js)))
  {
    var (rid, s) := Save(store, op, job, js, id, retention, now, freshId);
    var log := s[op];
    forall j | 0 <= j < |log| - 1 ensures log[j].id != rid {
      assert log[j] == log[..|log| - 1][j];
      assert log[j] in Log(store, op);
    }
  }

  /** After a save, the latest entry (index -1, the default read) is the new one. */
  lemma SaveThenReadLatest<P>(store: Store<P>, op: string, job: string, js: P, id: Option<string>,
                              retention: nat, now: string, freshId: string)
    requires forall e :: e in Log(store, op) ==> e.id != "-1"
    requires ChosenId(id, freshId) != "-1"
    ensures var (rid, s) := Save(store, op, job, js, id, retention, now, freshId);
      ReadId(s, op, "-1") == Ok(Some(Entry(rid, now, job, js)))
  {
    var (rid, s) := Save(store, op, job, js, id, retention, now, freshId);
    var log := s[op];
    forall j | 0 <= j < |log| ensures log[j].id != "-1" {
      if j < |log| - 1 {
        assert log[j] == log[..|log| - 1][j];
        assert log[j] in Log(store, op);
      }
    }
    MinusOneId();
    assert FirstIdMatch(log, "-1") == None;
    assert PyIndex(log, -1) == Some(log[|log| - 1]);
  }

  /** A save for a job shows up last among that job's entries. */
  lemma SaveThenReadJobs<P(!new)>(store: Store<P>, op: string, job: string, js: P, id: Option<string>,
                            retention: nat, now: string, freshId: string)
    requires job != ""
    ensures var (rid, s) := Save(store, op, job, js, id, retention, now, freshId);
      var r := ReadJobs(s, op, Some(job));
      |r| > 0 && r[|r| - 1] == Entry(rid, now, job, js)
  {
    var (rid, s) := Save(store, op, job, js, id, retention, now, freshId);
    var log := s[op];
    assert log == log[..|log| - 1] + [log[|log| - 1]];
    FilterAppend(log[..|log| - 1], log[|log| - 1], job);
  }
}
