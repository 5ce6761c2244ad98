/**
 * The service loop of ph/ph.py: the two interval settings, the up-front
 * check of the required environment variables, the self-diagnostics
 * sequence and which of its exceptions are captured, and the per-minute
 * dispatch rule that numbers the training and detection cycles.
 *
 * The clock is a sequence of tick times (epoch seconds after `int()`);
 * starting a process is recorded as a dispatch; sleeping is left out.
 */
module Scheduler {
  import opened Wrappers
  import opened Text
  import opened Values

  // ---- settings -------------------------------------------------------------

  const DefaultTrainInterval: int := 1440
  const DefaultSearchInterval: int := 30

  /** `PH_train_interval_minutes` and `PH_search_interval_minutes`. */
  datatype Intervals = Intervals(train: int, search: int)

  datatype StartError =
    | ValueError                                             // an interval setting that is not an int
    | InvalidEnv(missing: seq<string>, wrongType: seq<string>)  // the check of the required variables failed
    | Raised(message: string)                                // an exception escaping the self-diagnostics
    | ZeroDivisionError                                      // an interval of 0 at the first tick

  /** `int(os.getenv(name, default))`: the default when unset, else the text as an int. */
  function IntSetting(env: Env, name: string, default: int): (r: Option<int>)
    ensures name !in env ==> r == Some(default)
    ensures name in env ==> r == PyInt(env[name])
  {
    if name in env then PyInt(env[name]) else Some(default)
  }

  function ReadIntervals(env: Env): (r: Result<Intervals, StartError>)
    ensures r.Ok? <==> IntSetting(env, "PH_train_interval_minutes", DefaultTrainInterval).Some?
                       && IntSetting(env, "PH_search_interval_minutes", DefaultSearchInterval).Some?
    ensures r.Err? ==> r.error == ValueError
  {
    match (IntSetting(env, "PH_train_interval_minutes", DefaultTrainInterval),
           IntSetting(env, "PH_search_interval_minutes", DefaultSearchInterval))
    case (Some(t), Some(s)) => Ok(Intervals(t, s))
    case _ => Err(ValueError)
  }

  /** Unset, the service trains daily and searches every half hour; a setting written as `str(k)` reads back as k. */
  lemma IntervalSettings(env: Env, k: int)
    ensures "PH_train_interval_minutes" !in env && "PH_search_interval_minutes" !in env ==>
      ReadIntervals(env) == Ok(Intervals(1440, 30))
    ensures "PH_search_interval_minutes" !in env && env.Keys == {"PH_train_interval_minutes"}
            && env["PH_train_interval_minutes"] == IntToString(k) ==>
      ReadIntervals(env) == Ok(Intervals(k, 30))
  {
    IntToStringRoundTrip(k);
  }

  // ---- validate_env_variables -------------------------------------------------

  /** The variables the service cannot run without. */
  const RequiredVars: seq<string> := ["ELASTIC_USER", "ELASTIC_PASSWORD"]

  /** `not os.environ.get(name)`: unset or empty. */
  predicate Missing(env: Env, name: string) {
    name !in env || env[name] == ""
  }

  /** The names in `names` that are missing, in order. */
  function MissingOf(env: Env, names: seq<string>): (r: seq<string>)
    ensures forall n :: n in r <==> n in names && Missing(env, n)
    decreases |names|
  {
    if |names| == 0 then []
    else (if Missing(env, names[0]) then [names[0]] else []) + MissingOf(env, names[1..])
  }

  /** The typed variables that are present but whose text the type refuses, in order. */
  function WrongTypeOf(env: Env, typed: seq<(string, string -> bool)>): (r: seq<string>)
    ensures forall n :: n in r <==> exists p :: p in typed && p.0 == n && !Missing(env, n) && !p.1(env[n])
    decreases |typed|
  {
    if |typed| == 0 then []
    else
      var p := typed[0];
      assert forall q :: q in typed <==> q == p || q in typed[1..];
      (if !Missing(env, p.0) && !p.1(env[p.0]) then [p.0] else []) + WrongTypeOf(env, typed[1..])
  }

  function TypedNames(typed: seq<(string, string -> bool)>): (r: seq<string>)
    ensures |r| == |typed| && forall i :: 0 <= i < |typed| ==> r[i] == typed[i].0
  {
    seq(|typed|, i requires 0 <= i < |typed| => typed[i].0)
  }

  /**
   * `validate_env_variables()` with the required plain variables and the
   * typed ones (`accepts` says whether the type's constructor takes the
   * text): it fails exactly when some variable is missing or mistyped.
   */
  function ValidateEnv(env: Env, required: seq<string>, typed: seq<(string, string -> bool)>): (r: Result<(), StartError>)
    ensures r.Ok? <==>
      (forall n :: n in required ==> !Missing(env, n))
      && (forall p :: p in typed ==> !Missing(env, p.0) && p.1(env[p.0]))
    ensures r.Err? ==> r.error.InvalidEnv?
  {
    var missing := MissingOf(env, required) + MissingOf(env, TypedNames(typed));
    var wrong := WrongTypeOf(env, typed);
    if |missing| > 0 || |wrong| > 0 then
      assert |missing| > 0 ==> missing[0] in missing;
      assert |wrong| > 0 ==> wrong[0] in wrong;
      Err(InvalidEnv(missing, wrong))
    else
      assert forall p :: p in typed ==> !Missing(env, p.0) && p.1(env[p.0]) by {
        forall p | p in typed ensures !Missing(env, p.0) && p.1(env[p.0]) {
          TypedNameListed(typed, p);
          assert p.0 !in missing;
          assert p.0 !in wrong;
        }
      }
      Ok(())
  }

  lemma TypedNameListed(typed: seq<(string, string -> bool)>, p: (string, string -> bool))
    requires p in typed
    ensures p.0 in TypedNames(typed)
  {
    var i :| 0 <= i < |typed| && typed[i] == p;
    assert TypedNames(typed)[i] == p.0;
  }

  /** A failed check lists exactly the required and typed variables that are unset or empty. */
  lemma ValidateEnvMissing(env: Env, required: seq<string>, typed: seq<(string, string -> bool)>, n: string)
    requires ValidateEnv(env, required, typed).Err?
    ensures n in ValidateEnv(env, required, typed).error.missing <==>
      (n in required || n in TypedNames(typed)) && Missing(env, n)
  {
    assert ValidateEnv(env, required, typed).error.missing == MissingOf(env, required) + MissingOf(env, TypedNames(typed));
  }

  /** With the service's list, the check fails exactly when the user or the password is unset or empty. */
  lemma ValidateServiceEnv(env: Env)
    ensures ValidateEnv(env, RequiredVars, []).Ok? <==> !Missing(env, "ELASTIC_USER") && !Missing(env, "ELASTIC_PASSWORD")
  {
  }

  // ---- self_diagnostics ---------------------------------------------------------

  /** How one train or detect call ended. */
  datatype StepOutcome = Completed | Failed(connection: bool, message: string)

  /** The calls of `self_diagnostics`, each with cycle number 0. */
  datatype Step = FixtureTrain | FixtureFind | LiveTrain | LiveFind

  /** What the sequence ends in: an exception propagating, or the report with the captured exception, if any. */
  datatype DiagRun = DiagRun(ran: seq<Step>, result: Result<Option<string>, string>)

  /**
   * `self_diagnostics(lock)`: train and detect on the test datasets, then
   * on the live data; only a ConnectionError of the live calls is caught
   * and handed to the report; a call runs only when the one before it
   * completed.
   */
  function SelfDiagnosticsRun(fixtureTrain: StepOutcome, fixtureFind: StepOutcome,
                              liveTrain: StepOutcome, liveFind: StepOutcome): (r: DiagRun)
    ensures r.ran <= [FixtureTrain, FixtureFind, LiveTrain, LiveFind]
    ensures |r.ran| == 4 <==> fixtureTrain.Completed? && fixtureFind.Completed? && liveTrain.Completed?
    ensures r.result == Ok(None) <==> fixtureTrain.Completed? && fixtureFind.Completed? && liveTrain.Completed? && liveFind.Completed?
    ensures fixtureTrain.Failed? ==> r.result == Err(fixtureTrain.message)
    ensures fixtureTrain.Completed? && fixtureFind.Failed? ==> r.result == Err(fixtureFind.message)
    ensures r.result.Ok? && r.result.value.Some? ==>
      fixtureTrain.Completed? && fixtureFind.Completed?
      && ((liveTrain.Failed? && liveTrain.connection) || (liveTrain.Completed? && liveFind.Failed? && liveFind.connection))
  {
    if fixtureTrain.Failed? then DiagRun([FixtureTrain], Err(fixtureTrain.message))
    else if fixtureFind.Failed? then DiagRun([FixtureTrain, FixtureFind], Err(fixtureFind.message))
    else
      var live := Live(liveTrain, liveFind);
      DiagRun([FixtureTrain, FixtureFind] + live.ran, live.result)
  }

  /** The `try` around the live calls. */
  function Live(liveTrain: StepOutcome, liveFind: StepOutcome): (r: DiagRun)
    ensures r.ran == [LiveTrain] || r.ran == [LiveTrain, LiveFind]
    ensures r.ran == [LiveTrain, LiveFind] <==> liveTrain.Completed?
  {
    if liveTrain.Failed? then DiagRun([LiveTrain], if liveTrain.connection then Ok(Some(liveTrain.message)) else Err(liveTrain.message))
    else if liveFind.Failed? then DiagRun([LiveTrain, LiveFind], if liveFind.connection then Ok(Some(liveFind.message)) else Err(liveFind.message))
    else DiagRun([LiveTrain, LiveFind], Ok(None))
  }

  /** A failure other than a connection error is never captured: it propagates, whichever call raised it. */
  lemma OnlyConnectionErrorsCaptured(fixtureTrain: StepOutcome, fixtureFind: StepOutcome, liveTrain: StepOutcome, liveFind: StepOutcome)
    requires (fixtureTrain.Failed? && !fixtureTrain.connection) || (fixtureTrain.Completed? && fixtureFind.Failed?)
             || (fixtureTrain.Completed? && fixtureFind.Completed? && liveTrain.Failed? && !liveTrain.connection)
    ensures SelfDiagnosticsRun(fixtureTrain, fixtureFind, liveTrain, liveFind).result.Err?
  {
  }

  // ---- the dispatch loop ------------------------------------------------------------

  /** `int(a / b)` for ints: division truncated toward zero. */
  function TruncDiv(a: int, b: int): (q: int)
    requires b > 0
    ensures a >= 0 ==> q * b <= a < (q + 1) * b
    ensures a < 0 ==> (q - 1) * b < a <= q * b
  {
    if a >= 0 then a / b else -((-a) / b)
  }

  /** `int(int(now.timestamp()) / 60)`: whole minutes since the epoch, truncated toward zero. */
  function CurMinute(seconds: int): int {
    TruncDiv(seconds, 60)
  }

  /** `minute % interval == 0`: Python's floored remainder is 0 exactly when Dafny's is. */
  predicate Fires(minute: int, interval: int)
    requires interval != 0
  {
    minute % interval == 0
  }

  /** A started process: a training or a detection cycle with its number. */
  datatype Dispatch = TrainCycle(i: int) | FindCycle(i: int)

  /** The cycle counters `n` and `m`. */
  datatype Counters = Counters(n: int, m: int)

  /**
   * One turn of the loop at minute `minute`: training starts when the
   * minute is a multiple of the training interval, detection when it is
   * a multiple of the search interval, both possibly; each counter is
   * incremented before its cycle starts. Either interval being 0 raises
   * in the log line before any dispatch.
   */
  function Tick(iv: Intervals, minute: int, c: Counters): (r: Result<(Counters, seq<Dispatch>), StartError>)
    ensures r.Err? <==> iv.train == 0 || iv.search == 0
    ensures r.Err? ==> r.error == ZeroDivisionError
    ensures r.Ok? ==> (TrainCycle(c.n + 1) in r.value.1 <==> Fires(minute, iv.train))
    ensures r.Ok? ==> (FindCycle(c.m + 1) in r.value.1 <==> Fires(minute, iv.search))
    ensures r.Ok? ==> r.value.0 == Counters(c.n + (if Fires(minute, iv.train) then 1 else 0),
                                             c.m + (if Fires(minute, iv.search) then 1 else 0))
    ensures r.Ok? ==> |r.value.1| <= 2
  {
    if iv.search == 0 || iv.train == 0 then Err(ZeroDivisionError)
    else
      var train := Fires(minute, iv.train);
      var find := Fires(minute, iv.search);
      var n := if train then c.n + 1 else c.n;
      var m := if find then c.m + 1 else c.m;
      Ok((Counters(n, m), (if train then [TrainCycle(n)] else []) + (if find then [FindCycle(m)] else [])))
  }

  /** The loop over the tick times, from counters `c`. */
  function Run(iv: Intervals, ticks: seq<int>, c: Counters): (r: Result<(Counters, seq<Dispatch>), StartError>)
    ensures |ticks| > 0 ==> (r.Err? <==> iv.train == 0 || iv.search == 0)
    ensures r.Ok? ==> r.value.0.n >= c.n && r.value.0.m >= c.m
    decreases |ticks|
  {
    if |ticks| == 0 then Ok((c, []))
    else
      match Tick(iv, CurMinute(ticks[0]), c)
      case Err(e) => Err(e)
      case Ok(step) =>
        match Run(iv, ticks[1..], step.0)
        case Err(e) => Err(e)
        case Ok(rest) => Ok((rest.0, step.1 + rest.1))
  }

  /** One turn of the loop followed by the rest. */
  lemma RunUnfold(iv: Intervals, ticks: seq<int>, c: Counters)
    requires |ticks| > 0 && Run(iv, ticks, c).Ok?
    ensures Tick(iv, CurMinute(ticks[0]), c).Ok?
    ensures Run(iv, ticks[1..], Tick(iv, CurMinute(ticks[0]), c).value.0).Ok?
    ensures var step := Tick(iv, CurMinute(ticks[0]), c).value;
      var rest := Run(iv, ticks[1..], step.0).value;
      Run(iv, ticks, c).value == (rest.0, step.1 + rest.1)
  {
  }

  /** Training cycles are numbered consecutively from the counter they started at. */
  lemma {:induction false} RunTrainNumbers(iv: Intervals, ticks: seq<int>, c: Counters)
    requires Run(iv, ticks, c).Ok?
    ensures TrainNumbers(Run(iv, ticks, c).value.1) == Range(c.n + 1, Run(iv, ticks, c).value.0.n + 1)
    decreases |ticks|
  {
    if |ticks| > 0 {
      RunUnfold(iv, ticks, c);
      var step := Tick(iv, CurMinute(ticks[0]), c).value;
      var rest := Run(iv, ticks[1..], step.0).value;
      RunTrainNumbers(iv, ticks[1..], step.0);
      TickNumbers(iv, CurMinute(ticks[0]), c);
      NumbersConcat(step.1, rest.1);
      RangeConcat(c.n + 1, step.0.n + 1, rest.0.n + 1);
    }
  }

  /** Detection cycles are numbered consecutively from the counter they started at. */
  lemma {:induction false} RunFindNumbers(iv: Intervals, ticks: seq<int>, c: Counters)
    requires Run(iv, ticks, c).Ok?
    ensures FindNumbers(Run(iv, ticks, c).value.1) == Range(c.m + 1, Run(iv, ticks, c).value.0.m + 1)
    decreases |ticks|
  {
    if |ticks| > 0 {
      RunUnfold(iv, ticks, c);
      var step := Tick(iv, CurMinute(ticks[0]), c).value;
      var rest := Run(iv, ticks[1..], step.0).value;
      RunFindNumbers(iv, ticks[1..], step.0);
      TickNumbers(iv, CurMinute(ticks[0]), c);
      NumbersConcat(step.1, rest.1);
      RangeConcat(c.m + 1, step.0.m + 1, rest.0.m + 1);
    }
  }

  /** The numbers of the training cycles started, in order. */
  function TrainNumbers(ds: seq<Dispatch>): seq<int>
    decreases |ds|
  {
    if |ds| == 0 then [] else (if ds[0].TrainCycle? then [ds[0].i] else []) + TrainNumbers(ds[1..])
  }

  /** The numbers of the detection cycles started, in order. */
  function FindNumbers(ds: seq<Dispatch>): seq<int>
    decreases |ds|
  {
    if |ds| == 0 then [] else (if ds[0].FindCycle? then [ds[0].i] else []) + FindNumbers(ds[1..])
  }

  /** `[a, a + 1, ..., b - 1]`. */
  function Range(a: int, b: int): (r: seq<int>)
    ensures |r| == if a <= b then b - a else 0
    decreases b - a
  {
    if a >= b then [] else [a] + Range(a + 1, b)
  }

  lemma {:induction false} RangeMembers(a: int, b: int, x: int)
    requires x in Range(a, b)
    ensures a <= x < b
    decreases b - a
  {
    if a < b && x != a {
      RangeMembers(a + 1, b, x);
    }
  }

  lemma {:induction false} RangeConcat(a: int, b: int, c: int)
    requires a <= b <= c
    ensures Range(a, b) + Range(b, c) == Range(a, c)
    decreases b - a
  {
    if a < b {
      RangeConcat(a + 1, b, c);
      var x, y := Range(a + 1, b), Range(b, c);
      assert Range(a, b) == [a] + x;
      assert Range(a, c) == [a] + Range(a + 1, c);
      assert ([a] + x) + y == [a] + (x + y);
    } else {
      assert Range(a, b) == [];
    }
  }

  lemma {:induction false} NumbersConcat(a: seq<Dispatch>, b: seq<Dispatch>)
    ensures TrainNumbers(a + b) == TrainNumbers(a) + TrainNumbers(b)
    ensures FindNumbers(a + b) == FindNumbers(a) + FindNumbers(b)
  {
    TrainNumbersConcat(a, b);
    FindNumbersConcat(a, b);
  }

  lemma {:induction false} TrainNumbersConcat(a: seq<Dispatch>, b: seq<Dispatch>)
    ensures TrainNumbers(a + b) == TrainNumbers(a) + TrainNumbers(b)
    decreases |a|
  {
    if |a| == 0 {
      assert a + b == b;
    } else {
      assert (a + b)[0] == a[0] && (a + b)[1..] == a[1..] + b;
      TrainNumbersConcat(a[1..], b);
      var h := if a[0].TrainCycle? then [a[0].i] else [];
      assert TrainNumbers(a + b) == h + TrainNumbers(a[1..] + b);
      assert TrainNumbers(a) == h + TrainNumbers(a[1..]);
      assert (h + TrainNumbers(a[1..])) + TrainNumbers(b) == h + (TrainNumbers(a[1..]) + TrainNumbers(b));
    }
  }

  lemma {:induction false} FindNumbersConcat(a: seq<Dispatch>, b: seq<Dispatch>)
    ensures FindNumbers(a + b) == FindNumbers(a) + FindNumbers(b)
    decreases |a|
  {
    if |a| == 0 {
      assert a + b == b;
    } else {
      assert (a + b)[0] == a[0] && (a + b)[1..] == a[1..] + b;
      FindNumbersConcat(a[1..], b);
      var h := if a[0].FindCycle? then [a[0].i] else [];
      assert FindNumbers(a + b) == h + FindNumbers(a[1..] + b);
      assert FindNumbers(a) == h + FindNumbers(a[1..]);
      assert (h + FindNumbers(a[1..])) + FindNumbers(b) == h + (FindNumbers(a[1..]) + FindNumbers(b));
    }
  }

  lemma TickNumbers(iv: Intervals, minute: int, c: Counters)
    requires Tick(iv, minute, c).Ok?
    ensures var r := Tick(iv, minute, c).value;
      TrainNumbers(r.1) == Range(c.n + 1, r.0.n + 1) && FindNumbers(r.1) == Range(c.m + 1, r.0.m + 1)
  {
    var r := Tick(iv, minute, c).value;
    var t := if Fires(minute, iv.train) then [TrainCycle(r.0.n)] else [];
    var f := if Fires(minute, iv.search) then [FindCycle(r.0.m)] else [];
    assert r.1 == t + f;
    NumbersConcat(t, f);
    assert TrainNumbers(f) == [] && FindNumbers(t) == [];
  }

  /**
   * `start()` after its settings and checks: from counters (0, 0) the
   * cycles of each kind are numbered 1, 2, 3, ... in order, so no steady
   * cycle is number 0 and none clears the checkpoint.
   */
  lemma CyclesNumberedFromOne(iv: Intervals, ticks: seq<int>)
    requires Run(iv, ticks, Counters(0, 0)).Ok?
    ensures var r := Run(iv, ticks, Counters(0, 0)).value;
      TrainNumbers(r.1) == Range(1, r.0.n + 1) && FindNumbers(r.1) == Range(1, r.0.m + 1)
      && forall d :: d in r.1 ==> d.i >= 1
  {
    var r := Run(iv, ticks, Counters(0, 0)).value;
    RunTrainNumbers(iv, ticks, Counters(0, 0));
    RunFindNumbers(iv, ticks, Counters(0, 0));
    forall d | d in r.1 ensures d.i >= 1 {
      NumberListed(r.1, d);
      if d.TrainCycle? {
        RangeMembers(1, r.0.n + 1, d.i);
      } else {
        RangeMembers(1, r.0.m + 1, d.i);
      }
    }
  }

  lemma {:induction false} NumberListed(ds: seq<Dispatch>, d: Dispatch)
    requires d in ds
    ensures d.TrainCycle? ==> d.i in TrainNumbers(ds)
    ensures d.FindCycle? ==> d.i in FindNumbers(ds)
    decreases |ds|
  {
    if ds[0] != d {
      NumberListed(ds[1..], d);
    }
  }

  /** With the default intervals, minute 1440 (a day after the epoch) starts both training cycle n+1 and detection cycle m+1. */
  lemma DailyTickStartsBoth(c: Counters)
    ensures Tick(Intervals(DefaultTrainInterval, DefaultSearchInterval), 1440, c)
            == Ok((Counters(c.n + 1, c.m + 1), [TrainCycle(c.n + 1), FindCycle(c.m + 1)]))
  {
    assert 1440 % DefaultTrainInterval == 0 && 1440 % DefaultSearchInterval == 0;
    assert [TrainCycle(c.n + 1)] + [FindCycle(c.m + 1)] == [TrainCycle(c.n + 1), FindCycle(c.m + 1)];
  }

  /**
   * `start()`: read the intervals, check the environment, run the
   * self-diagnostics (the exception escaping it, if any, is `diagnostics`),
   * then loop over the ticks.
   */
  function Start(env: Env, typed: seq<(string, string -> bool)>, diagnostics: Option<string>, ticks: seq<int>)
    : (r: Result<seq<Dispatch>, StartError>)
    ensures ReadIntervals(env).Err? ==> r == Err(ValueError)
    ensures ReadIntervals(env).Ok? && ValidateEnv(env, RequiredVars, typed).Err? ==> r.Err? && r.error.InvalidEnv?
    ensures ReadIntervals(env).Ok? && ValidateEnv(env, RequiredVars, typed).Ok? && diagnostics.Some? ==>
      r == Err(Raised(diagnostics.value))
    ensures r.Ok? ==> diagnostics.None? && forall d :: d in r.value ==> d.i >= 1
  {
    match ReadIntervals(env)
    case Err(e) => Err(e)
    case Ok(iv) =>
      match ValidateEnv(env, RequiredVars, typed)
      case Err(e) => Err(e)
      case Ok(_) =>
        if diagnostics.Some? then Err(Raised(diagnostics.value))
        else
          match Run(iv, ticks, Counters(0, 0))
          case Err(e) => Err(e)
          case Ok(res) =>
            CyclesNumberedFromOne(iv, ticks);
            Ok(res.1)
  }
}
