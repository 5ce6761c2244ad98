/**
 * The thresholding and alert shaping of the l7_latency detector
 * (ph/model_generic.py): samples scoring strictly below the threshold
 * become anomalies, and anomalies become alerts with a confidence,
 * sorted by start time.
 *
 * The IsolationForest is an uninterpreted scorer `score` from a sample's
 * value to a real; the threshold is the float `get_param` reads. The
 * order Python's sort puts `start_time` values in is `order`, and the
 * alert's description text is `describe`.
 */
module ModelGeneric {
  import opened Wrappers
  import opened Values
  import opened KeyedMerge
  import opened AlertApi

  const ValueField: string := "duration_mean"
  const AlertName: string := "anomaly_detection.l7_latency"

  datatype ModelError = AssertionError | KeyError | ValueError

  /** A sample with the score the model gave it. */
  datatype Scored = Scored(sample: Record, score: real)

  /** The samples scoring strictly below `threshold`, in order, each with its score. */
  function Below(samples: seq<Record>, score: Value -> real, threshold: real): (r: seq<Scored>)
    requires forall i :: 0 <= i < |samples| ==> ValueField in samples[i]
    ensures |r| <= |samples|
    decreases |samples|
  {
    if |samples| == 0 then []
    else
      var s := samples[0];
      (if score(s[ValueField]) < threshold then [Scored(s, score(s[ValueField]))] else []) + Below(samples[1..], score, threshold)
  }

  /** The anomalies are exactly the samples scoring below the threshold, each with its score. */
  lemma {:induction false} BelowMembers(samples: seq<Record>, score: Value -> real, threshold: real, x: Scored)
    requires forall i :: 0 <= i < |samples| ==> ValueField in samples[i]
    ensures x in Below(samples, score, threshold) <==>
            x.sample in samples && ValueField in x.sample && x.score == score(x.sample[ValueField]) && x.score < threshold
    decreases |samples|
  {
    if |samples| > 0 {
      BelowMembers(samples[1..], score, threshold, x);
      assert samples == [samples[0]] + samples[1..];
    }
  }

  /** The filter keeps sample order: one more sample adds its anomaly at the end, or nothing. */
  lemma {:induction false} BelowAppend(samples: seq<Record>, s: Record, score: Value -> real, threshold: real)
    requires forall i :: 0 <= i < |samples| ==> ValueField in samples[i]
    requires ValueField in s
    ensures Below(samples + [s], score, threshold)
            == Below(samples, score, threshold) + (if score(s[ValueField]) < threshold then [Scored(s, score(s[ValueField]))] else [])
    decreases |samples|
  {
    var l := samples + [s];
    var tail := if score(s[ValueField]) < threshold then [Scored(s, score(s[ValueField]))] else [];
    if |samples| == 0 {
      assert l == [s] && l[1..] == [];
      assert Below(l, score, threshold) == tail + Below([], score, threshold);
    } else {
      assert l[0] == samples[0] && l[1..] == samples[1..] + [s];
      BelowAppend(samples[1..], s, score, threshold);
      var h := if score(samples[0][ValueField]) < threshold then [Scored(samples[0], score(samples[0][ValueField]))] else [];
      assert Below(l, score, threshold) == h + Below(l[1..], score, threshold);
      assert Below(samples, score, threshold) == h + Below(samples[1..], score, threshold);
    }
  }

  /** `min(a['score'] for a in anomalies)`. */
  function MinScore(xs: seq<Scored>): (m: real)
    requires |xs| > 0
    ensures exists i :: 0 <= i < |xs| && xs[i].score == m
    ensures forall i :: 0 <= i < |xs| ==> m <= xs[i].score
    decreases |xs|
  {
    if |xs| == 1 then xs[0].score
    else
      var m := MinScore(xs[1..]);
      assert forall i :: 1 <= i < |xs| ==> xs[1..][i - 1] == xs[i];
      if xs[0].score <= m then xs[0].score else m
  }

  function Abs(x: real): real { if x < 0.0 then -x else x }

  /**
   * `calc_confidence(score, score_max)` without the rounding:
   * min(0.99, |score/score_max|). A zero `score_max` makes the float
   * quotient infinite or NaN, and `min` then keeps 0.99.
   */
  function Confidence(score: real, scoreMax: real): (c: real)
    ensures 0.0 <= c <= 0.99
    ensures score == scoreMax ==> c == 0.99
  {
    if scoreMax == 0.0 then 0.99
    else if 0.99 <= Abs(score / scoreMax) then 0.99
    else Abs(score / scoreMax)
  }

  /** Among negative scores, the lower a score the higher its confidence. */
  lemma ConfidenceMonotone(s1: real, s2: real, scoreMax: real)
    requires scoreMax < 0.0 && scoreMax <= s1 <= s2 <= 0.0
    ensures Confidence(s1, scoreMax) >= Confidence(s2, scoreMax)
  {
    assert s1 / scoreMax >= s2 / scoreMax by {
      assert s1 / scoreMax - s2 / scoreMax == (s1 - s2) / scoreMax;
    }
    assert s2 / scoreMax >= 0.0;
  }

  /** An anomaly's record in its alert: the sample, its score and its confidence. */
  function Extend(x: Scored, conf: real): Record {
    x.sample["score" := VFloat(x.score)]["confidence" := VFloat(conf)]
  }

  /** The sort key of an anomaly (every anomaly has a `start_time` by the time it is used). */
  function StartOf(x: Scored, order: Value -> int): int {
    if "start_time" in x.sample then order(x.sample["start_time"]) else 0
  }

  /** `itemgetter('start_time')` as a sort key. */
  function StartKey(order: Value -> int): Scored -> int {
    x => StartOf(x, order)
  }

  function AlertFor(x: Scored, scoreMax: real, describe: (Record, real) -> string, now: int): Alert {
    var conf := Confidence(x.score, scoreMax);
    Alert("alert", AlertName, 100, describe(Extend(x, conf), conf), now, Some(Extend(x, conf)))
  }

  function AlertsFor(xs: seq<Scored>, scoreMax: real, describe: (Record, real) -> string, now: int): (r: seq<Alert>)
    ensures |r| == |xs|
    ensures forall i :: 0 <= i < |xs| ==> r[i] == AlertFor(xs[i], scoreMax, describe, now)
  {
    seq(|xs|, i requires 0 <= i < |xs| => AlertFor(xs[i], scoreMax, describe, now))
  }

  /**
   * `_format_anomalies`: [] for no anomalies; else one alert per anomaly,
   * in stable ascending `start_time` order, KeyError when an anomaly has
   * no `start_time`.
   */
  function FormatAnomalies(anomalies: seq<Scored>, order: Value -> int, describe: (Record, real) -> string, now: int)
    : (r: Result<seq<Alert>, ModelError>)
    ensures |anomalies| == 0 ==> r == Ok([])
    ensures r.Err? <==> exists i :: 0 <= i < |anomalies| && "start_time" !in anomalies[i].sample
    ensures r.Ok? ==> |r.value| == |anomalies|
  {
    if |anomalies| == 0 then Ok([])
    else if exists i :: 0 <= i < |anomalies| && "start_time" !in anomalies[i].sample then Err(KeyError)
    else Ok(AlertsFor(SortByStart(anomalies, StartKey(order)), MinScore(anomalies), describe, now))
  }

  /** Every formatted alert is the alert of one of the anomalies. */
  lemma {:induction false} FormattedFrom(anomalies: seq<Scored>, order: Value -> int, describe: (Record, real) -> string, now: int)
    requires |anomalies| > 0 && FormatAnomalies(anomalies, order, describe, now).Ok?
    ensures forall a :: a in FormatAnomalies(anomalies, order, describe, now).value ==>
      exists x :: x in anomalies && a == AlertFor(x, MinScore(anomalies), describe, now)
  {
    var sorted := SortByStart(anomalies, StartKey(order));
    var m := MinScore(anomalies);
    var r := AlertsFor(sorted, m, describe, now);
    assert FormatAnomalies(anomalies, order, describe, now).value == r;
    forall a | a in r ensures exists x :: x in anomalies && a == AlertFor(x, m, describe, now) {
      var i :| 0 <= i < |r| && r[i] == a;
      assert sorted[i] in multiset(sorted);
      assert sorted[i] in multiset(anomalies);
      assert sorted[i] in anomalies;
    }
  }

  /** The lowest-scoring anomaly has an alert in the batch. */
  lemma {:induction false} FormattedHasMin(anomalies: seq<Scored>, order: Value -> int, describe: (Record, real) -> string, now: int)
    requires |anomalies| > 0 && FormatAnomalies(anomalies, order, describe, now).Ok?
    ensures exists x ::
      x in anomalies && x.score == MinScore(anomalies)
      && AlertFor(x, MinScore(anomalies), describe, now) in FormatAnomalies(anomalies, order, describe, now).value
  {
    var sorted := SortByStart(anomalies, StartKey(order));
    var m := MinScore(anomalies);
    var r := AlertsFor(sorted, m, describe, now);
    assert FormatAnomalies(anomalies, order, describe, now).value == r;
    var j :| 0 <= j < |anomalies| && anomalies[j].score == m;
    assert anomalies[j] in multiset(anomalies);
    assert anomalies[j] in multiset(sorted);
    var k :| 0 <= k < |sorted| && sorted[k] == anomalies[j];
    assert r[k] == AlertFor(anomalies[j], m, describe, now);
    assert r[k] in r;
  }

  predicate HasStart(a: Alert) {
    a.record.Some? && "start_time" in a.record.value
  }

  /** The alerts' records, in order, carry non-decreasing start times. */
  ghost predicate AlertsSortedByStart(alerts: seq<Alert>, order: Value -> int) {
    forall i, j | 0 <= i < j < |alerts| && HasStart(alerts[i]) && HasStart(alerts[j]) ::
      order(alerts[i].record.value["start_time"]) <= order(alerts[j].record.value["start_time"])
  }

  /**
   * The batch is the anomalies' alerts in a stable start-time order: a
   * permutation of the anomalies, sorted, each with its confidence
   * against the batch's lowest score.
   */
  lemma {:induction false} FormatAnomaliesOrder(anomalies: seq<Scored>, order: Value -> int, describe: (Record, real) -> string, now: int)
    requires |anomalies| > 0 && FormatAnomalies(anomalies, order, describe, now).Ok?
    ensures exists sorted: seq<Scored> ::
      multiset(sorted) == multiset(anomalies) && SortedBy(sorted, StartKey(order))
      && FormatAnomalies(anomalies, order, describe, now).value == AlertsFor(sorted, MinScore(anomalies), describe, now)
    ensures AlertsSortedByStart(FormatAnomalies(anomalies, order, describe, now).value, order)
  {
    var sorted := SortByStart(anomalies, StartKey(order));
    var r := AlertsFor(sorted, MinScore(anomalies), describe, now);
    assert FormatAnomalies(anomalies, order, describe, now).value == r;
    forall i, j | 0 <= i < j < |r| && HasStart(r[i]) && HasStart(r[j])
      ensures order(r[i].record.value["start_time"]) <= order(r[j].record.value["start_time"])
    {
      assert r[i].record.value["start_time"] == sorted[i].sample["start_time"];
      assert r[j].record.value["start_time"] == sorted[j].sample["start_time"];
      assert StartKey(order)(sorted[i]) <= StartKey(order)(sorted[j]);
    }
  }

  /** Every alert of the formatted batch has the fixed shape, and the lowest score gets confidence 0.99. */
  lemma FormatAnomaliesShape(anomalies: seq<Scored>, order: Value -> int, describe: (Record, real) -> string, now: int)
    requires FormatAnomalies(anomalies, order, describe, now).Ok?
    ensures forall a :: a in FormatAnomalies(anomalies, order, describe, now).value ==>
      a.kind == "alert" && a.name == AlertName && a.severity == 100 && a.time == now && a.record.Some?
      && "confidence" in a.record.value && a.record.value["confidence"].VFloat?
      && 0.0 <= a.record.value["confidence"].x <= 0.99
    ensures |anomalies| > 0 ==>
      exists a :: a in FormatAnomalies(anomalies, order, describe, now).value
        && a.record.Some? && "confidence" in a.record.value && a.record.value["confidence"] == VFloat(0.99)
  {
    if |anomalies| > 0 {
      FormattedFrom(anomalies, order, describe, now);
      FormattedHasMin(anomalies, order, describe, now);
    }
  }

  /**
   * `find_anomalies(model, samples, aggregators)`: a ValueError when no
   * sample holds the value field (the scorer refuses an array with no
   * rows), an AssertionError when only some lack it (the scorer then
   * returns fewer scores than samples), else the alerts for the samples
   * scoring below the threshold.
   */
  function FindAnomalies(samples: seq<Record>, score: Value -> real, threshold: real, order: Value -> int,
                         describe: (Record, real) -> string, now: int): (r: Result<seq<Alert>, ModelError>)
    ensures r == Err(ValueError) <==> forall i :: 0 <= i < |samples| ==> ValueField !in samples[i]
    ensures r == Err(AssertionError) <==>
      (exists i :: 0 <= i < |samples| && ValueField !in samples[i]) && (exists i :: 0 <= i < |samples| && ValueField in samples[i])
    ensures r.Ok? ==> |r.value| <= |samples|
    ensures r.Ok? ==> forall a :: a in r.value ==> ScoredBelow(a, threshold)
  {
    if forall i :: 0 <= i < |samples| ==> ValueField !in samples[i] then Err(ValueError)
    else if exists i :: 0 <= i < |samples| && ValueField !in samples[i] then Err(AssertionError)
    else
      var kept := Below(samples, score, threshold);
      var r := FormatAnomalies(kept, order, describe, now);
      assert r.Ok? ==> forall a :: a in r.value ==> ScoredBelow(a, threshold) by {
        if r.Ok? && |kept| > 0 {
          FormattedFrom(kept, order, describe, now);
          forall a | a in r.value ensures ScoredBelow(a, threshold) {
            var x :| x in kept && a == AlertFor(x, MinScore(kept), describe, now);
            BelowMembers(samples, score, threshold, x);
          }
        }
      }
      r
  }

  /** An alert whose record holds the value field and a score below `threshold`. */
  predicate ScoredBelow(a: Alert, threshold: real) {
    a.record.Some? && ValueField in a.record.value && "score" in a.record.value
    && a.record.value["score"].VFloat? && a.record.value["score"].x < threshold
  }

  /** A non-empty batch where nothing scores below the threshold raises no alert; an empty one is refused by the scorer. */
  lemma {:induction false} NothingBelowNoAlerts(samples: seq<Record>, score: Value -> real, threshold: real, order: Value -> int,
                                                describe: (Record, real) -> string, now: int)
    requires forall i :: 0 <= i < |samples| ==> ValueField in samples[i] && threshold <= score(samples[i][ValueField])
    ensures Below(samples, score, threshold) == []
    ensures |samples| > 0 ==> FindAnomalies(samples, score, threshold, order, describe, now) == Ok([])
    ensures |samples| == 0 ==> FindAnomalies(samples, score, threshold, order, describe, now) == Err(ValueError)
    decreases |samples|
  {
    if |samples| > 0 {
      NothingBelowNoAlerts(samples[1..], score, threshold, order, describe, now);
    }
  }
}
