/**
 * Alert documents and the two transforms of ph/alert_api.py applied to
 * every alert before it is written: `remove_fields`, which drops fields
 * from the alert's record, and `unify_time_format`, which turns
 * date-time texts in the record into epoch-second ints.
 *
 * Date parsing is `strptime(format, text)`, a partial function supplied
 * by the caller; the current time is a parameter.
 */
module AlertApi {
  import opened Wrappers
  import opened Text
  import opened Values

  /**
   * An alert as the detectors build it: `type`, `alert`
   * (`anomaly_detection.<job>`), `severity`, `description`, `time` and
   * the anomalous `record`, which a document may lack.
   */
  datatype Alert = Alert(kind: string, name: string, severity: int, description: string, time: int, record: Option<Record>)

  /** `alert['alert'].split('.')[1]`: the job that raised the alert, None where Python raises IndexError. */
  function JobOf(a: Alert): Option<string> {
    Component(a.name, '.', 1)
  }

  // ---- remove_fields ------------------------------------------------------

  /** The deletion loop: every listed key that is present is deleted, in list order. */
  function RemoveEach(rec: Record, fields: seq<string>): (r: Record)
    ensures forall k :: k in r <==> k in rec && k !in fields
    ensures forall k :: k in r ==> r[k] == rec[k]
    decreases |fields|
  {
    if |fields| == 0 then rec
    else RemoveEach(if fields[0] in rec then rec - {fields[0]} else rec, fields[1..])
  }

  /**
   * `remove_fields(alert, removed_fields)`: an alert without a record, with
   * an empty record, or an empty field list is returned as it is.
   */
  function RemoveFields(alert: Alert, fields: seq<string>): (r: Alert)
    ensures alert.record.None? || alert.record.value == map[] || |fields| == 0 ==> r == alert
    ensures r.record.Some? <==> alert.record.Some?
    ensures r == alert.(record := r.record)
    ensures r.record.Some? ==> forall k :: k in r.record.value <==> k in alert.record.value && k !in fields
    ensures r.record.Some? ==> forall k :: k in r.record.value ==> r.record.value[k] == alert.record.value[k]
  {
    if alert.record.None? || alert.record.value == map[] || |fields| == 0 then alert
    else alert.(record := Some(RemoveEach(alert.record.value, fields)))
  }

  /** Removing the same fields twice removes nothing more. */
  lemma RemoveFieldsIdempotent(alert: Alert, fields: seq<string>)
    ensures RemoveFields(RemoveFields(alert, fields), fields) == RemoveFields(alert, fields)
  {
    var once := RemoveFields(alert, fields);
    var twice := RemoveFields(once, fields);
    if once.record.Some? {
      assert twice.record.value == once.record.value;
    }
  }

  /** `PH_ES_FIELDS_NOT_FOR_ALERT`, comma-separated, defaulting to "host". */
  function RemovedFieldsSetting(env: Env): (fields: seq<string>)
    ensures |fields| >= 1
    ensures "PH_ES_FIELDS_NOT_FOR_ALERT" !in env ==> fields == ["host"]
  {
    SplitNoSeparator("host", ',');
    Split(GetEnv(env, "PH_ES_FIELDS_NOT_FOR_ALERT", "host"), ',')
  }

  // ---- unify_time_format --------------------------------------------------

  /** The formats tried, in order. */
  const TimeFormats: seq<string> := ["%Y-%m-%dT%H:%M:%S.%fZ", "%Y-%m-%dT%H:%M:%S.%f", "%Y-%m-%d %H:%M:%S.%f", "%Y-%m-%d %H:%M:%S"]

  /** `s.replace('T', ' ').replace('Z', '')[:26]`. */
  function Normalize(s: string): (r: string)
    ensures |r| <= 26
    ensures 'T' !in r && 'Z' !in r
    decreases |s|
  {
    if |s| == 0 then ""
    else
      var rest := Normalize(s[1..]);
      var head := if s[0] == 'T' then " " else if s[0] == 'Z' then "" else [s[0]];
      (head + rest)[..if |head + rest| < 26 then |head + rest| else 26]
  }

  /** `s.replace(a, b)` for single characters. */
  function ReplaceChar(s: string, a: char, b: char): (r: string)
    ensures |r| == |s|
    ensures forall i :: 0 <= i < |s| ==> r[i] == (if s[i] == a then b else s[i])
  {
    seq(|s|, i requires 0 <= i < |s| => if s[i] == a then b else s[i])
  }

  /** `s.replace(c, '')`: the text without any `c`, the other characters in order. */
  function RemoveChar(s: string, c: char): (r: string)
    ensures c !in r
    ensures forall x :: x in r <==> x in s && x != c
    decreases |s|
  {
    if |s| == 0 then "" else (if s[0] == c then "" else [s[0]]) + RemoveChar(s[1..], c)
  }

  /** `s[:n]` for a non-negative n. */
  function Take(s: string, n: nat): (r: string)
    ensures r == s[..if |s| < n then |s| else n]
  {
    s[..if |s| < n then |s| else n]
  }

  /**
   * The character-by-character normalisation is the source's chain of two
   * replacements followed by the cut to 26 characters.
   */
  lemma {:induction false} NormalizeIsReplaceThenCut(s: string)
    ensures Normalize(s) == Take(RemoveChar(ReplaceChar(s, 'T', ' '), 'Z'), 26)
    decreases |s|
  {
    if |s| > 0 {
      NormalizeIsReplaceThenCut(s[1..]);
      var head := if s[0] == 'T' then " " else if s[0] == 'Z' then "" else [s[0]];
      var t := ReplaceChar(s, 'T', ' ');
      assert t[0] == (if s[0] == 'T' then ' ' else s[0]);
      assert t[1..] == ReplaceChar(s[1..], 'T', ' ');
      var x := RemoveChar(ReplaceChar(s[1..], 'T', ' '), 'Z');
      assert RemoveChar(t, 'Z') == head + x;
      TakeAfterHead(head, x, 26);
    }
  }

  lemma TakeAfterHead(head: string, x: string, n: nat)
    requires |head| <= n
    ensures Take(head + Take(x, n), n) == Take(head + x, n)
  {
  }

  /** The first format that parses `text`. */
  function FirstParse(text: string, formats: seq<string>, strptime: (string, string) -> Option<int>): (r: Option<int>)
    ensures r.Some? <==> exists i :: 0 <= i < |formats| && strptime(formats[i], text).Some?
    ensures r.Some? ==> exists i :: 0 <= i < |formats| && strptime(formats[i], text) == r
    decreases |formats|
  {
    if |formats| == 0 then None
    else if strptime(formats[0], text).Some? then strptime(formats[0], text)
    else
      var r := FirstParse(text, formats[1..], strptime);
      assert r.Some? ==> exists i :: 0 <= i < |formats| && strptime(formats[i], text) == r by {
        if r.Some? {
          var i :| 0 <= i < |formats[1..]| && strptime(formats[1..][i], text) == r;
          assert strptime(formats[i + 1], text) == r;
        }
      }
      assert (exists i :: 0 <= i < |formats| && strptime(formats[i], text).Some?) ==> r.Some? by {
        if exists i :: 0 <= i < |formats| && strptime(formats[i], text).Some? {
          var i :| 0 <= i < |formats| && strptime(formats[i], text).Some?;
          assert i != 0;
          assert strptime(formats[1..][i - 1], text).Some?;
        }
      }
      r
  }

  /** The timestamp a date-time text becomes: the first format that parses it, else `now`. */
  function ParseTime(s: string, strptime: (string, string) -> Option<int>, now: int): int {
    FirstParse(Normalize(s), TimeFormats, strptime).GetOr(now)
  }

  /** The loop over the unified fields: ints and non-text values stay, texts become timestamps. */
  function UnifyRecord(rec: Record, fields: seq<string>, strptime: (string, string) -> Option<int>, now: int): (r: Record)
    ensures r.Keys == rec.Keys
    ensures forall k :: k in rec && k !in fields ==> r[k] == rec[k]
    ensures forall k :: k in rec && !rec[k].VStr? ==> r[k] == rec[k]
    ensures forall k :: k in rec && k in fields && rec[k].VStr? ==> r[k] == VInt(ParseTime(rec[k].s, strptime, now))
    decreases |fields|
  {
    if |fields| == 0 then rec
    else
      var f := fields[0];
      var step := if f in rec && rec[f].VStr? then rec[f := VInt(ParseTime(rec[f].s, strptime, now))] else rec;
      UnifyRecord(step, fields[1..], strptime, now)
  }

  /** `unify_time_format(alert, unified_fields)`. */
  function UnifyTimeFormat(alert: Alert, fields: seq<string>, strptime: (string, string) -> Option<int>, now: int): (r: Alert)
    ensures alert.record.None? ==> r == alert
    ensures r == alert.(record := r.record)
    ensures alert.record.Some? ==> r.record.Some? && r.record.value.Keys == alert.record.value.Keys
    ensures alert.record.Some? ==> forall k :: k in fields && k in r.record.value ==> !r.record.value[k].VStr?
  {
    if alert.record.None? then alert
    else alert.(record := Some(UnifyRecord(alert.record.value, fields, strptime, now)))
  }

  /** Unifying twice is unifying once: no listed field is text any more. */
  lemma UnifyTimeFormatIdempotent(alert: Alert, fields: seq<string>, strptime: (string, string) -> Option<int>, now: int, later: int)
    ensures UnifyTimeFormat(UnifyTimeFormat(alert, fields, strptime, now), fields, strptime, later)
            == UnifyTimeFormat(alert, fields, strptime, now)
  {
    var once := UnifyTimeFormat(alert, fields, strptime, now);
    if once.record.Some? {
      var rec := once.record.value;
      var again := UnifyRecord(rec, fields, strptime, later);
      assert again == rec;
    }
  }

  /** What `send_alerts` writes for one alert: fields removed, then start and end times unified. */
  function PrepareAlert(alert: Alert, removed: seq<string>, strptime: (string, string) -> Option<int>, now: int): (r: Alert)
    ensures r.record.Some? <==> alert.record.Some?
    ensures r.record.Some? ==> forall k :: k in r.record.value ==> k !in removed
    ensures r.record.Some? ==> forall k :: k in r.record.value && k in ["start_time", "end_time"] ==> !r.record.value[k].VStr?
  {
    var cleaned := RemoveFields(alert, removed);
    assert cleaned.record.Some? && |removed| > 0 ==> forall k :: k in cleaned.record.value ==> k !in removed;
    UnifyTimeFormat(cleaned, ["start_time", "end_time"], strptime, now)
  }
}
