# Performance-hotspots detector: a Dafny model of its core

The performance-hotspots service (package `ph`) watches a cluster's logs for
performance anomalies. It runs as a loop:

1. Every training interval it fetches recent log documents and trains one
   model per enabled detector job.
2. Every search interval it fetches the documents since the last checkpoint,
   lets every job score them, and writes the anomalies as alerts.
3. Before the loop starts, it trains and detects once on labelled test
   datasets and once on live data, and saves a self-diagnostics report
   comparing what it found with the labels.

This project models the pure logic of that service:

- the time bucketing of flow-log documents into per-source and
  per-destination rows, and the merge pass that follows it
  (`ph/elastic_api.py`);
- the append-only history store with its retention and its reads by id
  (`ph/history_storage.py`);
- the detection checkpoint (`ph/last_timestamp.py`);
- the job registry and its parameter lookup (`ph/globals.py`);
- the alert transforms applied before alerts are written
  (`ph/alert_api.py`);
- the l7_latency detector's thresholding and alert formatting
  (`ph/model_generic.py`);
- the API helpers: sample preparation, parameter get/set and alert-to-anomaly
  formatting (`ph/api_helper.py`);
- the model lifecycle: saving and loading per-job models, training,
  detection, the byte-alert aggregation and one detection cycle
  (`ph/model_processor.py`);
- the self-diagnostics scoring: counters, group keys, precision, recall, F1
  and the final report (`ph/self_diagnostics.py`);
- the scheduler: environment validation, the interval settings, the tick loop
  and its cycle numbering, and the self-diagnostics run (`ph/ph.py`).

Files, one module each:

| file | module | models |
|---|---|---|
| `wrappers.dfy` | `Wrappers` | `Option` and `Result` |
| `text.dfy` | `Text` | Python's `split`, `join`, `replace`, `str(int)`, `int(str)`, `lstrip`, string order and `sorted(set(...))` |
| `values.dfy` | `Values` | dynamically typed record values, `os.getenv`, `str(v)`, truthiness |
| `keyed_merge.dfy` | `KeyedMerge` | the stable sort by start time and the "dictionary keyed by a row key" merge pass |
| `flow_buckets.dfy` | `FlowBuckets` | `_aggregate_bucket` and `_aggregate_data` |
| `flow_merge.dfy` | `FlowMerge` | `_additional_aggregation` and `aggregate_samples` |
| `flow_examples.dfy` | `FlowExamples` | a worked bucketing example |
| `history.dfy` | `History` | `save_json_in_line`, `read_id_json`, `read_job_jsons` |
| `checkpoint.dfy` | `Checkpoint` | `load`, `save`, `remove` of the last timestamp |
| `registry.dfy` | `Registry` | `_jobs`, `jobs()`, `job_name2job`, `get_param` |
| `alert_api.dfy` | `AlertApi` | `remove_fields`, `unify_time_format` and what `send_alerts` writes |
| `model_generic.dfy` | `ModelGeneric` | `L7LatencyModel.find_anomalies` and `_format_anomalies` |
| `api_helper.dfy` | `ApiHelper` | `prepare_samples` (request source), `get_envvars`, `set_envvars`, `format_alert_to_anomaly` |
| `model_processor.dfy` | `ModelProcessor` | `ModelProcessor` with its helpers |
| `self_diagnostics.dfy` | `SelfDiagnostics` | `_format_all_detected_anomalies`, `_report_job_statistics`, `output_self_diagnostics_report` |
| `scheduler.dfy` | `Scheduler` | `validate_env_variables`, `self_diagnostics` and `start` |

Modelling conventions:

- Times are integers: seconds since the epoch, or minutes where the source
  counts minutes.
- Date parsing (`strptime`), the clock, uuid generation, `repr` of floats,
  alert description text, the scorer of the isolation forest, and the
  trainer and detector of a job are parameters (function values or plain
  arguments).
- Files are in-memory stores: a map from name to contents, or an `Option`
  for a single file.
- Python exceptions are the `Err` side of a `Result` rather than excluded by
  a precondition. The raising paths the model does not have are listed
  under "Left out".

## Model

| member | source | states |
|---|---|---|
| Text.Split | ph/globals.py:35 | `disabled.split(',')`: at least one piece, and no piece contains the separator |
| Text.SplitJoin | ph/globals.py:35 | joining the pieces of a split with the separator gives the original text back |
| Text.JoinSplit | ph/self_diagnostics.py:129-130 | splitting a join of separator-free pieces gives the pieces back |
| Text.Component | ph/api_helper.py:117 | `name.split('.')[i]` exists exactly when there are more than i pieces, and never contains '.' |
| Text.SeparatedPrefix | ph/elastic_api.py:210 | text cut at the first separator: equal joins with separator-free heads have equal heads and equal tails |
| Text.NatToString | ph/elastic_api.py:210 | `str(n)` of a non-negative int is a non-empty run of decimal digits |
| Text.IntToString | ph/elastic_api.py:210 | `str(i)` is non-empty, and all digits for non-negative i |
| Text.NatToStringValue | ph/elastic_api.py:210 | the digits of `str(n)` denote n |
| Text.PyInt | ph/history_storage.py:75 | `int(s)` succeeds only on non-empty text, and on a run of digits yields the number it denotes |
| Text.ReplaceAbsent | ph/self_diagnostics.py:140 | `s.replace(pat, rep)` leaves text without the pattern unchanged |
| Text.IntToStringRoundTrip | ph/history_storage.py:75 | `int(str(i)) == i` for every int, negative ones included |
| Text.IntToStringInjective | ph/elastic_api.py:210 | distinct ints render to distinct text |
| Text.IntToStringChars | ph/elastic_api.py:210 | `str(i)` holds only digits and a leading minus, so never '_' |
| Text.LStripSigns | ph/history_storage.py:74 | `lstrip('-+')` is no longer than its input and never starts with a sign |
| Text.LStripSignsSuffix | ph/history_storage.py:74 | what `lstrip('-+')` leaves is a suffix, and everything it removed is a sign |
| Text.StrLessTotal | ph/elastic_api.py:169-178 | Python's string order is total: two strings are equal or one is less |
| Text.StrLessTransitive | ph/elastic_api.py:169-178 | Python's string order is transitive |
| Text.InsertName | ph/elastic_api.py:169-178 | inserting a name into a strictly sorted list keeps it strictly sorted and adds exactly that name |
| Text.SortedDistinct | ph/elastic_api.py:169-178 | `sorted(set(names))` is strictly increasing and holds exactly the names of its input |
| Values.GetEnv | ph/globals.py:44 | `os.getenv(name, default)` is the set value when the name is set, else the default |
| KeyedMerge.Insert | ph/elastic_api.py:217 | one insertion step of the sort adds exactly one element, as a permutation |
| KeyedMerge.InsertSorted | ph/elastic_api.py:217 | inserting into a start-sorted sequence keeps it sorted |
| KeyedMerge.SortByStart | ph/elastic_api.py:217 | `sorted(rows, key=start)` is a permutation of its input, sorted by start |
| KeyedMerge.SortIsStable | ph/elastic_api.py:217 | the sort is stable: rows sharing a start value keep their input order |
| KeyedMerge.SortSortedIsIdentity | ph/elastic_api.py:217 | sorting rows already in start order returns them unchanged |
| KeyedMerge.SumSort | ph/elastic_api.py:217 | sorting keeps every column total |
| KeyedMerge.FirstWith | ph/elastic_api.py:148-150 | the first row with a key is a row of the input with that key; there is none exactly when no row has the key |
| KeyedMerge.KeyIndex | ph/elastic_api.py:211-213 | the lookup `if key in dct` finds a position holding the key, or reports that no position holds it |
| KeyedMerge.CollectUnique | ph/elastic_api.py:208-216 | the dictionary pass yields one row per key, and exactly the keys of its input |
| KeyedMerge.CollectSums | ph/elastic_api.py:211-216 | each collected row holds, in every added column, the total of that column over the input rows with its key |
| KeyedMerge.CollectKeepsFirst | ph/elastic_api.py:211-216 | each collected row keeps the non-added columns of the first input row with its key |
| KeyedMerge.CollectUniqueIsIdentity | ph/elastic_api.py:208-216 | on rows whose keys are already distinct the dictionary pass changes nothing |
| KeyedMerge.CollectTotal | ph/elastic_api.py:208-216 | the dictionary pass keeps every added column's grand total |
| KeyedMerge.MergeSpec | ph/elastic_api.py:205-227 | the merge pass yields one row per key of its input, sorted by start, each added column the total over its key, grand totals unchanged |
| KeyedMerge.MergeIdempotent | ph/elastic_api.py:205-227 | merging merged rows changes nothing, row for row and in order |
| KeyedMerge.CollectSameGrouping | ph/elastic_api.py:208-216 | the dictionary pass depends only on which rows share a key |
| KeyedMerge.MergeSameGrouping | ph/elastic_api.py:205-227 | two key functions that group the rows alike give the same merge |
| KeyedMerge.MergeKeepsColumn | ph/elastic_api.py:205-227 | a column that the key and the addition leave alone, such as the start, only takes values found in the input rows |
| FlowBuckets.AccumulateSourceMeaning | ph/elastic_api.py:147-160 | after the loop, the per-source dictionaries have exactly the bucket's source names as keys. Each entry holds its source's first namespace, distinct truthy destination IPs, distinct destination ports and bytes_out total |
| FlowBuckets.AccumulateSourceStep | ph/elastic_api.py:147-160 | one loop iteration keeps that meaning for every source name |
| FlowBuckets.DestIpsAbsent | ph/elastic_api.py:151-157 | a source with no documents has no destination IPs and no ports |
| FlowBuckets.AccumulateDestMeaning | ph/elastic_api.py:162-167 | the per-service dictionaries have exactly the bucket's services as keys, each with its first namespace and bytes_in total |
| FlowBuckets.AccumulateDestStep | ph/elastic_api.py:162-167 | one loop iteration keeps that meaning for every service |
| FlowBuckets.Names | ph/elastic_api.py:169-178 | the names listed before deduplication are exactly the dictionary keys |
| FlowBuckets.SourceRowsFor | ph/elastic_api.py:179-191 | one source row per name, in the given order, built from that name's dictionary entries and stamped with the bucket start |
| FlowBuckets.DestRowsFor | ph/elastic_api.py:193-201 | one destination row per name, in the given order, built from that name's dictionary entries |
| FlowBuckets.BucketSourceRows | ph/elastic_api.py:136-191 | a bucket's source rows name exactly its sources, strictly ascending by name. Each row reports its source's first namespace, distinct-IP count, distinct-port count and byte total |
| FlowBuckets.BucketSourceKeys | ph/elastic_api.py:169-191 | every sorted name has a dictionary entry, and the rows name exactly the bucket's sources in ascending order |
| FlowBuckets.BucketSourceMeans | ph/elastic_api.py:179-191 | every source row reports what the bucket's documents say about its source |
| FlowBuckets.SourceRowsForMeans | ph/elastic_api.py:179-191 | given the dictionaries' meaning, every row built from a list of exactly the bucket's sources reports its source |
| FlowBuckets.SourceRowsForNames | ph/elastic_api.py:169-191 | rows built from a strictly sorted name list carry exactly those names, strictly ascending |
| FlowBuckets.SourceRowsForRow | ph/elastic_api.py:179-191 | row i reports what the documents say about name i |
| FlowBuckets.BucketDestRows | ph/elastic_api.py:136-202 | a bucket's destination rows name exactly its services, strictly ascending, each with the first namespace and the bytes_in total |
| FlowBuckets.BucketDestKeys | ph/elastic_api.py:175-201 | every sorted service has a dictionary entry, and the rows name exactly the bucket's services in ascending order |
| FlowBuckets.DestRowsForNames | ph/elastic_api.py:175-201 | rows built from a strictly sorted service list carry exactly those names, strictly ascending |
| FlowBuckets.BucketDestMeans | ph/elastic_api.py:193-201 | every destination row reports what the bucket's documents say about its service |
| FlowBuckets.PyMod | ph/elastic_api.py:237 | Python's `%` takes the divisor's sign: in [0, b) for a positive b, in (b, 0] for a negative one, and congruent to a modulo b |
| FlowBuckets.AlignDown | ph/elastic_api.py:237 | `t - t % size` is a multiple of the width with `r <= t < r + size` (the floor remainder, for a positive width) |
| FlowBuckets.WalkSpec | ph/elastic_api.py:238-247 | on sorted documents the loop yields non-empty buckets that are aligned, hold only documents of their window and open in increasing order. Together they hold the open bucket's documents and then the rest, in order |
| FlowBuckets.WalkClose | ph/elastic_api.py:239-243 | a document past the open bucket's window closes it and opens an aligned bucket for itself, keeping that shape |
| FlowBuckets.ExtendReady | ph/elastic_api.py:244-247 | a document inside the window joins the open bucket with the loop's invariant kept |
| FlowBuckets.WalkExtend | ph/elastic_api.py:244-247 | joining the open bucket keeps the loop's result well formed; the out-of-order branch of lines 244-246 is never taken on sorted input |
| FlowBuckets.BucketizeSpec | ph/elastic_api.py:234-250 | sorted non-empty input is cut into well-formed buckets that together hold exactly the input, in order |
| FlowBuckets.AggregateData | ph/elastic_api.py:230-251 | no documents give no rows, whatever the width. With documents, a zero width raises ZeroDivisionError. A negative width raises ValueError: the first document closes the empty opening bucket, and its `[]` cannot be unpacked into two lists. A positive width gives at least one source row and one destination row |
| FlowBuckets.FlattenNamespaces | ph/elastic_api.py:238-250 | every row of the buckets carries the namespace of one of their documents |
| FlowBuckets.AggregateDataNamespaces | ph/elastic_api.py:230-251 | every row of a successful bucketing carries the namespace of one of the input documents |
| FlowBuckets.BucketSourceConservation | ph/elastic_api.py:158-191 | a bucket's source rows add up to the bucket's bytes_out total |
| FlowBuckets.BucketDestConservation | ph/elastic_api.py:165-201 | a bucket's destination rows add up to the bucket's bytes_in total |
| FlowBuckets.BucketRowsShape | ph/elastic_api.py:138-201 | all rows of a bucket carry its start, and no two share a (start, name) slot |
| FlowBuckets.FlattenSourceStarts | ph/elastic_api.py:238-250 | every source row of all buckets starts on a multiple of the width, no earlier than the first bucket |
| FlowBuckets.FlattenSourceOrder | ph/elastic_api.py:238-250 | the source rows of all buckets are in start order, one per (start, name) slot |
| FlowBuckets.FlattenDestStarts | ph/elastic_api.py:238-250 | every destination row starts on a multiple of the width, no earlier than the first bucket |
| FlowBuckets.FlattenDestOrder | ph/elastic_api.py:238-250 | the destination rows of all buckets are in start order, one per (start, name) slot |
| FlowBuckets.FlattenConservation | ph/elastic_api.py:238-250 | the rows of all buckets carry all bytes of all their documents |
| FlowBuckets.AggregateDataSpec | ph/elastic_api.py:230-251 | every row starts on a multiple of the width, rows are in start order, no two rows share a (start, name) slot, and no byte is lost or counted twice |
| FlowBuckets.SumOverKeysTotal | ph/elastic_api.py:158-201 | splitting a column total by key and adding the per-key totals back gives the column total |
| FlowMerge.AdditionalAggregationAsWrittenSpec | ph/elastic_api.py:205-227 | after the pass as written each key text occurs once and every input key text occurs. Rows are in start order, each counter is the total over the input rows with its key text, and grand totals are unchanged |
| FlowMerge.AdditionalAggregationSpec | ph/elastic_api.py:205-227 | the corrected pass: after it (keyed by the triple) each key occurs once and every input key occurs. Rows are in start order, each counter is the total over the input rows with its key, and grand totals are unchanged |
| FlowMerge.AsWrittenKeepsFirst | ph/elastic_api.py:210-216 | with the text key, a merged row keeps the namespace and name of the first row with its key |
| FlowMerge.AdditionalAggregationIdempotent | ph/elastic_api.py:205-227 | merging merged rows again changes nothing, for the triple key and for the text key as written |
| FlowMerge.AggregateSamples | ph/elastic_api.py:253-265 | `aggregate_samples` (bucketing, then the pass as written) fails exactly when there are documents and the width is not positive: ZeroDivisionError for 0, ValueError below it. No documents give no rows |
| FlowMerge.AggregateSamplesCorrected | ph/elastic_api.py:253-265 | the same errors for the corrected pipeline keyed by the triple |
| FlowMerge.AggregateSamplesSpec | ph/elastic_api.py:253-265 | for a positive width, rows start on multiples of the width and are in start order, no two share a key text, and no byte is lost or counted twice |
| FlowMerge.AggregateSamplesCorrectedOfOneCall | ph/elastic_api.py:253-265 | with the triple key the merge leaves the rows of a single bucketing call as they are, for every width |
| FlowMerge.AggregateSamplesOfOneCall | ph/elastic_api.py:253-265 | as written, the merge leaves the rows of a single bucketing call as they are when no document's namespace holds '_' |
| FlowMerge.TwoPagesKeepTotals | ph/elastic_api.py:253-265 | documents bucketed page by page and merged together by the key text as written keep every byte of both pages, and each key text occurs once |
| FlowMerge.KeyTextParts | ph/elastic_api.py:210 | when no namespace contains '_', equal key texts come from equal (start, namespace, name) triples |
| FlowMerge.AsWrittenAgreesWithoutUnderscores | ph/elastic_api.py:205-227 | when no namespace contains '_', the pass as written computes the same rows as the triple-keyed pass |
| FlowMerge.UnderscoreCollision | ph/elastic_api.py:210 | namespace "a" with name "b_c" and namespace "a_b" with name "c" share the key text "0_a_b_c" and are merged as written, but kept apart by the triple |
| FlowMerge.CollisionMerged | ph/elastic_api.py:210-216 | the two colliding rows end up as one row with summed counters, as written |
| FlowMerge.CollisionKeptApart | ph/elastic_api.py:205-217 | the triple-keyed pass leaves the two rows as they are |
| FlowExamples.ThreeRecordBuckets | ph/elastic_api.py:235-250 | documents at 0 s, 240 s and 360 s in five-minute buckets: the first two share the bucket at 0, the third opens the bucket at 300 |
| Checkpoint.Load | ph/last_timestamp.py:31-44 | the stored timestamp when there is one, else twice the search interval before now |
| Checkpoint.Save | ph/last_timestamp.py:47-50 | a save always leaves a stored timestamp |
| Checkpoint.Remove | ph/last_timestamp.py:53-56 | a remove always leaves no stored timestamp |
| Checkpoint.LoadAfterSave | ph/last_timestamp.py:31-50 | a saved timestamp is what the next load returns, whatever the clock says |
| Checkpoint.SaveOverwrites | ph/last_timestamp.py:47-50 | the last save wins |
| Checkpoint.LoadAfterRemove | ph/last_timestamp.py:31-56 | after a remove the load falls back to the default window, and removing again changes nothing |
| History.PyDrop | ph/history_storage.py:40 | Python's `xs[k:]` for any int k, negative k counting from the end |
| History.PyIndex | ph/history_storage.py:80 | Python's `xs[k]` exists exactly for `-len <= k < len`, negative k counting from the end |
| History.Retain | ph/history_storage.py:37-41 | keeps the newest `retention` old entries, or all of them when there are fewer |
| History.Save | ph/history_storage.py:17-46 | returns the supplied id when non-empty, else a fresh one. Only the operation's log changes: the newest retained old entries, in order, then the new entry last |
| History.SaveAsWritten | ph/history_storage.py:17-46 | the save as written returns the chosen id and ends the log with the new entry |
| History.SaveAsWrittenPositive | ph/history_storage.py:37-41 | for every positive retention number the save as written is the intended save |
| History.RetentionZeroKeepsAll | ph/history_storage.py:38-40 | with retention 0, `xs[-0:]` keeps the whole log as written, where the intended save keeps only the new entry |
| History.ReadJobs | ph/history_storage.py:83-97 | with no job, the whole log; with a job, exactly that job's entries |
| History.Filter | ph/history_storage.py:94-97 | the filtered log holds exactly the entries of the job |
| History.FilterAppend | ph/history_storage.py:94-97 | filtering keeps log order: after an append the job's entries gain the new one at the end, or nothing |
| History.FirstIdMatch | ph/history_storage.py:77-79 | finds the first entry with the id, or reports that no entry has it |
| History.ReadIdAsWritten | ph/history_storage.py:49-80 | an empty or missing log reads as `{}` |
| History.ReadId | ph/history_storage.py:49-80 | an empty log reads as `{}`. Otherwise: the first entry with the id; else an int id as a Python index (IndexError out of range); else the latest entry |
| History.ReadIdAsWrittenAgrees | ph/history_storage.py:49-80 | wherever the read as written does not raise ValueError, it answers as intended |
| History.DoubleSignLooksNumeric | ph/history_storage.py:74 | "--1" passes the numeric test once both signs are stripped |
| History.DoubleSignNoInt | ph/history_storage.py:75 | `int("--1")` raises |
| History.DoubleSignId | ph/history_storage.py:74-75 | the id "--1" passes the numeric test yet is no Python int literal |
| History.MinusOneId | ph/history_storage.py:49-80 | "-1", the default id of a read, is the Python index of the latest entry |
| History.DoubleSignIdRaises | ph/history_storage.py:74-79 | an entry stored under id "--1" cannot be read back by that id as written (ValueError), but can as intended |
| History.SaveThenRead | ph/history_storage.py:17-80 | save, then read by the returned id: the new entry comes back when no older surviving entry shares its id |
| History.SaveThenReadLatest | ph/history_storage.py:17-80 | after a save, the default read (index -1) returns the new entry |
| History.SaveThenReadJobs | ph/history_storage.py:17-97 | after a save for a job, that job's entries end with the new one |
| Registry.Enabled | ph/globals.py:35 | the enabled jobs are at most the registered ones |
| Registry.EnabledMembers | ph/globals.py:35 | a job is enabled exactly when it is registered and its name is not disabled |
| Registry.Jobs | ph/globals.py:31-35 | `jobs()` holds exactly the registered jobs whose name is not among the comma-separated `PH_DISABLED_DETECTORS` |
| Registry.EnabledAppend | ph/globals.py:35 | the filter keeps registry order |
| Registry.JobsUnset | ph/globals.py:34-35 | with the setting unset or empty, every job with a non-empty name stays enabled, in order |
| Registry.EnabledKeepsAll | ph/globals.py:35 | with no registered name disabled, the filter returns the registry unchanged |
| Registry.DisableL7Latency | ph/globals.py:22-35 | disabling "l7_latency" leaves no job |
| Registry.JobByName | ph/globals.py:38 | the job of a name is a listed job with that name, or there is none with it |
| Registry.JobByNameLast | ph/globals.py:38 | a name's job is the last listed job with that name |
| Registry.ParamDefault | ph/globals.py:43 | the declared default of a parameter is one of the job's declared pairs, or there is none |
| Registry.Trunc | ph/globals.py:48 | `int(x)` of a float truncates toward zero |
| Registry.Convert | ph/globals.py:45-52 | a conversion never fails with KeyError, and on success yields a value of the requested type |
| Registry.GetParam | ph/globals.py:41-53 | KeyError exactly when the job or its parameter is unknown |
| Registry.GetParamOverride | ph/globals.py:44-46 | a declared parameter read as text is its environment override, verbatim |
| Registry.GetParamIntRoundTrip | ph/globals.py:44-48 | an override written as `str(i)` reads back as the int i |
| Registry.GetParamDefault | ph/globals.py:43-48 | with no override an int default reads as itself |
| Registry.L7LatencyDefaults | ph/globals.py:22-53 | with no overrides l7_latency's `n_estimators` is 100 and its score threshold is -0.836 |
| AlertApi.RemoveEach | ph/alert_api.py:90-93 | the deletion loop leaves exactly the keys not listed, with their values |
| AlertApi.RemoveFields | ph/alert_api.py:77-94 | an alert without a record, with an empty record or with no fields is returned as it is. Otherwise only the record changes, losing exactly the listed keys |
| AlertApi.RemoveFieldsIdempotent | ph/alert_api.py:77-94 | removing the same fields twice removes nothing more |
| AlertApi.RemovedFieldsSetting | ph/alert_api.py:17 | the removed fields are the comma-separated setting, "host" when unset |
| AlertApi.Normalize | ph/alert_api.py:69 | the normalized date text has no 'T', no 'Z' and at most 26 characters |
| AlertApi.ReplaceChar | ph/alert_api.py:69 | `s.replace(a, b)` for one character: same length, each `a` turned into `b`, every other character kept |
| AlertApi.RemoveChar | ph/alert_api.py:69 | `s.replace(c, '')`: no `c` left, every other character kept |
| AlertApi.NormalizeIsReplaceThenCut | ph/alert_api.py:69 | the normalized text is the first 26 characters of the text with 'T' replaced by a space and 'Z' removed |
| AlertApi.FirstParse | ph/alert_api.py:63-73 | a date text parses exactly when some format accepts it, and then yields that format's timestamp |
| AlertApi.UnifyRecord | ph/alert_api.py:54-73 | the record keeps its keys. Listed text fields become timestamps (`now` when no format parses); everything else is unchanged |
| AlertApi.UnifyTimeFormat | ph/alert_api.py:41-74 | an alert without a record is unchanged; otherwise only the record changes, keeping its keys, and no listed field is text any more |
| AlertApi.UnifyTimeFormatIdempotent | ph/alert_api.py:41-74 | unifying twice is unifying once, whatever the clock says the second time |
| AlertApi.PrepareAlert | ph/alert_api.py:33-37 | a written alert has no removed field, and its start and end times are not text |
| ModelGeneric.Below | ph/model_generic.py:40-41 | the anomalies are at most as many as the samples |
| ModelGeneric.BelowMembers | ph/model_generic.py:37-41 | the anomalies are exactly the samples scoring strictly below the threshold, each with its score |
| ModelGeneric.BelowAppend | ph/model_generic.py:40-41 | the filter keeps sample order |
| ModelGeneric.MinScore | ph/model_generic.py:54 | `score_max` is the score of some anomaly and no anomaly scores lower |
| ModelGeneric.Confidence | ph/model_generic.py:47-48 | a confidence lies in [0, 0.99], and the lowest score gets 0.99 |
| ModelGeneric.ConfidenceMonotone | ph/model_generic.py:47-48 | among negative scores, the lower a score, the higher its confidence |
| ModelGeneric.AlertsFor | ph/model_generic.py:56-69 | one alert per anomaly, in order |
| ModelGeneric.FormatAnomalies | ph/model_generic.py:46-69 | no anomalies give no alerts; KeyError exactly when an anomaly lacks `start_time`; otherwise one alert per anomaly |
| ModelGeneric.FormattedFrom | ph/model_generic.py:46-69 | every formatted alert is the alert of one of the anomalies |
| ModelGeneric.FormattedHasMin | ph/model_generic.py:54-69 | the lowest-scoring anomaly has an alert in the batch |
| ModelGeneric.FormatAnomaliesOrder | ph/model_generic.py:55-69 | the batch is the alerts of a start-sorted permutation of the anomalies, and its start times do not decrease |
| ModelGeneric.FormatAnomaliesShape | ph/model_generic.py:46-69 | every alert has the fixed type, name, severity and time, and a confidence in [0, 0.99]; some alert has 0.99 |
| ModelGeneric.FindAnomalies | ph/model_generic.py:35-44 | ValueError exactly when no sample holds the value field (no samples included), since the scorer refuses an empty array; AssertionError exactly when some but not all lack it; otherwise at most one alert per sample, each holding a score below the threshold |
| ModelGeneric.NothingBelowNoAlerts | ph/model_generic.py:35-44 | a non-empty batch where nothing scores below the threshold raises no alert; an empty batch raises ValueError |
| ApiHelper.CleanData | ph/api_helper.py:120 | the cleaned record keeps its keys, replaces NaN by 0 and keeps every other value |
| ApiHelper.CleanDataIdempotent | ph/api_helper.py:120 | cleaning NaN-free data changes nothing; cleaning is idempotent |
| ApiHelper.FormatAlert | ph/api_helper.py:116-122 | an alert converts exactly when its name has a job part and it has a record. The anomaly carries the job, time, description and cleaned record |
| ApiHelper.FormatAlertsToAnomalies | ph/api_helper.py:110-123 | succeeds exactly when every alert converts, giving one anomaly per alert in order; otherwise the error of a bad alert |
| ApiHelper.AnomaliesOfAlerts | ph/api_helper.py:110-123 | a well-formed batch becomes anomalies of the alerts' jobs with the records' keys and no NaN |
| ApiHelper.DistinctNames | ph/api_helper.py:100-103 | the dict's keys: each job name once, and nothing else |
| ApiHelper.ParamsView | ph/api_helper.py:102-106 | the job's declared parameters, each shown as its override when set, else its default |
| ApiHelper.GetEnvVars | ph/api_helper.py:97-107 | no name, "", "all" or an unknown job list all jobs, one entry per distinct name; a known job gives that job's parameters |
| ApiHelper.AllEntries | ph/api_helper.py:100-103 | one entry per distinct job name, in the order the names first appear, each the parameters of the last job with that name |
| ApiHelper.SetEnvVars | ph/api_helper.py:81-94 | every given parameter is set to `str(value)`, the last of a repeated name winning; other variables are unchanged |
| ApiHelper.SetThenGet | ph/api_helper.py:81-107 | after a parameter is set, reading the job's parameters reports the stored text |
| ApiHelper.SetThenGetL7Latency | ph/api_helper.py:81-107 | setting l7_latency's `n_estimators` to "200" reads back "200" |
| ApiHelper.PyTake | ph/api_helper.py:52 | Python's `xs[:k]` is a prefix of the length Python gives, negative k counting from the end |
| ApiHelper.Truncate | ph/api_helper.py:52 | a truncated list is no longer than before, nor longer than a non-negative cap |
| ApiHelper.MaxDocs | ph/api_helper.py:18-21 | a truthy `max_log_records` wins; else `PH_max_docs`, 500000 when unset, ValueError when not an int |
| ApiHelper.FirstJob | ph/api_helper.py:23-24 | the first job with a name is a listed job with that name, or there is none with it |
| ApiHelper.RequestLists | ph/api_helper.py:43-51 | flow-derived types give both the source and the destination lists, or the bucketing's error when there are records and the width is not positive; any other type gives its own raw records |
| ApiHelper.FlowLists | ph/api_helper.py:48-50 | the source and destination lists are those `aggregate_samples` gives for the records, with its ZeroDivisionError or ValueError passed on |
| ApiHelper.PrepareRequestSamples | ph/api_helper.py:13-53 | errors for a bad cap, an unknown job, missing data, a log of the wrong kind or a width the bucketing refuses; otherwise the job's sample lists, each cut to the cap |
| ApiHelper.PreparedWithinCap | ph/api_helper.py:13-53 | with a non-negative cap every prepared list holds at most that many samples |
| ApiHelper.RawRequestKeepsAll | ph/api_helper.py:13-53 | a request whose records fit under `max_log_records` keeps all of them, for a raw data type |
| ModelProcessor.SaveModel | ph/model_processor.py:47-58 | saving replaces the job's file and leaves the other jobs' files alone |
| ModelProcessor.LoadModel | ph/model_processor.py:61-73 | a job never saved loads as (None, None); otherwise its saved pair |
| ModelProcessor.LoadAfterSave | ph/model_processor.py:47-73 | loading returns what was saved last for that job; saving one job leaves the others' loads alone |
| ModelProcessor.TrainJob | ph/model_processor.py:147-163 | a successful training is saved, even with no model; a failing one leaves the store as it was; other jobs are untouched |
| ModelProcessor.Detect | ph/model_processor.py:166-186 | an unknown job, or a dynamic job without a model, gives no alerts. A static job detects without the store |
| ModelProcessor.DetectStaticIgnoresStore | ph/model_processor.py:180-181 | a static job's alerts do not depend on the model files |
| ModelProcessor.DetectAfterTrain | ph/model_processor.py:147-186 | a dynamic job detects with what its last successful training saved, and a failing detector yields nothing |
| ModelProcessor.Put | ph/model_processor.py:121 | `d[k] = v` maps k to v, keeps every other key's value, and grows by at most one entry |
| ModelProcessor.PutFrom | ph/model_processor.py:121 | every entry after `d[k] = v` is the new one or was already there |
| ModelProcessor.PutDistinct | ph/model_processor.py:116-121 | `d[k] = v` keeps the index's keys distinct |
| ModelProcessor.ProcessBytesIndex | ph/model_processor.py:115-121 | the first loop succeeds exactly when every alert has a job name, a record and, for process_bytes, a start time. Its index has distinct start times |
| ModelProcessor.LaterProcessBytesWins | ph/model_processor.py:116-121 | a later process_bytes record with the same start time replaces an earlier one |
| ModelProcessor.TimeOf | ph/model_processor.py:106-107 | a parsed time comes from a text field the format parser accepts |
| ModelProcessor.ElementInInterval | ph/model_processor.py:109-113 | an empty index finds nothing. A found record's start lies in the interval, and every earlier entry misses; finding nothing means every entry misses |
| ModelProcessor.ElementInIntervalTail | ph/model_processor.py:109-113 | the rest of the scan has the same meaning on the remaining entries |
| ModelProcessor.Rewrite | ph/model_processor.py:127-143 | an alert yields at most one alert. Pass-through alerts are kept unchanged, process_bytes alerts dropped, and any kept alert keeps its job and time |
| ModelProcessor.RewriteAll | ph/model_processor.py:126-144 | the second loop yields no more alerts than it gets, and none of process_bytes |
| ModelProcessor.RewriteAllPassing | ph/model_processor.py:126-144 | the second loop keeps every pass-through alert, in order, and adds none |
| ModelProcessor.PassingOnesConcat | ph/model_processor.py:126-144 | the pass-through alerts of a concatenation are those of each part, in order |
| ModelProcessor.AggregateByteAnomalies | ph/model_processor.py:96-144 | process_bytes alerts are dropped, other jobs' alerts pass unchanged and in order, and no alert is added |
| ModelProcessor.BytesAlertKeptIff | ph/model_processor.py:130-141 | a bytes alert with a parsable interval is kept exactly when some indexed process_bytes start lies in it, and then carries the first such record |
| ModelProcessor.ElementInIntervalOk | ph/model_processor.py:106-113 | with parsable interval ends and indexed starts, the scan does not raise |
| ModelProcessor.TrainEach | ph/model_processor.py:209-215 | only dynamic jobs' files change, and a missing samples entry is the only error |
| ModelProcessor.Train | ph/model_processor.py:195-217 | nothing happens when every sample list is empty; only dynamic jobs' files change; with samples, it fails exactly when some dynamic job's samples entry is missing |
| ModelProcessor.TrainEachSaves | ph/model_processor.py:147-163 | after the loop, the last dynamic job of a name whose training succeeded has the trainer's model and aggregates stored |
| ModelProcessor.TrainEachFailuresKeep | ph/model_processor.py:147-163 | a name all of whose dynamic jobs fail to train keeps the artifact it had |
| ModelProcessor.TrainThenDetect | ph/model_processor.py:147-217 | after `train`, a job's stored artifact is what its trainer returned, and when it is the last job of its name and has a model, detection runs the detector on exactly that model and those aggregates |
| ModelProcessor.TrainKeepsStaticJobs | ph/model_processor.py:209-215 | static jobs' saved artifacts survive any training cycle |
| ModelProcessor.DetectEach | ph/model_processor.py:236-245 | the detection loop fails exactly when some job's samples entry is missing, and finds nothing when every list is empty |
| ModelProcessor.SaveData | ph/model_processor.py:76-93 | a file is written, under its name, exactly when there are rows, and holds those rows |
| ModelProcessor.FindAnomalies | ph/model_processor.py:219-257 | a completed cycle moves the checkpoint to now and saves the anomalies file. It sends alerts exactly when there are anomalies, sending is on and the cycle is not 0. A failed cycle sends nothing and clears the checkpoint only in cycle 0 |
| ModelProcessor.WindowsChain | ph/model_processor.py:270-280 | a live cycle after a successful one at t starts at t unless a start is configured; after a remove it starts at the default window |
| ModelProcessor.LaterCyclesKeepCheckpoint | ph/model_processor.py:230-234 | a live cycle numbered above 0 never clears the checkpoint, even when loading fails |
| ModelProcessor.EmptyCycle | ph/model_processor.py:219-257 | with every sample list empty, a cycle finds nothing, sends nothing and still moves the checkpoint |
| SelfDiagnostics.Dedup | ph/self_diagnostics.py:41-42 | the distinct names are exactly the names |
| SelfDiagnostics.Names | ph/self_diagnostics.py:41-42 | one name per counter entry |
| SelfDiagnostics.Bump | ph/self_diagnostics.py:41-42 | `counter[n] += 1` grows the counter only for a new name |
| SelfDiagnostics.BumpNames | ph/self_diagnostics.py:41-42 | the counter's names are unchanged, or gain the new name at the end |
| SelfDiagnostics.BumpCounts | ph/self_diagnostics.py:41-42 | only the count of the name changes, by one, and so does the total |
| SelfDiagnostics.Tally | ph/self_diagnostics.py:41-42 | `Counter(names)` lists each distinct name once, in first-appearance order, with its number of occurrences; the counts add up to the number of names |
| SelfDiagnostics.AlertJobs | ph/self_diagnostics.py:42 | every alert's job, in order, or failure when some alert name has no job part |
| SelfDiagnostics.FormatAllDetected | ph/self_diagnostics.py:35-44 | no alerts succeed only when allowed. Otherwise IndexError exactly when some name has no job part, else one entry per job with counts adding up to the alerts, and success |
| SelfDiagnostics.GroupValues | ph/self_diagnostics.py:129-130 | the group values are the rendered values of the row's group-field columns |
| SelfDiagnostics.GroupKeyRoundTrip | ph/self_diagnostics.py:129-130 | with at least one group value and no '^' in any, splitting the key at '^' gives the values back |
| SelfDiagnostics.GroupKeyInjective | ph/self_diagnostics.py:129-130 | rows collapse under one key only when their group values agree |
| SelfDiagnostics.KeyBy | ph/self_diagnostics.py:129-130 | every row's key is present in the keyed dict |
| SelfDiagnostics.KeyByHoldsLast | ph/self_diagnostics.py:129-130 | a key holds the last row that carries it |
| SelfDiagnostics.KeyByKeys | ph/self_diagnostics.py:129-130 | every key of the dict is the key of some row |
| SelfDiagnostics.Column | ph/self_diagnostics.py:127-128 | a column's value is the row's pair with that name, or the row has no such column |
| SelfDiagnostics.DropColumn | ph/self_diagnostics.py:127 | the row without the column keeps exactly the other pairs |
| SelfDiagnostics.LabelledRows | ph/self_diagnostics.py:127-128 | the filter succeeds exactly when every row has the `anomaly` column, keeping at most all rows; otherwise KeyError |
| SelfDiagnostics.LabelledRowsMembers | ph/self_diagnostics.py:127-128 | the labelled rows are exactly the rows labelled an anomaly, each without its label |
| SelfDiagnostics.TestAnomalies | ph/self_diagnostics.py:121-130 | the test anomalies are keyed by exactly the registered job names |
| SelfDiagnostics.TestAnomaliesReadAll | ph/self_diagnostics.py:121-123 | a successful read found every registered job's dataset |
| SelfDiagnostics.TestAnomaliesNotFound | ph/self_diagnostics.py:121-123 | a FileNotFoundError names a registered job whose dataset is missing |
| SelfDiagnostics.TestAnomaliesFirstMissing | ph/self_diagnostics.py:121-123 | the datasets are read in registry order without a check, so a missing dataset of the first job raises FileNotFoundError |
| SelfDiagnostics.EvalRewritten | ph/self_diagnostics.py:140 | `eval(record.replace('nan', 'None'))` keeps the record's length, rewriting keys and text values and reading NaN back as None |
| SelfDiagnostics.EvalRewrittenNanFree | ph/self_diagnostics.py:140 | a record with no `nan` in its `repr` reads back as it was written |
| SelfDiagnostics.RecordsOf | ph/self_diagnostics.py:137-140 | a job's detected records are at most all of the rows |
| SelfDiagnostics.RecordsOfNanFree | ph/self_diagnostics.py:137-140 | with no `nan` in any record, a job's records are exactly the records of the alerts naming it |
| SelfDiagnostics.NanInTextMissesLabel | ph/self_diagnostics.py:129-145 | a detected row in namespace `finance` comes back as `fiNonece`, so against its own label it counts as one false alarm and one miss, with F1 = 0 |
| SelfDiagnostics.NanValueMissesLabel | ph/self_diagnostics.py:129-145 | a NaN group value is keyed `nan` among the labels but `None` among the detections |
| SelfDiagnostics.JobsNamed | ph/self_diagnostics.py:137-140 | the jobs named are exactly the job parts of the alert names |
| SelfDiagnostics.CheckAlerts | ph/self_diagnostics.py:137-140 | the checks pass exactly when every alert names a registered job |
| SelfDiagnostics.NamedJobsRegistered | ph/self_diagnostics.py:137-140 | once the checks pass, every job an alert names is registered |
| SelfDiagnostics.DetectedTest | ph/self_diagnostics.py:133-145 | succeeds exactly when every alert names a registered job. It is keyed by exactly the named jobs, each holding its detected anomalies by group key |
| SelfDiagnostics.DetectedJobsRegistered | ph/self_diagnostics.py:141-145 | every job of the detected anomalies is registered |
| SelfDiagnostics.SplitCount | ph/self_diagnostics.py:81-91 | the true and false positives together are all detections |
| SelfDiagnostics.StatsOf | ph/self_diagnostics.py:79-102 | defined exactly when the labels and detections are non-empty (else a zero division). TP, FP and FN are the intersection and differences; precision, recall and F1 are their ratios; success means F1 reaches the tolerance |
| SelfDiagnostics.FractionAtMostOne | ph/self_diagnostics.py:97-99 | a ratio of a count to a larger count lies in [0, 1] |
| SelfDiagnostics.F1HarmonicMean | ph/self_diagnostics.py:97-99 | F1 is the harmonic mean of precision and recall |
| SelfDiagnostics.EachJob | ph/self_diagnostics.py:68-103 | every labelled job is registered, and each reported line belongs to a labelled job with detections |
| SelfDiagnostics.EachJobReports | ph/self_diagnostics.py:68-103 | every line is its job's statistics, and every labelled job with detections has a line |
| SelfDiagnostics.ReportJobStatistics | ph/self_diagnostics.py:47-105 | AssertionError when a detected job has no test dataset. Otherwise every detected job is reported with its statistics, and the verdict is success exactly when every reported job succeeds |
| SelfDiagnostics.NothingDetectedSucceeds | ph/self_diagnostics.py:47-105 | with nothing detected no job is reported and the verdict is success |
| SelfDiagnostics.NothingDetectedEach | ph/self_diagnostics.py:68-103 | with nothing detected the per-job loop reports nothing |
| SelfDiagnostics.OneHitOneFalseAlarm | ph/self_diagnostics.py:79-102 | one hit and one false alarm against one label give F1 = 2/3, a failure at l7_latency's tolerance 0.85 |
| SelfDiagnostics.OutputReport | ph/self_diagnostics.py:108-186 | the verdict is success exactly when both cycles succeed. An exception fails the live cycle with its text, and is raised only after the report is saved. A missing test anomalies file raises |
| SelfDiagnostics.TestCycle | ph/self_diagnostics.py:121-148 | the test verdict is success exactly when every reported job succeeds. It fails when an alert names an unregistered job, and with FileNotFoundError when the test anomalies file does not exist |
| SelfDiagnostics.OrderIsTestJobs | ph/self_diagnostics.py:121-148 | the registry's distinct names are exactly the jobs of the labelled anomalies |
| SelfDiagnostics.LiveReport | ph/self_diagnostics.py:150-164 | an exception gives a failure with its text; otherwise the counts of the live alerts, success even with none |
| SelfDiagnostics.SaveReport | ph/self_diagnostics.py:183 | the report is saved, with the retention number as configured, as the latest self_diagnostics entry of job "all", under the chosen id |
| SelfDiagnostics.Jobnames | ph/self_diagnostics.py:133 | the job names in registry order |
| Scheduler.IntSetting | ph/ph.py:106-110 | `int(os.getenv(name, default))`: the default when unset, else the text as an int |
| Scheduler.ReadIntervals | ph/ph.py:106-110 | the intervals read exactly when both settings are ints; otherwise ValueError |
| Scheduler.IntervalSettings | ph/ph.py:106-110 | unset, the service trains daily and searches every 30 minutes; a setting written as `str(k)` reads back as k |
| Scheduler.MissingOf | ph/ph.py:44-53 | the missing variables are exactly the listed ones that are unset or empty |
| Scheduler.WrongTypeOf | ph/ph.py:33-42 | the mistyped variables are exactly the typed ones present whose text the type refuses |
| Scheduler.TypedNames | ph/ph.py:44-53 | the typed variables' names, in order |
| Scheduler.ValidateEnv | ph/ph.py:24-64 | the check passes exactly when every required and typed variable is set and non-empty and every typed one is accepted |
| Scheduler.ValidateEnvMissing | ph/ph.py:44-63 | a failed check lists exactly the required and typed variables that are unset or empty |
| Scheduler.ValidateServiceEnv | ph/ph.py:24-64 | with the service's list, the check fails exactly when the user or the password is unset or empty |
| Scheduler.SelfDiagnosticsRun | ph/ph.py:79-93 | a call runs only when the one before it completed. Only a live connection error is captured and handed to the report; any other failure propagates |
| Scheduler.Live | ph/ph.py:86-92 | the live detection runs exactly when the live training completed |
| Scheduler.OnlyConnectionErrorsCaptured | ph/ph.py:86-93 | a failure other than a connection error always propagates, whichever call raised it |
| Scheduler.TruncDiv | ph/ph.py:121 | `int(a / b)` truncates toward zero |
| Scheduler.Tick | ph/ph.py:121-129 | a zero interval raises ZeroDivisionError before any dispatch. Otherwise training and detection start exactly when the minute is a multiple of their interval, each counter moving up by one per start |
| Scheduler.Run | ph/ph.py:119-129 | a non-empty run raises exactly when an interval is 0, and the counters never go down |
| Scheduler.RunUnfold | ph/ph.py:119-129 | a run is one turn of the loop followed by the rest |
| Scheduler.RunTrainNumbers | ph/ph.py:119-129 | training cycles are numbered consecutively from the counter they started at |
| Scheduler.RunFindNumbers | ph/ph.py:119-129 | detection cycles are numbered consecutively from the counter they started at |
| Scheduler.RangeConcat | ph/ph.py:119-129 | consecutive number ranges join into one |
| Scheduler.NumbersConcat | ph/ph.py:124-129 | the cycle numbers of two dispatch lists are those of each, in order |
| Scheduler.TickNumbers | ph/ph.py:124-129 | one turn starts at most the next training cycle and the next detection cycle, numbered by the incremented counters |
| Scheduler.CyclesNumberedFromOne | ph/ph.py:119-129 | from counters (0, 0) the cycles of each kind are numbered 1, 2, 3, ..., so no steady cycle is number 0 |
| Scheduler.NumberListed | ph/ph.py:124-129 | every dispatched cycle's number is among the numbers of its kind |
| Scheduler.DailyTickStartsBoth | ph/ph.py:121-129 | with the default intervals, minute 1440 starts both a training and a detection cycle |
| Scheduler.Start | ph/ph.py:96-130 | a bad interval gives ValueError, a failed check an environment error, and a diagnostics exception propagates. Otherwise every dispatched cycle is numbered from 1 |

## Left out

- Elasticsearch: queries, scrolling, paging and downloads are left out. Log
  documents, samples and test datasets enter the model as arguments.
- Writing alerts to Elasticsearch: only what `send_alerts` writes is modelled
  (`AlertApi.PrepareAlert`). The request itself is I/O.
- File formats: pickle, CSV and jsonlines are modelled as in-memory maps.
  Reading a file back gives what was written. A missing file is `None` or
  an absent key. Where the source checks for the file first (the history
  logs, the live anomalies file, the checkpoint), a missing file reads as
  empty. Two reads have no check: each job's labelled test dataset
  (`SelfDiagnostics.TestAnomalies`) and the test anomalies file
  (`SelfDiagnostics.TestCycle`). A missing one raises FileNotFoundError.
- The CSV round trip of a detected record is `eval` of its `repr`. The model
  assumes `eval(repr(record))` gives the record back, and applies the
  `replace('nan', 'None')` to keys and text values and to NaN values. Escapes
  inside `repr` of text, and `inf`, are left out.
- Concurrency: the lock, `Process` and `sleep` are left out. A cycle is one
  function from its inputs to its effects.
- The isolation forest, numpy and pandas are left out. The scorer, the
  trainer and the detector of a job are parameters. `L7LatencyModel.train`
  and `_calc_aggregators` (the fit and the aggregate statistics) are left
  out for that reason.
- Rounding is left out: `round(..., 2)` and `round(..., 3)` of confidence,
  precision, recall and F1, and the `:.0%` text. Real arithmetic is exact.
- NaN in model scores, and the float precision of `int(a / b)`, are left
  out. `Scheduler.TruncDiv` is exact truncation.
- `strptime`, `datetime.fromtimestamp` and `utcnow` are parameters or
  plain ints. A row carries its bucket start as an int, not as the
  local-time text `str(datetime.fromtimestamp(start))`. The merge pass
  therefore keys and sorts on the int, rendered as `str(start)` inside the
  text key. The local-time text is not injective: when a daylight-saving
  change turns the clock back, two bucket starts an hour apart render
  alike and their rows share a key. Across that change the text also stops
  sorting like the int. The model promises neither case as the source
  behaves; it is exact only for a time zone without such changes.
- `eval` is left out: `get_param` with `bool` is modelled only for the texts
  "True" and "False" (others are an error), and `PH_send_alerts` is a
  boolean setting. `Registry.Convert` states only the result's type for
  those cases.
- `str2class` is left out: the model class of a job is its detector
  parameter.
- The `dga` remapping of test and detected anomalies is left out, because no
  registered job is named `dga`.
- The `start_time` patch for `port_scan` and `ip_sweep` test datasets is
  left out, because no registered job has those names.
- Only the `request` branch of `prepare_samples` is modelled. The
  `test_dataset` and `logs` branches read files or Elasticsearch, and
  `prepare_all_samples` is the same per-job loop over them.
- Description text of alerts and anomalies is a parameter, so the wording
  of the messages is left out.
- Logging is left out everywhere.
- Text is a sequence of characters. Unicode case rules and the whitespace
  that `int()` tolerates around digits are left out.
- Text.PyInt: accepts one optional sign followed by ASCII digits. Python's
  `int()` also accepts '_' between digits ("1_000") and non-ASCII decimal
  digits ("٣"); those are refused here.
- History.ReadIdAsWritten: the numeric test `lstrip('-+').isnumeric()` is
  modelled on ASCII digits only. Python's `isnumeric` also accepts
  characters such as '²', '½' and '٣', so such an id takes the `int()` path
  in the source (and raises ValueError for '²' and '½') but is searched as
  text here.
- ApiHelper.FlowLists: the conversion of a request record to a flow
  document is a total parameter. A record lacking `start_time` or another
  flow field raises KeyError in the source (ph/elastic_api.py:234 and
  148-167), and a non-numeric time or byte count raises TypeError; the
  model has no such path.
- ApiHelper.RequestLists: the same KeyError and TypeError of malformed flow
  records are not modelled, because it goes through `ApiHelper.FlowLists`.
- ApiHelper.PrepareRequestSamples: its errors omit the same KeyError and
  TypeError of malformed flow records.
- ModelProcessor.Put: keys are compared as model values, so `VInt(1)`,
  `VFloat(1.0)` and `VBool(true)` are three keys where Python has one.
  The keys used are start times, which are ints.
- Descriptions are parameters, so the KeyErrors their f-strings can raise
  are left out: `ModelGeneric.FormatAnomalies` does not raise when a record
  lacks `src_namespace` (ph/model_generic.py:65), and
  `ModelProcessor.Rewrite` does not raise when the process_bytes record
  lacks `dest_namespace` or `source_namespace` (ph/model_processor.py:135-137).
- The list of typed environment variables in `validate_env_variables` is
  empty in the source. `Scheduler.ValidateEnv` takes it as an argument.
- Connection errors are a flag on a step's outcome, since the network is
  not modelled.
- Loading training data for a cycle is a parameter of
  `ModelProcessor.FindAnomalies`.
- `_aggregate_bucket` returns `[]` for an empty bucket; the loop of
  `_aggregate_data` never passes one (every bucket holds the document that
  opened it). So `FlowBuckets.BucketSourceRows` and
  `FlowBuckets.BucketDestRows` are stated for the buckets the loop builds.
- Retention: the code keeps `N` old entries plus the new one, so a log
  holds up to N + 1 entries. The model follows the code rather than a
  reading where a log holds at most N.
- ModelProcessor.DetectAll: the detection step inside a cycle carries no
  contract of its own. What it promises is stated through
  `ModelProcessor.FindAnomalies` and `ModelProcessor.EmptyCycle`.
- ModelProcessor.FindAnomalies: the alerts found are not related back to
  each job's detector output one by one. The contract states the
  checkpoint, the saved file and whether alerts are sent.
- History.ReadIdAsWritten: its contract states only the empty-log case. Its
  other behaviour is stated through `History.ReadIdAsWrittenAgrees` and
  `History.DoubleSignIdRaises`.
- History.SaveAsWritten: its contract states the returned id and the last
  entry only. `SelfDiagnostics.SaveReport` saves through it, with the
  retention number as an int. Its retention is related to the intended one by
  `History.SaveAsWrittenPositive` and `History.RetentionZeroKeepsAll`.

## Findings

| source | as written | input that shows it | evidently intended | confidence | as-written member | corrected member |
|---|---|---|---|---|---|---|
| ph/elastic_api.py:210 | the merge key of a source row is `f"{start}_{namespace}_{name}"` (and the same at line 221 for destination rows), so a '_' inside a namespace or name makes two different entities share a key | rows (0, "a", "b_c") and (0, "a_b", "c") in one bucket both get the key `<start>_a_b_c` and are summed into one row | merge rows with equal (start, namespace, name) | not executed; low, since Kubernetes namespace names cannot hold '_' and the collision needs one in a namespace or a name | FlowMerge.UnderscoreCollision | FlowMerge.AdditionalAggregationSpec |
| ph/history_storage.py:38-40 | old entries are trimmed with `existed_items[-N:]`; for N = 0 this is the whole list | `PH_HISTORY_RETENTION_NUMBER=0` with two saved entries: the third save keeps all three | keep the newest N old entries, so none when N = 0 | not executed | History.RetentionZeroKeepsAll | History.Save |
| ph/history_storage.py:74-75 | an id passing `lstrip('-+').isnumeric()` is converted with `int(id)` before the search by id; two signs pass the test but `int` raises ValueError | an entry saved with id "--1" and read back with id "--1" | find the entry stored under that id; only a real int id is a Python index | not executed | History.DoubleSignIdRaises | History.ReadId |

`FlowMerge.AggregateSamples`, and with it the request path of
`ApiHelper.PrepareRequestSamples`, runs the merge pass with the key text as
written. `FlowMerge.AggregateSamplesCorrected` is the pipeline keyed by the
triple. `FlowMerge.AggregateSamplesOfOneCall` and
`FlowMerge.AsWrittenAgreesWithoutUnderscores` state where the two agree.
