/**
 * Time bucketing of flow-log documents (`_aggregate_bucket` and
 * `_aggregate_data` of ph/elastic_api.py).
 *
 * Documents are sorted by start time and cut into fixed-width buckets
 * whose starts are multiples of the bucket width; each bucket becomes one
 * source row per distinct `source_name_aggr` and one destination row per
 * distinct `dest_service_name`. A row's `start_time` is the bucket start
 * (the source renders it as local-time text; see README).
 */
module FlowBuckets {
  import opened Wrappers
  import opened Text
  import opened KeyedMerge

  /** The fields of a flow-log document that the aggregation reads. */
  datatype FlowRecord = FlowRecord(
    startTime: int,
    sourceNameAggr: string,
    sourceNamespace: string,
    destIp: Option<string>,
    destPort: Option<int>,
    destServiceName: string,
    destNamespace: string,
    bytesIn: int,
    bytesOut: int)

  /** One source-entity row of a bucket. */
  datatype SourceRow = SourceRow(
    startTime: int,
    sourceNamespace: string,
    sourceNameAggr: string,
    uniqueDestIpNumber: int,
    uniqueDestPortNumber: int,
    bytesOut: int)

  /** One destination-service row of a bucket. */
  datatype DestRow = DestRow(startTime: int, destNamespace: string, destServiceName: string, bytesIn: int)

  /** A closed bucket: its aligned start and the documents placed in it. */
  datatype Bucket = Bucket(start: int, records: seq<FlowRecord>)

  function RecordStart(r: FlowRecord): int { r.startTime }
  function RecordBytesOut(r: FlowRecord): int { r.bytesOut }
  function RecordBytesIn(r: FlowRecord): int { r.bytesIn }
  function RecordSource(r: FlowRecord): string { r.sourceNameAggr }
  function RecordDest(r: FlowRecord): string { r.destServiceName }
  function SourceRowStart(r: SourceRow): int { r.startTime }
  function SourceRowName(r: SourceRow): string { r.sourceNameAggr }
  function SourceRowBytesOut(r: SourceRow): int { r.bytesOut }
  function DestRowStart(r: DestRow): int { r.startTime }
  function DestRowName(r: DestRow): string { r.destServiceName }
  function DestRowBytesIn(r: DestRow): int { r.bytesIn }

  /** `if el['dest_ip']`: None and the empty string are skipped. */
  predicate HasDestIp(r: FlowRecord) { r.destIp.Some? && r.destIp.value != "" }

  // ---- what a bucket row stands for --------------------------------------

  /** The distinct truthy destination IPs of the documents of source `n`. */
  function DestIpsOf(rows: seq<FlowRecord>, n: string): set<string>
    decreases |rows|
  {
    if |rows| == 0 then {}
    else
      var last := rows[|rows| - 1];
      DestIpsOf(rows[..|rows| - 1], n) + (if last.sourceNameAggr == n && HasDestIp(last) then {last.destIp.value} else {})
  }

  /** The distinct destination ports (None included) of the documents of source `n`. */
  function DestPortsOf(rows: seq<FlowRecord>, n: string): set<Option<int>>
    decreases |rows|
  {
    if |rows| == 0 then {}
    else
      var last := rows[|rows| - 1];
      DestPortsOf(rows[..|rows| - 1], n) + (if last.sourceNameAggr == n then {last.destPort} else {})
  }

  function BytesOutOf(rows: seq<FlowRecord>, n: string): int { SumWhere(rows, RecordSource, n, RecordBytesOut) }

  function BytesInOf(rows: seq<FlowRecord>, n: string): int { SumWhere(rows, RecordDest, n, RecordBytesIn) }

  // ---- the loop of _aggregate_bucket ------------------------------------

  /** The four per-source dictionaries of the loop, one entry per source name. */
  datatype SourceAcc = SourceAcc(namespace: string, ips: set<string>, ports: set<Option<int>>, bytesOut: int)

  /** The two per-destination dictionaries of the loop. */
  datatype DestAcc = DestAcc(namespace: string, bytesIn: int)

  function AccumulateSource(rows: seq<FlowRecord>): map<string, SourceAcc>
    decreases |rows|
  {
    if |rows| == 0 then map[]
    else
      var acc := AccumulateSource(rows[..|rows| - 1]);
      var el := rows[|rows| - 1];
      var n := el.sourceNameAggr;
      var a := if n in acc then acc[n] else SourceAcc(el.sourceNamespace, {}, {}, 0);
      acc[n := SourceAcc(a.namespace,
                         if HasDestIp(el) then a.ips + {el.destIp.value} else a.ips,
                         a.ports + {el.destPort},
                         a.bytesOut + el.bytesOut)]
  }

  function AccumulateDest(rows: seq<FlowRecord>): map<string, DestAcc>
    decreases |rows|
  {
    if |rows| == 0 then map[]
    else
      var acc := AccumulateDest(rows[..|rows| - 1]);
      var el := rows[|rows| - 1];
      var n := el.destServiceName;
      var a := if n in acc then acc[n] else DestAcc(el.destNamespace, 0);
      acc[n := DestAcc(a.namespace, a.bytesIn + el.bytesIn)]
  }

  lemma {:induction false} KeySetAppend<R>(rows: seq<R>, x: R, key: R -> string)
    ensures KeySet(rows + [x], key) == KeySet(rows, key) + {key(x)}
  {
    var s := rows + [x];
    forall k | k in KeySet(s, key) ensures k in KeySet(rows, key) + {key(x)} {
      var i :| 0 <= i < |s| && key(s[i]) == k;
      if i < |rows| { assert s[i] == rows[i]; }
    }
    forall k | k in KeySet(rows, key) ensures k in KeySet(s, key) {
      var i :| 0 <= i < |rows| && key(rows[i]) == k;
      assert s[i] == rows[i];
    }
    assert s[|rows|] == x;
  }

  /** Entry `n` of the source dictionaries is what the rows say about source `n`. */
  ghost predicate SourceEntryMeans(rows: seq<FlowRecord>, n: string) {
    && n in AccumulateSource(rows)
    && FirstWith(rows, RecordSource, n).Some?
    && AccumulateSource(rows)[n] == SourceAcc(FirstWith(rows, RecordSource, n).value.sourceNamespace,
                                              DestIpsOf(rows, n), DestPortsOf(rows, n), BytesOutOf(rows, n))
  }

  lemma {:induction false} AccumulateSourceStep(prefix: seq<FlowRecord>, el: FlowRecord, n: string)
    requires AccumulateSource(prefix).Keys == KeySet(prefix, RecordSource)
    requires n in AccumulateSource(prefix) ==> SourceEntryMeans(prefix, n)
    requires n in AccumulateSource(prefix + [el])
    ensures SourceEntryMeans(prefix + [el], n)
  {
    var rows := prefix + [el];
    assert rows[..|rows| - 1] == prefix;
    assert rows[|rows| - 1] == el;
    FirstWithAppend(prefix, el, RecordSource, n);
    SumWhereAppend(prefix, el, RecordSource, n, RecordBytesOut);
    if n !in AccumulateSource(prefix) {
      SumWhereAbsent(prefix, RecordSource, n, RecordBytesOut);
      DestIpsAbsent(prefix, n);
    }
  }

  /**
   * The dictionaries the loop builds hold, for every source name seen, the
   * namespace of its first document, its distinct destination IPs and
   * ports, and its byte total.
   */
  lemma {:induction false} AccumulateSourceMeaning(rows: seq<FlowRecord>)
    ensures AccumulateSource(rows).Keys == KeySet(rows, RecordSource)
    ensures forall n :: n in AccumulateSource(rows) ==> SourceEntryMeans(rows, n)
    decreases |rows|
  {
    if |rows| > 0 {
      var prefix := rows[..|rows| - 1];
      var el := rows[|rows| - 1];
      assert rows == prefix + [el];
      AccumulateSourceMeaning(prefix);
      KeySetAppend(prefix, el, RecordSource);
      forall n | n in AccumulateSource(rows) ensures SourceEntryMeans(rows, n) {
        AccumulateSourceStep(prefix, el, n);
      }
    }
  }

  lemma {:induction false} DestIpsAbsent(rows: seq<FlowRecord>, n: string)
    requires n !in KeySet(rows, RecordSource)
    ensures DestIpsOf(rows, n) == {} && DestPortsOf(rows, n) == {}
    decreases |rows|
  {
    if |rows| > 0 {
      var prefix := rows[..|rows| - 1];
      assert rows == prefix + [rows[|rows| - 1]];
      KeySetAppend(prefix, rows[|rows| - 1], RecordSource);
      DestIpsAbsent(prefix, n);
    }
  }

  /** Entry `n` of the destination dictionaries is what the rows say about service `n`. */
  ghost predicate DestEntryMeans(rows: seq<FlowRecord>, n: string) {
    && n in AccumulateDest(rows)
    && FirstWith(rows, RecordDest, n).Some?
    && AccumulateDest(rows)[n] == DestAcc(FirstWith(rows, RecordDest, n).value.destNamespace, BytesInOf(rows, n))
  }

  lemma {:induction false} AccumulateDestStep(prefix: seq<FlowRecord>, el: FlowRecord, n: string)
    requires AccumulateDest(prefix).Keys == KeySet(prefix, RecordDest)
    requires n in AccumulateDest(prefix) ==> DestEntryMeans(prefix, n)
    requires n in AccumulateDest(prefix + [el])
    ensures DestEntryMeans(prefix + [el], n)
  {
    var rows := prefix + [el];
    assert rows[..|rows| - 1] == prefix;
    assert rows[|rows| - 1] == el;
    FirstWithAppend(prefix, el, RecordDest, n);
    SumWhereAppend(prefix, el, RecordDest, n, RecordBytesIn);
    if n !in AccumulateDest(prefix) {
      SumWhereAbsent(prefix, RecordDest, n, RecordBytesIn);
    }
  }

  /** The destination dictionaries hold the first namespace and the byte total per service. */
  lemma {:induction false} AccumulateDestMeaning(rows: seq<FlowRecord>)
    ensures AccumulateDest(rows).Keys == KeySet(rows, RecordDest)
    ensures forall n :: n in AccumulateDest(rows) ==> DestEntryMeans(rows, n)
    decreases |rows|
  {
    if |rows| > 0 {
      var prefix := rows[..|rows| - 1];
      var el := rows[|rows| - 1];
      assert rows == prefix + [el];
      AccumulateDestMeaning(prefix);
      KeySetAppend(prefix, el, RecordDest);
      forall n | n in AccumulateDest(rows) ensures DestEntryMeans(rows, n) {
        AccumulateDestStep(prefix, el, n);
      }
    }
  }

  /** The key column of every document, in order (`list(dict)` before dedup). */
  function Names(rows: seq<FlowRecord>, key: FlowRecord -> string): (r: seq<string>)
    ensures forall n :: n in r <==> n in KeySet(rows, key)
    decreases |rows|
  {
    if |rows| == 0 then []
    else
      var r := Names(rows[..|rows| - 1], key) + [key(rows[|rows| - 1])];
      KeySetAppend(rows[..|rows| - 1], rows[|rows| - 1], key);
      assert rows[..|rows| - 1] + [rows[|rows| - 1]] == rows;
      r
  }

  function SourceRowsFor(names: seq<string>, acc: map<string, SourceAcc>, start: int): (r: seq<SourceRow>)
    requires forall n :: n in names ==> n in acc
    ensures |r| == |names|
    ensures forall i :: 0 <= i < |r| ==>
      r[i] == SourceRow(start, acc[names[i]].namespace, names[i], |acc[names[i]].ips|, |acc[names[i]].ports|, acc[names[i]].bytesOut)
    decreases |names|
  {
    if |names| == 0 then []
    else
      var a := acc[names[0]];
      [SourceRow(start, a.namespace, names[0], |a.ips|, |a.ports|, a.bytesOut)] + SourceRowsFor(names[1..], acc, start)
  }

  function DestRowsFor(names: seq<string>, acc: map<string, DestAcc>, start: int): (r: seq<DestRow>)
    requires forall n :: n in names ==> n in acc
    ensures |r| == |names|
    ensures forall i :: 0 <= i < |r| ==> r[i] == DestRow(start, acc[names[i]].namespace, names[i], acc[names[i]].bytesIn)
    decreases |names|
  {
    if |names| == 0 then []
    else [DestRow(start, acc[names[0]].namespace, names[0], acc[names[0]].bytesIn)] + DestRowsFor(names[1..], acc, start)
  }

  /** Source row `row` of the bucket `rows` starting at `start` reports what the rows say about its source. */
  ghost predicate SourceRowMeans(row: SourceRow, rows: seq<FlowRecord>, start: int) {
    var n := row.sourceNameAggr;
    && FirstWith(rows, RecordSource, n).Some?
    && row == SourceRow(start, FirstWith(rows, RecordSource, n).value.sourceNamespace, n,
                        |DestIpsOf(rows, n)|, |DestPortsOf(rows, n)|, BytesOutOf(rows, n))
  }

  /** Destination row `row` reports what the rows say about its service. */
  ghost predicate DestRowMeans(row: DestRow, rows: seq<FlowRecord>, start: int) {
    var n := row.destServiceName;
    && FirstWith(rows, RecordDest, n).Some?
    && row == DestRow(start, FirstWith(rows, RecordDest, n).value.destNamespace, n, BytesInOf(rows, n))
  }

  /**
   * The source half of `_aggregate_bucket(rows, bucket_start)`: one row per
   * distinct source name, in name order, each stamped with the bucket start
   * and carrying the first document's namespace, the number of distinct
   * truthy destination IPs, the number of distinct destination ports and
   * the byte total.
   */
  function BucketSourceRows(rows: seq<FlowRecord>, start: int): (r: seq<SourceRow>)
    ensures KeySet(r, SourceRowName) == KeySet(rows, RecordSource)
    ensures forall i, j :: 0 <= i < j < |r| ==> StrLess(r[i].sourceNameAggr, r[j].sourceNameAggr)
    ensures forall i :: 0 <= i < |r| ==> SourceRowMeans(r[i], rows, start)
  {
    BucketSourceKeys(rows, start);
    BucketSourceMeans(rows, start);
    SourceRowsFor(SortedDistinct(Names(rows, RecordSource)), AccumulateSource(rows), start)
  }

  lemma BucketSourceKeys(rows: seq<FlowRecord>, start: int)
    ensures forall n :: n in SortedDistinct(Names(rows, RecordSource)) ==> n in AccumulateSource(rows)
    ensures var src := SourceRowsFor(SortedDistinct(Names(rows, RecordSource)), AccumulateSource(rows), start);
      && KeySet(src, SourceRowName) == KeySet(rows, RecordSource)
      && (forall i, j :: 0 <= i < j < |src| ==> StrLess(src[i].sourceNameAggr, src[j].sourceNameAggr))
  {
    AccumulateSourceMeaning(rows);
    var names := SortedDistinct(Names(rows, RecordSource));
    SourceRowsForNames(names, AccumulateSource(rows), start);
    var src := SourceRowsFor(names, AccumulateSource(rows), start);
    assert KeySet(src, SourceRowName) == KeySet(rows, RecordSource);
  }

  lemma BucketSourceMeans(rows: seq<FlowRecord>, start: int)
    ensures forall n :: n in SortedDistinct(Names(rows, RecordSource)) ==> n in AccumulateSource(rows)
    ensures var src := SourceRowsFor(SortedDistinct(Names(rows, RecordSource)), AccumulateSource(rows), start);
      forall i :: 0 <= i < |src| ==> SourceRowMeans(src[i], rows, start)
  {
    AccumulateSourceMeaning(rows);
    SourceRowsForMeans(SortedDistinct(Names(rows, RecordSource)), rows, start);
  }

  lemma SourceRowsForMeans(names: seq<string>, rows: seq<FlowRecord>, start: int)
    requires AccumulateSource(rows).Keys == KeySet(rows, RecordSource)
    requires forall n :: n in AccumulateSource(rows) ==> SourceEntryMeans(rows, n)
    requires forall n :: n in names <==> n in KeySet(rows, RecordSource)
    ensures var src := SourceRowsFor(names, AccumulateSource(rows), start);
      forall i :: 0 <= i < |src| ==> SourceRowMeans(src[i], rows, start)
  {
    var src := SourceRowsFor(names, AccumulateSource(rows), start);
    forall i | 0 <= i < |src| ensures SourceRowMeans(src[i], rows, start) {
      SourceRowsForRow(names, rows, start, i);
    }
  }

  lemma {:induction false} SourceRowsForNames(names: seq<string>, acc: map<string, SourceAcc>, start: int)
    requires forall n :: n in names ==> n in acc
    requires StrictlySorted(names)
    ensures var src := SourceRowsFor(names, acc, start);
      && (forall n :: n in KeySet(src, SourceRowName) <==> n in names)
      && (forall i, j :: 0 <= i < j < |src| ==> StrLess(src[i].sourceNameAggr, src[j].sourceNameAggr))
  {
    var src := SourceRowsFor(names, acc, start);
    assert forall i :: 0 <= i < |src| ==> src[i].sourceNameAggr == names[i];
    forall n | n in KeySet(src, SourceRowName) ensures n in names {
      var i :| 0 <= i < |src| && SourceRowName(src[i]) == n;
    }
    forall n | n in names ensures n in KeySet(src, SourceRowName) {
      var i :| 0 <= i < |names| && names[i] == n;
      assert SourceRowName(src[i]) == n;
    }
  }

  lemma {:induction false} SourceRowsForRow(names: seq<string>, rows: seq<FlowRecord>, start: int, i: nat)
    requires AccumulateSource(rows).Keys == KeySet(rows, RecordSource)
    requires forall n :: n in AccumulateSource(rows) ==> SourceEntryMeans(rows, n)
    requires forall n :: n in names <==> n in KeySet(rows, RecordSource)
    requires i < |names|
    ensures SourceRowMeans(SourceRowsFor(names, AccumulateSource(rows), start)[i], rows, start)
  {
    var n := names[i];
    assert n in names;
    assert SourceEntryMeans(rows, n);
    var row := SourceRowsFor(names, AccumulateSource(rows), start)[i];
    assert row.sourceNameAggr == n;
  }

  /**
   * The destination half of `_aggregate_bucket`: one row per distinct
   * destination service, in name order, with the first document's
   * namespace and the byte total.
   */
  function BucketDestRows(rows: seq<FlowRecord>, start: int): (r: seq<DestRow>)
    ensures KeySet(r, DestRowName) == KeySet(rows, RecordDest)
    ensures forall i, j :: 0 <= i < j < |r| ==> StrLess(r[i].destServiceName, r[j].destServiceName)
    ensures forall i :: 0 <= i < |r| ==> DestRowMeans(r[i], rows, start)
  {
    BucketDestKeys(rows, start);
    BucketDestMeans(rows, start);
    DestRowsFor(SortedDistinct(Names(rows, RecordDest)), AccumulateDest(rows), start)
  }

  lemma BucketDestKeys(rows: seq<FlowRecord>, start: int)
    ensures forall n :: n in SortedDistinct(Names(rows, RecordDest)) ==> n in AccumulateDest(rows)
    ensures var dst := DestRowsFor(SortedDistinct(Names(rows, RecordDest)), AccumulateDest(rows), start);
      && KeySet(dst, DestRowName) == KeySet(rows, RecordDest)
      && (forall i, j :: 0 <= i < j < |dst| ==> StrLess(dst[i].destServiceName, dst[j].destServiceName))
  {
    AccumulateDestMeaning(rows);
    var names := SortedDistinct(Names(rows, RecordDest));
    DestRowsForNames(names, AccumulateDest(rows), start);
    var dst := DestRowsFor(names, AccumulateDest(rows), start);
    assert KeySet(dst, DestRowName) == KeySet(rows, RecordDest);
  }

  lemma {:induction false} DestRowsForNames(names: seq<string>, acc: map<string, DestAcc>, start: int)
    requires forall n :: n in names ==> n in acc
    requires StrictlySorted(names)
    ensures var dst := DestRowsFor(names, acc, start);
      && (forall n :: n in KeySet(dst, DestRowName) <==> n in names)
      && (forall i, j :: 0 <= i < j < |dst| ==> StrLess(dst[i].destServiceName, dst[j].destServiceName))
  {
    var dst := DestRowsFor(names, acc, start);
    assert forall i :: 0 <= i < |dst| ==> dst[i].destServiceName == names[i];
    forall n | n in KeySet(dst, DestRowName) ensures n in names {
      var i :| 0 <= i < |dst| && DestRowName(dst[i]) == n;
    }
    forall n | n in names ensures n in KeySet(dst, DestRowName) {
      var i :| 0 <= i < |names| && names[i] == n;
      assert DestRowName(dst[i]) == n;
    }
  }

  lemma BucketDestMeans(rows: seq<FlowRecord>, start: int)
    ensures forall n :: n in SortedDistinct(Names(rows, RecordDest)) ==> n in AccumulateDest(rows)
    ensures var dst := DestRowsFor(SortedDistinct(Names(rows, RecordDest)), AccumulateDest(rows), start);
      forall i :: 0 <= i < |dst| ==> DestRowMeans(dst[i], rows, start)
  {
    AccumulateDestMeaning(rows);
    var names := SortedDistinct(Names(rows, RecordDest));
    var dst := DestRowsFor(names, AccumulateDest(rows), start);
    forall i | 0 <= i < |dst| ensures DestRowMeans(dst[i], rows, start) {
      assert names[i] in names;
      assert DestEntryMeans(rows, names[i]);
    }
  }

  // ---- the loop of _aggregate_data --------------------------------------

  lemma MultipleMod(q: int, size: int)
    requires size > 0
    ensures (q * size) % size == 0
  {
    var x := q * size;
    var d := q - x / size;
    assert d * size == x % size;
  }

  /** `t - (t % size)` with Python's floor modulo (equal to Dafny's for size > 0). */
  function AlignDown(t: int, size: int): (r: int)
    requires size > 0
    ensures r % size == 0 && r <= t < r + size
  {
    MultipleMod(t / size, size);
    t - t % size
  }

  /**
   * The loop over the sorted documents with the open bucket `open` starting
   * at `openStart`. A document past the open bucket closes it and opens a
   * new one; a document before the open bucket's start (the branch the
   * source logs as "should never happen") is still appended to it.
   */
  function Walk(docs: seq<FlowRecord>, size: int, open: seq<FlowRecord>, openStart: int): seq<Bucket>
    requires size > 0
    decreases |docs|
  {
    if |docs| == 0 then [Bucket(openStart, open)]
    else if docs[0].startTime >= openStart + size then
      [Bucket(openStart, open)] + Walk(docs[1..], size, [docs[0]], AlignDown(docs[0].startTime, size))
    else
      Walk(docs[1..], size, open + [docs[0]], openStart)
  }

  function Bucketize(sorted: seq<FlowRecord>, size: int): seq<Bucket>
    requires size > 0 && |sorted| > 0
  {
    Walk(sorted, size, [], AlignDown(sorted[0].startTime, size))
  }

  /** All documents of all buckets, in bucket order. */
  function Flatten(bs: seq<Bucket>): seq<FlowRecord>
    decreases |bs|
  {
    if |bs| == 0 then [] else bs[0].records + Flatten(bs[1..])
  }

  ghost predicate WellFormedBuckets(bs: seq<Bucket>, size: int)
    requires size > 0
  {
    && (forall k :: 0 <= k < |bs| ==> |bs[k].records| > 0 && bs[k].start % size == 0)
    && (forall k :: 0 <= k < |bs| ==>
          forall r :: r in bs[k].records ==> bs[k].start <= r.startTime < bs[k].start + size)
    && (forall k, l :: 0 <= k < l < |bs| ==> bs[k].start < bs[l].start)
  }

  lemma {:induction false} WellFormedCons(b: Bucket, rest: seq<Bucket>, size: int)
    requires size > 0
    requires WellFormedBuckets(rest, size) && |rest| > 0 && b.start < rest[0].start
    requires |b.records| > 0 && b.start % size == 0
    requires forall r :: r in b.records ==> b.start <= r.startTime < b.start + size
    ensures WellFormedBuckets([b] + rest, size)
    ensures Flatten([b] + rest) == b.records + Flatten(rest)
  {
    var bs := [b] + rest;
    assert bs[1..] == rest;
    forall k, l | 0 <= k < l < |bs| ensures bs[k].start < bs[l].start {
      assert bs[l] == rest[l - 1];
      if k > 0 { assert bs[k] == rest[k - 1]; } else if l > 1 { assert rest[0].start < rest[l - 1].start; }
    }
    forall k | 0 <= k < |bs| ensures |bs[k].records| > 0 && bs[k].start % size == 0 {
      if k > 0 { assert bs[k] == rest[k - 1]; }
    }
    forall k | 0 <= k < |bs|
      ensures forall r :: r in bs[k].records ==> bs[k].start <= r.startTime < bs[k].start + size
    {
      if k > 0 { assert bs[k] == rest[k - 1]; }
    }
  }

  lemma {:induction false} SortedTailAbove(docs: seq<FlowRecord>, lo: int)
    requires SortedBy(docs, RecordStart) && |docs| > 0 && docs[0].startTime >= lo
    ensures SortedBy(docs[1..], RecordStart)
    ensures forall d :: d in docs[1..] ==> d.startTime >= lo
  {
    forall d | d in docs[1..] ensures d.startTime >= lo {
      var j :| 0 <= j < |docs[1..]| && docs[1..][j] == d;
      assert RecordStart(docs[0]) <= RecordStart(docs[j + 1]);
    }
  }

  ghost predicate WalkReady(docs: seq<FlowRecord>, size: int, open: seq<FlowRecord>, openStart: int) {
    && size > 0 && openStart % size == 0
    && SortedBy(docs, RecordStart)
    && (forall r :: r in open ==> openStart <= r.startTime < openStart + size)
    && (forall d :: d in docs ==> d.startTime >= openStart)
    && (|open| > 0 || (|docs| > 0 && docs[0].startTime < openStart + size))
  }

  ghost predicate WalkDone(docs: seq<FlowRecord>, size: int, open: seq<FlowRecord>, openStart: int)
    requires size > 0
  {
    var w := Walk(docs, size, open, openStart);
    && |w| > 0
    && w[0].start == openStart
    && WellFormedBuckets(w, size)
    && Flatten(w) == open + docs
  }

  lemma {:induction false} WalkSpec(docs: seq<FlowRecord>, size: int, open: seq<FlowRecord>, openStart: int)
    requires WalkReady(docs, size, open, openStart)
    ensures WalkDone(docs, size, open, openStart)
    decreases |docs|, 1
  {
    if |docs| == 0 {
      assert Flatten([Bucket(openStart, open)]) == open + Flatten([]);
    } else if docs[0].startTime >= openStart + size {
      WalkClose(docs, size, open, openStart);
    } else {
      WalkExtend(docs, size, open, openStart);
    }
  }

  /** A document past the open bucket closes it and opens the next. */
  lemma {:induction false} WalkClose(docs: seq<FlowRecord>, size: int, open: seq<FlowRecord>, openStart: int)
    requires WalkReady(docs, size, open, openStart)
    requires |docs| > 0 && docs[0].startTime >= openStart + size
    ensures WalkDone(docs, size, open, openStart)
    decreases |docs|, 0
  {
    var el := docs[0];
    assert [el] + docs[1..] == docs;
    var ns := AlignDown(el.startTime, size);
    SortedTailAbove(docs, ns);
    assert WalkReady(docs[1..], size, [el], ns);
    WalkSpec(docs[1..], size, [el], ns);
    var rest := Walk(docs[1..], size, [el], ns);
    assert Walk(docs, size, open, openStart) == [Bucket(openStart, open)] + rest;
    WellFormedCons(Bucket(openStart, open), rest, size);
  }

  lemma ExtendReady(docs: seq<FlowRecord>, size: int, open: seq<FlowRecord>, openStart: int)
    requires WalkReady(docs, size, open, openStart)
    requires |docs| > 0 && docs[0].startTime < openStart + size
    ensures WalkReady(docs[1..], size, open + [docs[0]], openStart)
  {
    var el := docs[0];
    assert el in docs;
    SortedTailAbove(docs, el.startTime);
    forall d | d in docs[1..] ensures d.startTime >= openStart { }
  }

  /** A document inside the open bucket joins it. */
  lemma {:induction false} WalkExtend(docs: seq<FlowRecord>, size: int, open: seq<FlowRecord>, openStart: int)
    requires WalkReady(docs, size, open, openStart)
    requires |docs| > 0 && docs[0].startTime < openStart + size
    ensures WalkDone(docs, size, open, openStart)
    decreases |docs|, 0
  {
    var el := docs[0];
    ExtendReady(docs, size, open, openStart);
    WalkSpec(docs[1..], size, open + [el], openStart);
    assert Walk(docs, size, open, openStart) == Walk(docs[1..], size, open + [el], openStart);
    assert (open + [el]) + docs[1..] == open + docs;
  }

  /**
   * From sorted input: every bucket is non-empty, starts on a multiple of
   * the width, holds only documents inside its window (so the out-of-order
   * branch is never taken), buckets open in strictly increasing order and
   * together hold exactly the input, in order.
   */
  lemma BucketizeSpec(sorted: seq<FlowRecord>, size: int)
    requires size > 0 && |sorted| > 0
    requires SortedBy(sorted, RecordStart)
    ensures |Bucketize(sorted, size)| > 0
    ensures WellFormedBuckets(Bucketize(sorted, size), size)
    ensures Flatten(Bucketize(sorted, size)) == sorted
  {
    var s0 := AlignDown(sorted[0].startTime, size);
    forall d | d in sorted ensures d.startTime >= s0 {
      var j :| 0 <= j < |sorted| && sorted[j] == d;
      if j > 0 { assert RecordStart(sorted[0]) <= RecordStart(sorted[j]); }
    }
    WalkSpec(sorted, size, [], s0);
    assert [] + sorted == sorted;
    assert WalkDone(sorted, size, [], s0);
  }

  function FlattenSource(bs: seq<Bucket>): seq<SourceRow>
    requires forall k :: 0 <= k < |bs| ==> |bs[k].records| > 0
    decreases |bs|
  {
    if |bs| == 0 then [] else BucketSourceRows(bs[0].records, bs[0].start) + FlattenSource(bs[1..])
  }

  function FlattenDest(bs: seq<Bucket>): seq<DestRow>
    requires forall k :: 0 <= k < |bs| ==> |bs[k].records| > 0
    decreases |bs|
  {
    if |bs| == 0 then [] else BucketDestRows(bs[0].records, bs[0].start) + FlattenDest(bs[1..])
  }

  /** What `_aggregate_data` raises for a width that is not positive. */
  datatype FlowError =
    | ZeroDivisionError   // a width of 0: `start_time % 0`
    | ValueError          // a negative width: the empty first bucket is closed and `[]` cannot be unpacked

  /** Python's `a % b`: the remainder takes the sign of the divisor. */
  function PyMod(a: int, b: int): (r: int)
    requires b != 0
    ensures b > 0 ==> 0 <= r < b
    ensures b < 0 ==> b < r <= 0
    ensures r % b == a % b
  {
    var m := a % b;
    if b < 0 && m != 0 then m + b else m
  }

  /**
   * `_aggregate_data(docs, bucket_size_minutes)`: both row lists of every
   * bucket, concatenated in bucket order. The width is read from the
   * environment and never checked: with no documents any width gives two
   * empty lists; otherwise a width of 0 divides by zero, and a negative
   * width aligns the first bucket at or above the first document, so that
   * document already lies past the bucket's window and the loop closes the
   * still-empty bucket, whose `[]` cannot be unpacked into two lists.
   */
  function AggregateData(docs: seq<FlowRecord>, bucketSizeMinutes: int)
    : (r: Result<(seq<SourceRow>, seq<DestRow>), FlowError>)
    ensures |docs| == 0 ==> r == Ok(([], []))
    ensures |docs| > 0 && bucketSizeMinutes == 0 ==> r == Err(ZeroDivisionError)
    ensures |docs| > 0 && bucketSizeMinutes < 0 ==> r == Err(ValueError)
    ensures |docs| > 0 && bucketSizeMinutes > 0 ==> r.Ok? && |r.value.0| > 0 && |r.value.1| > 0
  {
    if |docs| == 0 then Ok(([], []))
    else if bucketSizeMinutes == 0 then Err(ZeroDivisionError)
    else
      var size := bucketSizeMinutes * 60;
      var sorted := SortByStart(docs, RecordStart);
      var firstStart := sorted[0].startTime - PyMod(sorted[0].startTime, size);
      if sorted[0].startTime >= firstStart + size then Err(ValueError)
      else
        assert size > 0;
        BucketizeSpec(sorted, size);
        var bs := Bucketize(sorted, size);
        assert |BucketSourceRows(bs[0].records, bs[0].start)| > 0 by {
          assert bs[0].records[0] in bs[0].records;
          assert RecordSource(bs[0].records[0]) in KeySet(bs[0].records, RecordSource);
        }
        assert |BucketDestRows(bs[0].records, bs[0].start)| > 0 by {
          assert RecordDest(bs[0].records[0]) in KeySet(bs[0].records, RecordDest);
        }
        Ok((FlattenSource(bs), FlattenDest(bs)))
  }

  // ---- properties of the whole aggregation -------------------------------

  /** The (bucket start, entity name) slot of a row. */
  function SourceSlot(r: SourceRow): (int, string) { (r.startTime, r.sourceNameAggr) }

  function DestSlot(r: DestRow): (int, string) { (r.startTime, r.destServiceName) }

  lemma {:induction false} SumConcat<R>(a: seq<R>, b: seq<R>, val: R -> int)
    ensures Sum(a + b, val) == Sum(a, val) + Sum(b, val)
    decreases |a|
  {
    if |a| > 0 {
      SumConcat(a[1..], b, val);
      assert (a + b)[1..] == a[1..] + b;
    } else {
      assert a + b == b;
    }
  }

  lemma {:induction false} SortedConcat<R>(a: seq<R>, b: seq<R>, start: R -> int)
    requires SortedBy(a, start) && SortedBy(b, start)
    requires forall i, j :: 0 <= i < |a| && 0 <= j < |b| ==> start(a[i]) <= start(b[j])
    ensures SortedBy(a + b, start)
  {
    var s := a + b;
    forall i, j | 0 <= i < j < |s| ensures start(s[i]) <= start(s[j]) {
      if j < |a| {
        assert s[i] == a[i] && s[j] == a[j];
      } else if i >= |a| {
        assert s[i] == b[i - |a|] && s[j] == b[j - |a|];
      } else {
        assert s[i] == a[i] && s[j] == b[j - |a|];
      }
    }
  }

  lemma {:induction false} UniqueConcat<R, K>(a: seq<R>, b: seq<R>, key: R -> K)
    requires UniqueKeys(a, key) && UniqueKeys(b, key)
    requires forall i, j :: 0 <= i < |a| && 0 <= j < |b| ==> key(a[i]) != key(b[j])
    ensures UniqueKeys(a + b, key)
  {
    var s := a + b;
    forall i, j | 0 <= i < j < |s| ensures key(s[i]) != key(s[j]) {
      if j < |a| {
        assert s[i] == a[i] && s[j] == a[j];
      } else if i >= |a| {
        assert s[i] == b[i - |a|] && s[j] == b[j - |a|];
      } else {
        assert s[i] == a[i] && s[j] == b[j - |a|];
      }
    }
  }

  /** Total of `val` over the rows of each key in `names`, added up. */
  function SumOverKeys<R, K(==)>(names: seq<K>, rows: seq<R>, key: R -> K, val: R -> int): int
    decreases |names|
  {
    if |names| == 0 then 0 else SumWhere(rows, key, names[0], val) + SumOverKeys(names[1..], rows, key, val)
  }

  ghost predicate Distinct<K>(names: seq<K>) {
    forall i, j :: 0 <= i < j < |names| ==> names[i] != names[j]
  }

  lemma {:induction false} SumOverKeysEmpty<R, K>(names: seq<K>, key: R -> K, val: R -> int)
    ensures SumOverKeys(names, [], key, val) == 0
    decreases |names|
  {
    if |names| > 0 { SumOverKeysEmpty(names[1..], key, val); }
  }

  lemma {:induction false} SumOverKeysAppend<R, K>(names: seq<K>, rows: seq<R>, x: R, key: R -> K, val: R -> int)
    requires Distinct(names)
    ensures SumOverKeys(names, rows + [x], key, val) ==
            SumOverKeys(names, rows, key, val) + (if key(x) in names then val(x) else 0)
    decreases |names|
  {
    if |names| > 0 {
      SumWhereAppend(rows, x, key, names[0], val);
      SumOverKeysAppend(names[1..], rows, x, key, val);
      if key(x) == names[0] {
        assert key(x) !in names[1..] by {
          forall j | 0 <= j < |names[1..]| ensures names[1..][j] != key(x) {
            assert names[1..][j] == names[j + 1];
          }
        }
      } else {
        assert key(x) in names <==> key(x) in names[1..] by {
          assert names == [names[0]] + names[1..];
        }
      }
    }
  }

  /**
   * Splitting a column total by key and adding the per-key totals back up
   * gives the column total, when every row's key is listed exactly once.
   */
  lemma {:induction false} SumOverKeysTotal<R, K>(names: seq<K>, rows: seq<R>, key: R -> K, val: R -> int)
    requires Distinct(names)
    requires forall i :: 0 <= i < |rows| ==> key(rows[i]) in names
    ensures SumOverKeys(names, rows, key, val) == Sum(rows, val)
    decreases |rows|
  {
    if |rows| == 0 {
      SumOverKeysEmpty(names, key, val);
    } else {
      var prefix := rows[..|rows| - 1];
      var x := rows[|rows| - 1];
      assert rows == prefix + [x];
      SumOverKeysTotal(names, prefix, key, val);
      SumOverKeysAppend(names, prefix, x, key, val);
      SumAppend(prefix, x, val);
    }
  }

  lemma {:induction false} SourceRowsForSum(names: seq<string>, acc: map<string, SourceAcc>, start: int, rows: seq<FlowRecord>)
    requires forall n :: n in names ==> n in acc && acc[n].bytesOut == BytesOutOf(rows, n)
    ensures Sum(SourceRowsFor(names, acc, start), SourceRowBytesOut) == SumOverKeys(names, rows, RecordSource, RecordBytesOut)
    decreases |names|
  {
    if |names| > 0 {
      SourceRowsForSum(names[1..], acc, start, rows);
      assert SourceRowsFor(names, acc, start)[1..] == SourceRowsFor(names[1..], acc, start);
    }
  }

  lemma {:induction false} DestRowsForSum(names: seq<string>, acc: map<string, DestAcc>, start: int, rows: seq<FlowRecord>)
    requires forall n :: n in names ==> n in acc && acc[n].bytesIn == BytesInOf(rows, n)
    ensures Sum(DestRowsFor(names, acc, start), DestRowBytesIn) == SumOverKeys(names, rows, RecordDest, RecordBytesIn)
    decreases |names|
  {
    if |names| > 0 {
      DestRowsForSum(names[1..], acc, start, rows);
      assert DestRowsFor(names, acc, start)[1..] == DestRowsFor(names[1..], acc, start);
    }
  }

  lemma StrictlySortedDistinct(names: seq<string>)
    requires StrictlySorted(names)
    ensures Distinct(names)
  {
    forall i, j | 0 <= i < j < |names| ensures names[i] != names[j] {
      if names[i] == names[j] { StrLessIrreflexive(names[i]); }
    }
  }

  /** A bucket's source rows carry all of its outgoing bytes. */
  lemma {:induction false} BucketSourceConservation(rows: seq<FlowRecord>, start: int)
    ensures Sum(BucketSourceRows(rows, start), SourceRowBytesOut) == Sum(rows, RecordBytesOut)
  {
    AccumulateSourceMeaning(rows);
    var names := SortedDistinct(Names(rows, RecordSource));
    assert forall n :: n in names ==> SourceEntryMeans(rows, n);
    SourceRowsForSum(names, AccumulateSource(rows), start, rows);
    StrictlySortedDistinct(names);
    forall i | 0 <= i < |rows| ensures RecordSource(rows[i]) in names {
      assert RecordSource(rows[i]) in KeySet(rows, RecordSource);
    }
    SumOverKeysTotal(names, rows, RecordSource, RecordBytesOut);
  }

  /** A bucket's destination rows carry all of its incoming bytes. */
  lemma {:induction false} BucketDestConservation(rows: seq<FlowRecord>, start: int)
    ensures Sum(BucketDestRows(rows, start), DestRowBytesIn) == Sum(rows, RecordBytesIn)
  {
    AccumulateDestMeaning(rows);
    var names := SortedDistinct(Names(rows, RecordDest));
    assert forall n :: n in names ==> DestEntryMeans(rows, n);
    DestRowsForSum(names, AccumulateDest(rows), start, rows);
    StrictlySortedDistinct(names);
    forall i | 0 <= i < |rows| ensures RecordDest(rows[i]) in names {
      assert RecordDest(rows[i]) in KeySet(rows, RecordDest);
    }
    SumOverKeysTotal(names, rows, RecordDest, RecordBytesIn);
  }

  /** Rows of one bucket: all stamped with its start, one per (start, name) slot. */
  lemma BucketRowsShape(rows: seq<FlowRecord>, start: int)
    ensures forall r :: r in BucketSourceRows(rows, start) ==> r.startTime == start
    ensures forall r :: r in BucketDestRows(rows, start) ==> r.startTime == start
    ensures UniqueKeys(BucketSourceRows(rows, start), SourceSlot)
    ensures UniqueKeys(BucketDestRows(rows, start), DestSlot)
    ensures SortedBy(BucketSourceRows(rows, start), SourceRowStart)
    ensures SortedBy(BucketDestRows(rows, start), DestRowStart)
  {
    var src := BucketSourceRows(rows, start);
    var dst := BucketDestRows(rows, start);
    forall i, j | 0 <= i < j < |src| ensures SourceSlot(src[i]) != SourceSlot(src[j]) {
      StrLessIrreflexive(src[i].sourceNameAggr);
    }
    forall i, j | 0 <= i < j < |dst| ensures DestSlot(dst[i]) != DestSlot(dst[j]) {
      StrLessIrreflexive(dst[i].destServiceName);
    }
  }

  ghost predicate FlatSourceShape(bs: seq<Bucket>, size: int)
    requires size > 0
    requires forall k :: 0 <= k < |bs| ==> |bs[k].records| > 0
  {
    && (forall r :: r in FlattenSource(bs) ==> r.startTime % size == 0 && (|bs| > 0 ==> bs[0].start <= r.startTime))
    && SortedBy(FlattenSource(bs), SourceRowStart)
    && UniqueKeys(FlattenSource(bs), SourceSlot)
  }

  ghost predicate FlatDestShape(bs: seq<Bucket>, size: int)
    requires size > 0
    requires forall k :: 0 <= k < |bs| ==> |bs[k].records| > 0
  {
    && (forall r :: r in FlattenDest(bs) ==> r.startTime % size == 0 && (|bs| > 0 ==> bs[0].start <= r.startTime))
    && SortedBy(FlattenDest(bs), DestRowStart)
    && UniqueKeys(FlattenDest(bs), DestSlot)
  }

  lemma WellFormedTail(bs: seq<Bucket>, size: int)
    requires size > 0 && WellFormedBuckets(bs, size) && |bs| > 0
    ensures WellFormedBuckets(bs[1..], size)
    ensures forall k :: 0 <= k < |bs[1..]| ==> bs[0].start < bs[1..][k].start
  {
    var rest := bs[1..];
    forall k, l | 0 <= k < l < |rest| ensures rest[k].start < rest[l].start {
      assert rest[k] == bs[k + 1] && rest[l] == bs[l + 1];
    }
    forall k | 0 <= k < |rest| ensures bs[0].start < rest[k].start {
      assert rest[k] == bs[k + 1];
    }
  }

  /** Every source row is stamped with an aligned start no earlier than the first bucket's. */
  lemma {:induction false} FlattenSourceStarts(bs: seq<Bucket>, size: int)
    requires size > 0 && WellFormedBuckets(bs, size)
    ensures forall r :: r in FlattenSource(bs) ==> r.startTime % size == 0 && (|bs| > 0 ==> bs[0].start <= r.startTime)
    decreases |bs|
  {
    if |bs| > 0 {
      var b := bs[0];
      var rest := bs[1..];
      WellFormedTail(bs, size);
      FlattenSourceStarts(rest, size);
      BucketRowsShape(b.records, b.start);
      assert FlattenSource(bs) == BucketSourceRows(b.records, b.start) + FlattenSource(rest);
      if |rest| > 0 { assert b.start < rest[0].start; }
    }
  }

  /** The source rows of all buckets are in start order, one per (start, name) slot. */
  lemma {:induction false} FlattenSourceOrder(bs: seq<Bucket>, size: int)
    requires size > 0 && WellFormedBuckets(bs, size)
    ensures SortedBy(FlattenSource(bs), SourceRowStart)
    ensures UniqueKeys(FlattenSource(bs), SourceSlot)
    decreases |bs|
  {
    if |bs| > 0 {
      var b := bs[0];
      var rest := bs[1..];
      WellFormedTail(bs, size);
      FlattenSourceOrder(rest, size);
      FlattenSourceStarts(rest, size);
      BucketRowsShape(b.records, b.start);
      var rows := BucketSourceRows(b.records, b.start);
      var tail := FlattenSource(rest);
      assert forall r :: r in tail ==> b.start < r.startTime by {
        if |rest| > 0 { assert b.start < rest[0].start; }
      }
      forall i, j | 0 <= i < |rows| && 0 <= j < |tail|
        ensures SourceRowStart(rows[i]) <= SourceRowStart(tail[j]) && SourceSlot(rows[i]) != SourceSlot(tail[j])
      {
        assert rows[i] in rows && tail[j] in tail;
      }
      SortedConcat(rows, tail, SourceRowStart);
      UniqueConcat(rows, tail, SourceSlot);
    }
  }

  lemma FlattenSourceShape(bs: seq<Bucket>, size: int)
    requires size > 0 && WellFormedBuckets(bs, size)
    ensures FlatSourceShape(bs, size)
  {
    FlattenSourceStarts(bs, size);
    FlattenSourceOrder(bs, size);
  }

  /** Every destination row is stamped with an aligned start no earlier than the first bucket's. */
  lemma {:induction false} FlattenDestStarts(bs: seq<Bucket>, size: int)
    requires size > 0 && WellFormedBuckets(bs, size)
    ensures forall r :: r in FlattenDest(bs) ==> r.startTime % size == 0 && (|bs| > 0 ==> bs[0].start <= r.startTime)
    decreases |bs|
  {
    if |bs| > 0 {
      var b := bs[0];
      var rest := bs[1..];
      WellFormedTail(bs, size);
      FlattenDestStarts(rest, size);
      BucketRowsShape(b.records, b.start);
      assert FlattenDest(bs) == BucketDestRows(b.records, b.start) + FlattenDest(rest);
      if |rest| > 0 { assert b.start < rest[0].start; }
    }
  }

  /** The destination rows of all buckets are in start order, one per (start, name) slot. */
  lemma {:induction false} FlattenDestOrder(bs: seq<Bucket>, size: int)
    requires size > 0 && WellFormedBuckets(bs, size)
    ensures SortedBy(FlattenDest(bs), DestRowStart)
    ensures UniqueKeys(FlattenDest(bs), DestSlot)
    decreases |bs|
  {
    if |bs| > 0 {
      var b := bs[0];
      var rest := bs[1..];
      WellFormedTail(bs, size);
      FlattenDestOrder(rest, size);
      FlattenDestStarts(rest, size);
      BucketRowsShape(b.records, b.start);
      var rows := BucketDestRows(b.records, b.start);
      var tail := FlattenDest(rest);
      assert forall r :: r in tail ==> b.start < r.startTime by {
        if |rest| > 0 { assert b.start < rest[0].start; }
      }
      forall i, j | 0 <= i < |rows| && 0 <= j < |tail|
        ensures DestRowStart(rows[i]) <= DestRowStart(tail[j]) && DestSlot(rows[i]) != DestSlot(tail[j])
      {
        assert rows[i] in rows && tail[j] in tail;
      }
      SortedConcat(rows, tail, DestRowStart);
      UniqueConcat(rows, tail, DestSlot);
    }
  }

  lemma FlattenDestShape(bs: seq<Bucket>, size: int)
    requires size > 0 && WellFormedBuckets(bs, size)
    ensures FlatDestShape(bs, size)
  {
    FlattenDestStarts(bs, size);
    FlattenDestOrder(bs, size);
  }

  lemma {:induction false} FlattenConservation(bs: seq<Bucket>)
    requires forall k :: 0 <= k < |bs| ==> |bs[k].records| > 0
    ensures Sum(FlattenSource(bs), SourceRowBytesOut) == Sum(Flatten(bs), RecordBytesOut)
    ensures Sum(FlattenDest(bs), DestRowBytesIn) == Sum(Flatten(bs), RecordBytesIn)
    decreases |bs|
  {
    if |bs| > 0 {
      FlattenConservation(bs[1..]);
      BucketSourceConservation(bs[0].records, bs[0].start);
      BucketDestConservation(bs[0].records, bs[0].start);
      SumConcat(BucketSourceRows(bs[0].records, bs[0].start), FlattenSource(bs[1..]), SourceRowBytesOut);
      SumConcat(BucketDestRows(bs[0].records, bs[0].start), FlattenDest(bs[1..]), DestRowBytesIn);
      SumConcat(bs[0].records, Flatten(bs[1..]), RecordBytesOut);
      SumConcat(bs[0].records, Flatten(bs[1..]), RecordBytesIn);
    }
  }

  /** Every row's namespace is the namespace of a document of its bucket. */
  lemma {:induction false} FlattenNamespaces(bs: seq<Bucket>)
    requires forall k :: 0 <= k < |bs| ==> |bs[k].records| > 0
    ensures forall r :: r in FlattenSource(bs) ==> exists d :: d in Flatten(bs) && d.sourceNamespace == r.sourceNamespace
    ensures forall r :: r in FlattenDest(bs) ==> exists d :: d in Flatten(bs) && d.destNamespace == r.destNamespace
    decreases |bs|
  {
    if |bs| > 0 {
      var b := bs[0];
      FlattenNamespaces(bs[1..]);
      var src := BucketSourceRows(b.records, b.start);
      var dst := BucketDestRows(b.records, b.start);
      forall r | r in src ensures exists d :: d in Flatten(bs) && d.sourceNamespace == r.sourceNamespace {
        var i :| 0 <= i < |src| && src[i] == r;
        assert SourceRowMeans(src[i], b.records, b.start);
        var d := FirstWith(b.records, RecordSource, r.sourceNameAggr).value;
        assert d in Flatten(bs);
      }
      forall r | r in dst ensures exists d :: d in Flatten(bs) && d.destNamespace == r.destNamespace {
        var i :| 0 <= i < |dst| && dst[i] == r;
        assert DestRowMeans(dst[i], b.records, b.start);
        var d := FirstWith(b.records, RecordDest, r.destServiceName).value;
        assert d in Flatten(bs);
      }
      forall d | d in Flatten(bs[1..]) ensures d in Flatten(bs) { }
    }
  }

  /** The namespace of every row comes from one of the documents. */
  lemma AggregateDataNamespaces(docs: seq<FlowRecord>, bucketSizeMinutes: int)
    ensures AggregateData(docs, bucketSizeMinutes).Ok? ==>
      && (forall r :: r in AggregateData(docs, bucketSizeMinutes).value.0 ==>
            exists d :: d in docs && d.sourceNamespace == r.sourceNamespace)
      && (forall r :: r in AggregateData(docs, bucketSizeMinutes).value.1 ==>
            exists d :: d in docs && d.destNamespace == r.destNamespace)
  {
    if |docs| > 0 && bucketSizeMinutes > 0 {
      var size := bucketSizeMinutes * 60;
      var sorted := SortByStart(docs, RecordStart);
      BucketizeSpec(sorted, size);
      var bs := Bucketize(sorted, size);
      FlattenNamespaces(bs);
      forall d | d in sorted ensures d in docs {
        assert d in multiset(sorted);
      }
    }
  }

  /**
   * What `_aggregate_data` promises its callers: every row starts on a
   * multiple of the bucket width, rows come in start order, no two rows
   * share a (start, name) slot, and no byte is lost or counted twice.
   */
  lemma AggregateDataSpec(docs: seq<FlowRecord>, bucketSizeMinutes: int)
    requires bucketSizeMinutes > 0
    ensures var r := AggregateData(docs, bucketSizeMinutes).value;
      && (forall x :: x in r.0 ==> x.startTime % (bucketSizeMinutes * 60) == 0)
      && (forall x :: x in r.1 ==> x.startTime % (bucketSizeMinutes * 60) == 0)
      && SortedBy(r.0, SourceRowStart) && SortedBy(r.1, DestRowStart)
      && UniqueKeys(r.0, SourceSlot) && UniqueKeys(r.1, DestSlot)
      && Sum(r.0, SourceRowBytesOut) == Sum(docs, RecordBytesOut)
      && Sum(r.1, DestRowBytesIn) == Sum(docs, RecordBytesIn)
  {
    if |docs| > 0 {
      var size := bucketSizeMinutes * 60;
      var sorted := SortByStart(docs, RecordStart);
      BucketizeSpec(sorted, size);
      var bs := Bucketize(sorted, size);
      FlattenSourceShape(bs, size);
      FlattenDestShape(bs, size);
      FlattenConservation(bs);
      SumSort(docs, RecordStart, RecordBytesOut);
      SumSort(docs, RecordStart, RecordBytesIn);
    }
  }
}
