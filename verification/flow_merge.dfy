/**
 * The second pass over aggregated flow rows (`_additional_aggregation`)
 * and the entry point `aggregate_samples` of ph/elastic_api.py.
 *
 * Rows that share a key have their numeric columns added into the first
 * of them, and the survivors are sorted by start time. The source keys a
 * row by the text `f'{start_time}_{namespace}_{name}'`; that text is
 * modelled as written (`SourceKeyText`), and next to it the key the text
 * evidently stands for, the (start, namespace, name) triple (`SourceKey`).
 * The two group rows alike unless a namespace holds an underscore.
 */
module FlowMerge {
  import opened Wrappers
  import opened Text
  import opened KeyedMerge
  import opened FlowBuckets

  // ---- keys --------------------------------------------------------------

  /** The merge key as written: start, namespace and name joined by underscores. */
  function SourceKeyText(r: SourceRow): string {
    IntToString(r.startTime) + "_" + r.sourceNamespace + "_" + r.sourceNameAggr
  }

  function DestKeyText(r: DestRow): string {
    IntToString(r.startTime) + "_" + r.destNamespace + "_" + r.destServiceName
  }

  /** The merge key as intended: the triple itself. */
  function SourceKey(r: SourceRow): (int, string, string) { (r.startTime, r.sourceNamespace, r.sourceNameAggr) }

  function DestKey(r: DestRow): (int, string, string) { (r.startTime, r.destNamespace, r.destServiceName) }

  function SourceRowIps(r: SourceRow): int { r.uniqueDestIpNumber }

  function SourceRowPorts(r: SourceRow): int { r.uniqueDestPortNumber }

  /** A repeated source row: its three counters are added into the first. */
  function AddSource(a: SourceRow, b: SourceRow): SourceRow {
    a.(uniqueDestIpNumber := a.uniqueDestIpNumber + b.uniqueDestIpNumber,
       uniqueDestPortNumber := a.uniqueDestPortNumber + b.uniqueDestPortNumber,
       bytesOut := a.bytesOut + b.bytesOut)
  }

  /** A repeated destination row: its byte counter is added into the first. */
  function AddDest(a: DestRow, b: DestRow): DestRow {
    a.(bytesIn := a.bytesIn + b.bytesIn)
  }

  // ---- the pass ----------------------------------------------------------

  /** `_additional_aggregation` with the underscore-joined text key, as written. */
  function AdditionalAggregationAsWritten(src: seq<SourceRow>, dst: seq<DestRow>): (seq<SourceRow>, seq<DestRow>) {
    (Merge(src, SourceKeyText, AddSource, SourceRowStart), Merge(dst, DestKeyText, AddDest, DestRowStart))
  }

  /** `_additional_aggregation` keyed by the (start, namespace, name) triple. */
  function AdditionalAggregation(src: seq<SourceRow>, dst: seq<DestRow>): (seq<SourceRow>, seq<DestRow>) {
    (Merge(src, SourceKey, AddSource, SourceRowStart), Merge(dst, DestKey, AddDest, DestRowStart))
  }

  /**
   * `aggregate_samples(docs)`: bucket, then merge by the key text, as
   * written. The errors are those of the bucketing.
   */
  function AggregateSamples(docs: seq<FlowRecord>, bucketSizeMinutes: int)
    : (r: Result<(seq<SourceRow>, seq<DestRow>), FlowError>)
    ensures r.Err? <==> |docs| > 0 && bucketSizeMinutes <= 0
    ensures r.Err? ==> r.error == (if bucketSizeMinutes == 0 then ZeroDivisionError else ValueError)
    ensures |docs| == 0 ==> r == Ok(([], []))
  {
    match AggregateData(docs, bucketSizeMinutes)
    case Err(e) => Err(e)
    case Ok(rows) => Ok(AdditionalAggregationAsWritten(rows.0, rows.1))
  }

  /** `aggregate_samples` with the merge keyed by the triple: the corrected half of the key finding. */
  function AggregateSamplesCorrected(docs: seq<FlowRecord>, bucketSizeMinutes: int)
    : (r: Result<(seq<SourceRow>, seq<DestRow>), FlowError>)
    ensures r.Err? <==> |docs| > 0 && bucketSizeMinutes <= 0
    ensures r.Err? ==> r.error == (if bucketSizeMinutes == 0 then ZeroDivisionError else ValueError)
    ensures |docs| == 0 ==> r == Ok(([], []))
  {
    match AggregateData(docs, bucketSizeMinutes)
    case Err(e) => Err(e)
    case Ok(rows) => Ok(AdditionalAggregation(rows.0, rows.1))
  }

  // ---- what the pass promises ----------------------------------------------

  /**
   * After the pass every key occurs once and every key of the input
   * occurs; rows are in start order; each counter of a row is the total of
   * that counter over the input rows with its key; the grand totals of
   * all counters are unchanged.
   */
  lemma AdditionalAggregationSpec(src: seq<SourceRow>, dst: seq<DestRow>)
    ensures var (s, d) := AdditionalAggregation(src, dst);
      && UniqueKeys(s, SourceKey) && KeySet(s, SourceKey) == KeySet(src, SourceKey)
      && UniqueKeys(d, DestKey) && KeySet(d, DestKey) == KeySet(dst, DestKey)
      && SortedBy(s, SourceRowStart) && SortedBy(d, DestRowStart)
      && (forall r :: r in s ==>
            && r.bytesOut == SumWhere(src, SourceKey, SourceKey(r), SourceRowBytesOut)
            && r.uniqueDestIpNumber == SumWhere(src, SourceKey, SourceKey(r), SourceRowIps)
            && r.uniqueDestPortNumber == SumWhere(src, SourceKey, SourceKey(r), SourceRowPorts))
      && (forall r :: r in d ==> r.bytesIn == SumWhere(dst, DestKey, DestKey(r), DestRowBytesIn))
      && Sum(s, SourceRowBytesOut) == Sum(src, SourceRowBytesOut)
      && Sum(d, DestRowBytesIn) == Sum(dst, DestRowBytesIn)
  {
    MergeSpec(src, SourceKey, AddSource, SourceRowStart, SourceRowBytesOut);
    MergeSpec(src, SourceKey, AddSource, SourceRowStart, SourceRowIps);
    MergeSpec(src, SourceKey, AddSource, SourceRowStart, SourceRowPorts);
    MergeSpec(dst, DestKey, AddDest, DestRowStart, DestRowBytesIn);
  }

  /**
   * The pass as written has the same promises for the key text: after it
   * every key text occurs once, every key text of the input occurs, rows
   * are in start order, each counter is the total over the input rows with
   * the row's key text, and the grand totals are unchanged.
   */
  lemma AdditionalAggregationAsWrittenSpec(src: seq<SourceRow>, dst: seq<DestRow>)
    ensures var (s, d) := AdditionalAggregationAsWritten(src, dst);
      && UniqueKeys(s, SourceKeyText) && KeySet(s, SourceKeyText) == KeySet(src, SourceKeyText)
      && UniqueKeys(d, DestKeyText) && KeySet(d, DestKeyText) == KeySet(dst, DestKeyText)
      && SortedBy(s, SourceRowStart) && SortedBy(d, DestRowStart)
      && (forall r :: r in s ==>
            && r.bytesOut == SumWhere(src, SourceKeyText, SourceKeyText(r), SourceRowBytesOut)
            && r.uniqueDestIpNumber == SumWhere(src, SourceKeyText, SourceKeyText(r), SourceRowIps)
            && r.uniqueDestPortNumber == SumWhere(src, SourceKeyText, SourceKeyText(r), SourceRowPorts))
      && (forall r :: r in d ==> r.bytesIn == SumWhere(dst, DestKeyText, DestKeyText(r), DestRowBytesIn))
      && Sum(s, SourceRowBytesOut) == Sum(src, SourceRowBytesOut)
      && Sum(d, DestRowBytesIn) == Sum(dst, DestRowBytesIn)
  {
    MergeSpec(src, SourceKeyText, AddSource, SourceRowStart, SourceRowBytesOut);
    MergeSpec(src, SourceKeyText, AddSource, SourceRowStart, SourceRowIps);
    MergeSpec(src, SourceKeyText, AddSource, SourceRowStart, SourceRowPorts);
    MergeSpec(dst, DestKeyText, AddDest, DestRowStart, DestRowBytesIn);
  }

  /** With the text key, a merged row keeps the namespace and name of the first row with its key. */
  lemma AsWrittenKeepsFirst(src: seq<SourceRow>)
    ensures forall r :: r in Collect(src, SourceKeyText, AddSource) ==>
      FirstWith(src, SourceKeyText, SourceKeyText(r)).Some? &&
      SourceKey(r) == SourceKey(FirstWith(src, SourceKeyText, SourceKeyText(r)).value)
  {
    CollectKeepsFirst(src, SourceKeyText, AddSource, SourceKey);
  }

  /** Merging merged rows again changes nothing, row for row and in order. */
  lemma AdditionalAggregationIdempotent(src: seq<SourceRow>, dst: seq<DestRow>)
    ensures var m := AdditionalAggregation(src, dst);
      AdditionalAggregation(m.0, m.1) == m
    ensures var m := AdditionalAggregationAsWritten(src, dst);
      AdditionalAggregationAsWritten(m.0, m.1) == m
  {
    MergeIdempotent(src, SourceKey, AddSource, SourceRowStart);
    MergeIdempotent(dst, DestKey, AddDest, DestRowStart);
    MergeIdempotent(src, SourceKeyText, AddSource, SourceRowStart);
    MergeIdempotent(dst, DestKeyText, AddDest, DestRowStart);
  }

  /**
   * What `aggregate_samples` promises for a positive width: rows start on
   * multiples of the width and come in start order, no two rows share a
   * key text, and no byte is lost or counted twice.
   */
  lemma AggregateSamplesSpec(docs: seq<FlowRecord>, bucketSizeMinutes: int)
    requires bucketSizeMinutes > 0
    ensures var (s, d) := AggregateSamples(docs, bucketSizeMinutes).value;
      && (forall x :: x in s ==> x.startTime % (bucketSizeMinutes * 60) == 0)
      && (forall x :: x in d ==> x.startTime % (bucketSizeMinutes * 60) == 0)
      && SortedBy(s, SourceRowStart) && SortedBy(d, DestRowStart)
      && UniqueKeys(s, SourceKeyText) && UniqueKeys(d, DestKeyText)
      && Sum(s, SourceRowBytesOut) == Sum(docs, RecordBytesOut)
      && Sum(d, DestRowBytesIn) == Sum(docs, RecordBytesIn)
  {
    var a := AggregateData(docs, bucketSizeMinutes).value;
    AggregateDataSpec(docs, bucketSizeMinutes);
    AdditionalAggregationAsWrittenSpec(a.0, a.1);
    MergeKeepsColumn(a.0, SourceKeyText, AddSource, SourceRowStart, SourceRowStart);
    MergeKeepsColumn(a.1, DestKeyText, AddDest, DestRowStart, DestRowStart);
  }

  /**
   * On the output of a single bucketing call the triple-keyed merge has
   * nothing to do: its rows already have distinct triples and are in start
   * order.
   */
  lemma AggregateSamplesCorrectedOfOneCall(docs: seq<FlowRecord>, bucketSizeMinutes: int)
    ensures AggregateSamplesCorrected(docs, bucketSizeMinutes) == AggregateData(docs, bucketSizeMinutes)
  {
    if bucketSizeMinutes > 0 {
      var r := AggregateData(docs, bucketSizeMinutes).value;
      AggregateDataSpec(docs, bucketSizeMinutes);
      assert UniqueKeys(r.0, SourceKey) by {
        forall i, j | 0 <= i < j < |r.0| ensures SourceKey(r.0[i]) != SourceKey(r.0[j]) {
          assert SourceSlot(r.0[i]) != SourceSlot(r.0[j]);
        }
      }
      assert UniqueKeys(r.1, DestKey) by {
        forall i, j | 0 <= i < j < |r.1| ensures DestKey(r.1[i]) != DestKey(r.1[j]) {
          assert DestSlot(r.1[i]) != DestSlot(r.1[j]);
        }
      }
      CollectUniqueIsIdentity(r.0, SourceKey, AddSource);
      CollectUniqueIsIdentity(r.1, DestKey, AddDest);
      SortSortedIsIdentity(r.0, SourceRowStart);
      SortSortedIsIdentity(r.1, DestRowStart);
    }
  }

  /** No document's namespace holds an underscore. */
  ghost predicate NoUnderscoreDocs(docs: seq<FlowRecord>) {
    forall i :: 0 <= i < |docs| ==> '_' !in docs[i].sourceNamespace && '_' !in docs[i].destNamespace
  }

  /**
   * As written, `aggregate_samples` leaves the rows of one bucketing call
   * as they are when no namespace holds an underscore; otherwise two
   * entities of one bucket can share a key text and be merged (see
   * `UnderscoreCollision`).
   */
  lemma AggregateSamplesOfOneCall(docs: seq<FlowRecord>, bucketSizeMinutes: int)
    requires NoUnderscoreDocs(docs)
    ensures AggregateSamples(docs, bucketSizeMinutes) == AggregateData(docs, bucketSizeMinutes)
  {
    AggregateSamplesCorrectedOfOneCall(docs, bucketSizeMinutes);
    if AggregateData(docs, bucketSizeMinutes).Ok? {
      var a := AggregateData(docs, bucketSizeMinutes).value;
      AggregateDataNamespaces(docs, bucketSizeMinutes);
      forall i | 0 <= i < |a.0| ensures '_' !in a.0[i].sourceNamespace {
        assert a.0[i] in a.0;
        var d :| d in docs && d.sourceNamespace == a.0[i].sourceNamespace;
        var k :| 0 <= k < |docs| && docs[k] == d;
      }
      forall i | 0 <= i < |a.1| ensures '_' !in a.1[i].destNamespace {
        assert a.1[i] in a.1;
        var d :| d in docs && d.destNamespace == a.1[i].destNamespace;
        var k :| 0 <= k < |docs| && docs[k] == d;
      }
      AsWrittenAgreesWithoutUnderscores(a.0, a.1);
    }
  }

  /**
   * Documents fetched in two pages, bucketed page by page and merged
   * together by the key text as written, keep every byte: the merged
   * totals are the totals of both pages, and each key text occurs once.
   */
  lemma TwoPagesKeepTotals(page1: seq<FlowRecord>, page2: seq<FlowRecord>, bucketSizeMinutes: int)
    ensures AggregateData(page1, bucketSizeMinutes).Ok? && AggregateData(page2, bucketSizeMinutes).Ok? ==>
      var a, b := AggregateData(page1, bucketSizeMinutes).value, AggregateData(page2, bucketSizeMinutes).value;
      var m := AdditionalAggregationAsWritten(a.0 + b.0, a.1 + b.1);
      && Sum(m.0, SourceRowBytesOut) == Sum(page1 + page2, RecordBytesOut)
      && Sum(m.1, DestRowBytesIn) == Sum(page1 + page2, RecordBytesIn)
      && UniqueKeys(m.0, SourceKeyText) && UniqueKeys(m.1, DestKeyText)
  {
    if AggregateData(page1, bucketSizeMinutes).Ok? && AggregateData(page2, bucketSizeMinutes).Ok? {
      var a, b := AggregateData(page1, bucketSizeMinutes).value, AggregateData(page2, bucketSizeMinutes).value;
      if bucketSizeMinutes > 0 {
        AggregateDataSpec(page1, bucketSizeMinutes);
        AggregateDataSpec(page2, bucketSizeMinutes);
      } else {
        assert page1 == [] && page2 == [];
      }
      AdditionalAggregationAsWrittenSpec(a.0 + b.0, a.1 + b.1);
      SumConcat(a.0, b.0, SourceRowBytesOut);
      SumConcat(a.1, b.1, DestRowBytesIn);
      SumConcat(page1, page2, RecordBytesOut);
      SumConcat(page1, page2, RecordBytesIn);
    }
  }

  // ---- the text key against the triple -------------------------------------

  lemma JoinThree(a: string, b: string, c: string)
    ensures a + "_" + b + "_" + c == a + ['_'] + (b + ['_'] + c)
  {
  }

  lemma KeyTextParts(s1: int, ns1: string, n1: string, s2: int, ns2: string, n2: string)
    requires '_' !in ns1 && '_' !in ns2
    requires IntToString(s1) + "_" + ns1 + "_" + n1 == IntToString(s2) + "_" + ns2 + "_" + n2
    ensures s1 == s2 && ns1 == ns2 && n1 == n2
  {
    IntToStringChars(s1, '_');
    IntToStringChars(s2, '_');
    JoinThree(IntToString(s1), ns1, n1);
    JoinThree(IntToString(s2), ns2, n2);
    SeparatedPrefix(IntToString(s1), ns1 + ['_'] + n1, IntToString(s2), ns2 + ['_'] + n2, '_');
    SeparatedPrefix(ns1, n1, ns2, n2, '_');
    IntToStringInjective(s1, s2);
  }

  ghost predicate NoUnderscoreNamespaces(src: seq<SourceRow>, dst: seq<DestRow>) {
    && (forall i :: 0 <= i < |src| ==> '_' !in src[i].sourceNamespace)
    && (forall i :: 0 <= i < |dst| ==> '_' !in dst[i].destNamespace)
  }

  /**
   * When no namespace contains an underscore the text key groups rows
   * exactly as the triple does, so the pass as written computes the
   * intended result.
   */
  lemma AsWrittenAgreesWithoutUnderscores(src: seq<SourceRow>, dst: seq<DestRow>)
    requires NoUnderscoreNamespaces(src, dst)
    ensures AdditionalAggregationAsWritten(src, dst) == AdditionalAggregation(src, dst)
  {
    forall i, j | 0 <= i < |src| && 0 <= j < |src| && SourceKeyText(src[i]) == SourceKeyText(src[j])
      ensures SourceKey(src[i]) == SourceKey(src[j])
    {
      KeyTextParts(src[i].startTime, src[i].sourceNamespace, src[i].sourceNameAggr,
                   src[j].startTime, src[j].sourceNamespace, src[j].sourceNameAggr);
    }
    forall i, j | 0 <= i < |dst| && 0 <= j < |dst| && DestKeyText(dst[i]) == DestKeyText(dst[j])
      ensures DestKey(dst[i]) == DestKey(dst[j])
    {
      KeyTextParts(dst[i].startTime, dst[i].destNamespace, dst[i].destServiceName,
                   dst[j].startTime, dst[j].destNamespace, dst[j].destServiceName);
    }
    MergeSameGrouping(src, SourceKeyText, SourceKey, AddSource, SourceRowStart);
    MergeSameGrouping(dst, DestKeyText, DestKey, AddDest, DestRowStart);
  }

  /**
   * The text key as written merges two different entities: namespace "a"
   * with name "b_c" and namespace "a_b" with name "c", in the same bucket,
   * both become "0_a_b_c" and end up in one row, while the triple keeps
   * them apart.
   */
  lemma UnderscoreCollision()
    ensures var src := [SourceRow(0, "a", "b_c", 1, 1, 10), SourceRow(0, "a_b", "c", 2, 2, 20)];
      && AdditionalAggregationAsWritten(src, []).0 == [SourceRow(0, "a", "b_c", 3, 3, 30)]
      && AdditionalAggregation(src, []).0 == src
  {
    CollisionMerged();
    CollisionKeptApart();
  }

  lemma CollisionMerged()
    ensures var src := [SourceRow(0, "a", "b_c", 1, 1, 10), SourceRow(0, "a_b", "c", 2, 2, 20)];
      AdditionalAggregationAsWritten(src, []).0 == [SourceRow(0, "a", "b_c", 3, 3, 30)]
  {
    var x, y := SourceRow(0, "a", "b_c", 1, 1, 10), SourceRow(0, "a_b", "c", 2, 2, 20);
    var src := [x, y];
    assert IntToString(0) == "0";
    assert SourceKeyText(x) == SourceKeyText(y);
    assert src[..1] == [x] && [x][..0] == [];
    assert Collect([x], SourceKeyText, AddSource) == [x];
    assert Collect(src, SourceKeyText, AddSource) == [AddSource(x, y)];
    SortSortedIsIdentity([AddSource(x, y)], SourceRowStart);
  }

  lemma CollisionKeptApart()
    ensures var src := [SourceRow(0, "a", "b_c", 1, 1, 10), SourceRow(0, "a_b", "c", 2, 2, 20)];
      AdditionalAggregation(src, []).0 == src
  {
    var x, y := SourceRow(0, "a", "b_c", 1, 1, 10), SourceRow(0, "a_b", "c", 2, 2, 20);
    var src := [x, y];
    assert "a"[0] == "a_b"[0] && |"a"| != |"a_b"|;
    assert SourceKey(x) != SourceKey(y);
    CollectUniqueIsIdentity(src, SourceKey, AddSource);
    SortSortedIsIdentity(src, SourceRowStart);
  }
}
