/**
 * Concrete runs of the flow aggregation, worked by hand and checked
 * against the model.
 */
module FlowExamples {
  import opened Wrappers
  import opened FlowBuckets

  function ExampleDoc(t: int, b: int): FlowRecord { FlowRecord(t, "web", "ns", None, None, "db", "ns", 0, b) }

  /**
   * Three documents of one source at 0 s, 240 s and 360 s with 10, 20 and
   * 30 bytes out, in five-minute buckets: the first two share the bucket
   * at 0, the third opens the bucket at 300.
   */
  lemma ThreeRecordBuckets()
    ensures Bucketize([ExampleDoc(0, 10), ExampleDoc(240, 20), ExampleDoc(360, 30)], 300) ==
      [Bucket(0, [ExampleDoc(0, 10), ExampleDoc(240, 20)]), Bucket(300, [ExampleDoc(360, 30)])]
  {
    var a, b, c := ExampleDoc(0, 10), ExampleDoc(240, 20), ExampleDoc(360, 30);
    assert [a, b, c][1..] == [b, c] && [] + [a] == [a];
    assert Walk([a, b, c], 300, [], 0) == Walk([b, c], 300, [a], 0);
    assert [b, c][1..] == [c] && [a] + [b] == [a, b];
    assert Walk([b, c], 300, [a], 0) == Walk([c], 300, [a, b], 0);
    assert AlignDown(360, 300) == 300;
    assert Walk([c], 300, [a, b], 0) == [Bucket(0, [a, b])] + Walk([], 300, [c], 300);
  }
}
