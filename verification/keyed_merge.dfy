/**
 * The two generic steps of the flow-row merge pass: folding rows into an
 * insertion-ordered dictionary keyed by `key` (a repeated key has its
 * numbers added into the first occurrence by `add`), and Python's stable
 * `sorted(..., key=start)`. Every property is proved once here, for any
 * key function, and used for both the source and the destination rows.
 */
module KeyedMerge {
  import opened Wrappers

  // ---- stable sort by an int key -----------------------------------------

  ghost predicate SortedBy<R>(s: seq<R>, start: R -> int) {
    forall i, j :: 0 <= i < j < |s| ==> start(s[i]) <= start(s[j])
  }

  /** The rows of `s` whose sort key is `k`, in order. */
  function WithStart<R>(s: seq<R>, start: R -> int, k: int): seq<R>
    decreases |s|
  {
    if |s| == 0 then []
    else (if start(s[0]) == k then [s[0]] else []) + WithStart(s[1..], start, k)
  }

  function Insert<R>(x: R, s: seq<R>, start: R -> int): (r: seq<R>)
    ensures |r| == |s| + 1
    ensures multiset(r) == multiset(s) + multiset{x}
    decreases |s|
  {
    if |s| == 0 || start(x) <= start(s[0]) then [x] + s
    else
      assert s == [s[0]] + s[1..];
      [s[0]] + Insert(x, s[1..], start)
  }

  /** Every row of `Insert(x, s)` has a key at least `lo` when `x` and every row of `s` do. */
  lemma {:induction false} InsertLowerBound<R>(x: R, s: seq<R>, start: R -> int, lo: int)
    requires lo <= start(x)
    requires forall i :: 0 <= i < |s| ==> lo <= start(s[i])
    ensures forall i :: 0 <= i < |Insert(x, s, start)| ==> lo <= start(Insert(x, s, start)[i])
    decreases |s|
  {
    if |s| > 0 && start(x) > start(s[0]) {
      InsertLowerBound(x, s[1..], start, lo);
      var t := Insert(x, s[1..], start);
      assert Insert(x, s, start) == [s[0]] + t;
    }
  }

  /** Inserting into a sorted sequence keeps it sorted. */
  lemma {:induction false} InsertSorted<R>(x: R, s: seq<R>, start: R -> int)
    requires SortedBy(s, start)
    ensures SortedBy(Insert(x, s, start), start)
    decreases |s|
  {
    if |s| > 0 && start(x) > start(s[0]) {
      var t := Insert(x, s[1..], start);
      InsertSorted(x, s[1..], start);
      InsertLowerBound(x, s[1..], start, start(s[0]));
      var r := [s[0]] + t;
      assert Insert(x, s, start) == r;
      forall i, j | 0 <= i < j < |r| ensures start(r[i]) <= start(r[j]) {
        assert r[j] == t[j - 1];
        if i > 0 { assert r[i] == t[i - 1]; }
      }
    }
  }

  /** Python's `sorted(s, key=start)` (a stable sort). */
  function SortByStart<R>(s: seq<R>, start: R -> int): (r: seq<R>)
    ensures |r| == |s|
    ensures multiset(r) == multiset(s)
    ensures SortedBy(r, start)
    decreases |s|
  {
    if |s| == 0 then []
    else
      assert s == [s[0]] + s[1..];
      var t := SortByStart(s[1..], start);
      InsertSorted(s[0], t, start);
      Insert(s[0], t, start)
  }

  lemma {:induction false} InsertWithStart<R>(x: R, s: seq<R>, start: R -> int, k: int)
    requires SortedBy(s, start)
    ensures WithStart(Insert(x, s, start), start, k) ==
            (if start(x) == k then [x] else []) + WithStart(s, start, k)
    decreases |s|
  {
    if |s| == 0 || start(x) <= start(s[0]) {
      assert Insert(x, s, start) == [x] + s;
      assert ([x] + s)[1..] == s;
    } else {
      var t := Insert(x, s[1..], start);
      InsertWithStart(x, s[1..], start, k);
      assert Insert(x, s, start) == [s[0]] + t;
      assert ([s[0]] + t)[1..] == t;
      assert WithStart([s[0]] + t, start, k) == (if start(s[0]) == k then [s[0]] else []) + WithStart(t, start, k);
      assert WithStart(s, start, k) == (if start(s[0]) == k then [s[0]] else []) + WithStart(s[1..], start, k);
    }
  }

  /**
   * Stability: for every key value the sorted rows carrying it appear in
   * their input order.
   */
  lemma {:induction false} SortIsStable<R>(s: seq<R>, start: R -> int, k: int)
    ensures WithStart(SortByStart(s, start), start, k) == WithStart(s, start, k)
    decreases |s|
  {
    if |s| > 0 {
      SortIsStable(s[1..], start, k);
      InsertWithStart(s[0], SortByStart(s[1..], start), start, k);
    }
  }

  /** Sorting rows that are already in order changes nothing. */
  lemma {:induction false} SortSortedIsIdentity<R>(s: seq<R>, start: R -> int)
    requires SortedBy(s, start)
    ensures SortByStart(s, start) == s
    decreases |s|
  {
    if |s| > 0 {
      SortSortedIsIdentity(s[1..], start);
      assert SortByStart(s[1..], start) == s[1..];
      if |s| > 1 {
        assert start(s[0]) <= start(s[1]);
      }
      assert [s[0]] + s[1..] == s;
    }
  }

  // ---- sums --------------------------------------------------------------

  function Sum<R>(s: seq<R>, val: R -> int): int
    decreases |s|
  {
    if |s| == 0 then 0 else val(s[0]) + Sum(s[1..], val)
  }

  lemma {:induction false} SumAppend<R>(s: seq<R>, x: R, val: R -> int)
    ensures Sum(s + [x], val) == Sum(s, val) + val(x)
    decreases |s|
  {
    if |s| > 0 {
      SumAppend(s[1..], x, val);
      assert (s + [x])[1..] == s[1..] + [x];
    }
  }

  lemma {:induction false} SumUpdate<R>(s: seq<R>, i: nat, y: R, val: R -> int)
    requires i < |s|
    ensures Sum(s[i := y], val) == Sum(s, val) - val(s[i]) + val(y)
    decreases |s|
  {
    if i > 0 {
      SumUpdate(s[1..], i - 1, y, val);
      assert s[i := y][1..] == s[1..][i - 1 := y];
    } else {
      assert s[i := y][1..] == s[1..];
    }
  }

  lemma {:induction false} SumInsert<R>(x: R, s: seq<R>, start: R -> int, val: R -> int)
    ensures Sum(Insert(x, s, start), val) == val(x) + Sum(s, val)
    decreases |s|
  {
    if |s| == 0 || start(x) <= start(s[0]) {
      assert ([x] + s)[1..] == s;
    } else {
      SumInsert(x, s[1..], start, val);
      assert ([s[0]] + Insert(x, s[1..], start))[1..] == Insert(x, s[1..], start);
    }
  }

  /** Sorting keeps every column total. */
  lemma {:induction false} SumSort<R>(s: seq<R>, start: R -> int, val: R -> int)
    ensures Sum(SortByStart(s, start), val) == Sum(s, val)
    decreases |s|
  {
    if |s| > 0 {
      SumSort(s[1..], start, val);
      SumInsert(s[0], SortByStart(s[1..], start), start, val);
    }
  }

  /** Total of `val` over the rows whose key is `k`. */
  function SumWhere<R, K(==)>(rows: seq<R>, key: R -> K, k: K, val: R -> int): int
    decreases |rows|
  {
    if |rows| == 0 then 0
    else
      var last := rows[|rows| - 1];
      SumWhere(rows[..|rows| - 1], key, k, val) + (if key(last) == k then val(last) else 0)
  }

  // ---- the insertion-ordered dictionary pass --------------------------

  ghost predicate UniqueKeys<R, K>(s: seq<R>, key: R -> K) {
    forall i, j :: 0 <= i < j < |s| ==> key(s[i]) != key(s[j])
  }

  function KeySet<R, K(==)>(s: seq<R>, key: R -> K): set<K> {
    set i | 0 <= i < |s| :: key(s[i])
  }

  /** The first row carrying key `k`, if any. */
  function FirstWith<R, K(==)>(rows: seq<R>, key: R -> K, k: K): (r: Option<R>)
    ensures r.Some? ==> r.value in rows && key(r.value) == k
    ensures r.None? ==> k !in KeySet(rows, key)
    decreases |rows|
  {
    if |rows| == 0 then None
    else if key(rows[0]) == k then Some(rows[0])
    else
      var r := FirstWith(rows[1..], key, k);
      assert r.None? ==> k !in KeySet(rows, key) by {
        forall i | 0 <= i < |rows| && r.None? ensures key(rows[i]) != k {
          if i > 0 {
            assert rows[i] == rows[1..][i - 1];
            assert key(rows[1..][i - 1]) in KeySet(rows[1..], key);
          }
        }
      }
      r
  }

  /** Position of the row carrying key `k` in the dictionary under construction. */
  function KeyIndex<R, K(==)>(acc: seq<R>, key: R -> K, k: K): (r: Option<nat>)
    ensures r.Some? ==> r.value < |acc| && key(acc[r.value]) == k
    ensures r.None? ==> forall i :: 0 <= i < |acc| ==> key(acc[i]) != k
    decreases |acc|
  {
    if |acc| == 0 then None
    else if key(acc[|acc| - 1]) == k then Some(|acc| - 1)
    else KeyIndex(acc[..|acc| - 1], key, k)
  }

  /** One iteration of the loop: add `s` into the row with its key, or append it. */
  function Absorb<R, K(==)>(acc: seq<R>, s: R, key: R -> K, add: (R, R) -> R): seq<R> {
    match KeyIndex(acc, key, key(s))
    case Some(i) => acc[i := add(acc[i], s)]
    case None => acc + [s]
  }

  /** The dictionary's values after the whole loop, in insertion order. */
  function Collect<R, K(==)>(rows: seq<R>, key: R -> K, add: (R, R) -> R): seq<R>
    decreases |rows|
  {
    if |rows| == 0 then []
    else Absorb(Collect(rows[..|rows| - 1], key, add), rows[|rows| - 1], key, add)
  }

  /** Python's merge pass: collect by key, then sort by start time. */
  function Merge<R, K(==)>(rows: seq<R>, key: R -> K, add: (R, R) -> R, start: R -> int): seq<R> {
    SortByStart(Collect(rows, key, add), start)
  }

  // ---- properties of Collect ------------------------------------------

  lemma {:induction false} CollectUnique<R, K>(rows: seq<R>, key: R -> K, add: (R, R) -> R)
    requires forall a, b :: key(add(a, b)) == key(a)
    ensures UniqueKeys(Collect(rows, key, add), key)
    ensures KeySet(Collect(rows, key, add), key) == KeySet(rows, key)
    decreases |rows|
  {
    if |rows| > 0 {
      var prefix := rows[..|rows| - 1];
      var s := rows[|rows| - 1];
      var acc := Collect(prefix, key, add);
      CollectUnique(prefix, key, add);
      assert rows == prefix + [s];
      assert KeySet(rows, key) == KeySet(prefix, key) + {key(s)} by {
        forall k | k in KeySet(rows, key) ensures k in KeySet(prefix, key) + {key(s)} {
          var i :| 0 <= i < |rows| && key(rows[i]) == k;
          if i < |prefix| { assert rows[i] == prefix[i]; }
        }
        forall k | k in KeySet(prefix, key) ensures k in KeySet(rows, key) {
          var i :| 0 <= i < |prefix| && key(prefix[i]) == k;
          assert rows[i] == prefix[i];
        }
        assert key(rows[|rows| - 1]) == key(s);
      }
      match KeyIndex(acc, key, key(s))
      case Some(i) =>
        var acc' := acc[i := add(acc[i], s)];
        assert forall j :: 0 <= j < |acc| ==> key(acc'[j]) == key(acc[j]);
        assert KeySet(acc', key) == KeySet(acc, key) by {
          forall k | k in KeySet(acc', key) ensures k in KeySet(acc, key) {
            var j :| 0 <= j < |acc'| && key(acc'[j]) == k;
          }
          forall k | k in KeySet(acc, key) ensures k in KeySet(acc', key) {
            var j :| 0 <= j < |acc| && key(acc[j]) == k;
            assert key(acc'[j]) == k;
          }
        }
      case None =>
        var acc' := acc + [s];
        assert KeySet(acc', key) == KeySet(acc, key) + {key(s)} by {
          forall k | k in KeySet(acc', key) ensures k in KeySet(acc, key) + {key(s)} {
            var j :| 0 <= j < |acc'| && key(acc'[j]) == k;
            if j < |acc| { assert acc'[j] == acc[j]; }
          }
          forall k | k in KeySet(acc, key) ensures k in KeySet(acc', key) {
            var j :| 0 <= j < |acc| && key(acc[j]) == k;
            assert acc'[j] == acc[j];
          }
          assert acc'[|acc|] == s;
        }
    }
  }

  lemma {:induction false} SumWhereAppend<R, K>(rows: seq<R>, x: R, key: R -> K, k: K, val: R -> int)
    ensures SumWhere(rows + [x], key, k, val) == SumWhere(rows, key, k, val) + (if key(x) == k then val(x) else 0)
  {
    assert (rows + [x])[..|rows|] == rows;
  }

  lemma {:induction false} SumWhereAbsent<R, K>(rows: seq<R>, key: R -> K, k: K, val: R -> int)
    requires k !in KeySet(rows, key)
    ensures SumWhere(rows, key, k, val) == 0
    decreases |rows|
  {
    if |rows| > 0 {
      var prefix := rows[..|rows| - 1];
      assert k !in KeySet(prefix, key) by {
        forall i | 0 <= i < |prefix| ensures key(prefix[i]) != k {
          assert rows[i] == prefix[i];
          assert key(rows[i]) in KeySet(rows, key);
        }
      }
      SumWhereAbsent(prefix, key, k, val);
      assert key(rows[|rows| - 1]) in KeySet(rows, key);
    }
  }

  /**
   * Each collected row carries, in every additive column, the total of
   * that column over all input rows with its key.
   */
  lemma {:induction false} CollectSums<R, K>(rows: seq<R>, key: R -> K, add: (R, R) -> R, val: R -> int)
    requires forall a, b :: key(add(a, b)) == key(a)
    requires forall a, b :: val(add(a, b)) == val(a) + val(b)
    ensures forall r :: r in Collect(rows, key, add) ==> val(r) == SumWhere(rows, key, key(r), val)
    decreases |rows|
  {
    if |rows| > 0 {
      var prefix := rows[..|rows| - 1];
      var s := rows[|rows| - 1];
      var acc := Collect(prefix, key, add);
      CollectSums(prefix, key, add, val);
      CollectUnique(prefix, key, add);
      assert rows == prefix + [s];
      forall k {
        SumWhereAppend(prefix, s, key, k, val);
      }
      match KeyIndex(acc, key, key(s))
      case Some(i) =>
        var acc' := acc[i := add(acc[i], s)];
        forall r | r in acc' ensures val(r) == SumWhere(rows, key, key(r), val) {
          var j :| 0 <= j < |acc'| && acc'[j] == r;
          if j != i {
            assert key(acc[j]) != key(acc[i]);
          }
        }
      case None =>
        var acc' := acc + [s];
        forall r | r in acc' ensures val(r) == SumWhere(rows, key, key(r), val) {
          if r in acc {
            var j :| 0 <= j < |acc| && acc[j] == r;
            assert key(r) != key(s);
          } else {
            assert r == s;
            assert key(s) !in KeySet(prefix, key);
            SumWhereAbsent(prefix, key, key(s), val);
          }
        }
    }
  }

  lemma {:induction false} FirstWithAppend<R, K>(rows: seq<R>, x: R, key: R -> K, k: K)
    ensures FirstWith(rows + [x], key, k) ==
            if FirstWith(rows, key, k).Some? then FirstWith(rows, key, k)
            else if key(x) == k then Some(x) else None
    decreases |rows|
  {
    if |rows| > 0 {
      FirstWithAppend(rows[1..], x, key, k);
      assert (rows + [x])[1..] == rows[1..] + [x];
    }
  }

  /**
   * Each collected row keeps the identifying columns (`ident`, untouched
   * by `add`) of the first input row with its key.
   */
  lemma {:induction false} CollectKeepsFirst<R, K, I>(rows: seq<R>, key: R -> K, add: (R, R) -> R, ident: R -> I)
    requires forall a, b :: key(add(a, b)) == key(a)
    requires forall a, b :: ident(add(a, b)) == ident(a)
    ensures forall r :: r in Collect(rows, key, add) ==>
      FirstWith(rows, key, key(r)).Some? && ident(r) == ident(FirstWith(rows, key, key(r)).value)
    decreases |rows|
  {
    if |rows| > 0 {
      var prefix := rows[..|rows| - 1];
      var s := rows[|rows| - 1];
      var acc := Collect(prefix, key, add);
      CollectKeepsFirst(prefix, key, add, ident);
      CollectUnique(prefix, key, add);
      assert rows == prefix + [s];
      forall k {
        FirstWithAppend(prefix, s, key, k);
      }
      match KeyIndex(acc, key, key(s))
      case Some(i) =>
        var acc' := acc[i := add(acc[i], s)];
        forall r | r in acc'
          ensures FirstWith(rows, key, key(r)).Some? && ident(r) == ident(FirstWith(rows, key, key(r)).value)
        {
          var j :| 0 <= j < |acc'| && acc'[j] == r;
          assert acc[j] in acc;
        }
      case None =>
        var acc' := acc + [s];
        forall r | r in acc'
          ensures FirstWith(rows, key, key(r)).Some? && ident(r) == ident(FirstWith(rows, key, key(r)).value)
        {
          if r !in acc {
            assert r == s;
            assert key(s) !in KeySet(prefix, key);
          }
        }
    }
  }

  /** On rows whose keys are already distinct the dictionary pass changes nothing. */
  lemma {:induction false} CollectUniqueIsIdentity<R, K>(rows: seq<R>, key: R -> K, add: (R, R) -> R)
    requires UniqueKeys(rows, key)
    ensures Collect(rows, key, add) == rows
    decreases |rows|
  {
    if |rows| > 0 {
      var prefix := rows[..|rows| - 1];
      var s := rows[|rows| - 1];
      assert UniqueKeys(prefix, key) by {
        forall i, j | 0 <= i < j < |prefix| ensures key(prefix[i]) != key(prefix[j]) {
          assert prefix[i] == rows[i] && prefix[j] == rows[j];
        }
      }
      CollectUniqueIsIdentity(prefix, key, add);
      forall i | 0 <= i < |prefix| ensures key(prefix[i]) != key(s) {
        assert prefix[i] == rows[i];
      }
      assert KeyIndex(prefix, key, key(s)) == None;
      assert Collect(rows, key, add) == Absorb(prefix, s, key, add);
      assert rows == prefix + [s];
    }
  }

  // ---- properties of sorting that Merge needs -----------------------------

  lemma {:induction false} SortMembers<R>(s: seq<R>, start: R -> int)
    ensures forall y :: y in SortByStart(s, start) <==> y in s
  {
    var r := SortByStart(s, start);
    forall y ensures y in r <==> y in s {
      assert y in r <==> y in multiset(r);
      assert y in s <==> y in multiset(s);
    }
  }

  lemma {:induction false} InsertUnique<R, K>(x: R, s: seq<R>, start: R -> int, key: R -> K)
    requires UniqueKeys(s, key)
    requires forall y :: y in s ==> key(y) != key(x)
    ensures UniqueKeys(Insert(x, s, start), key)
    decreases |s|
  {
    if |s| > 0 && start(x) > start(s[0]) {
      InsertUnique(x, s[1..], start, key);
      var t := Insert(x, s[1..], start);
      forall y | y in t ensures key(y) != key(s[0]) {
        assert y in multiset(t);
        if y != x {
          var j :| 0 <= j < |s[1..]| && s[1..][j] == y;
          assert s[j + 1] == y;
        }
      }
    }
  }

  lemma {:induction false} SortUnique<R, K>(s: seq<R>, start: R -> int, key: R -> K)
    requires UniqueKeys(s, key)
    ensures UniqueKeys(SortByStart(s, start), key)
    decreases |s|
  {
    if |s| > 0 {
      SortUnique(s[1..], start, key);
      SortMembers(s[1..], start);
      forall y | y in SortByStart(s[1..], start) ensures key(y) != key(s[0]) {
        assert y in multiset(SortByStart(s[1..], start));
        assert y in multiset(s[1..]);
        var j :| 0 <= j < |s[1..]| && s[1..][j] == y;
        assert s[j + 1] == y;
      }
      InsertUnique(s[0], SortByStart(s[1..], start), start, key);
    }
  }

  lemma {:induction false} KeySetMembers<R, K>(a: seq<R>, b: seq<R>, key: R -> K)
    requires forall y :: y in a <==> y in b
    ensures KeySet(a, key) == KeySet(b, key)
  {
    forall k | k in KeySet(a, key) ensures k in KeySet(b, key) {
      var i :| 0 <= i < |a| && key(a[i]) == k;
      assert a[i] in b;
      var j :| 0 <= j < |b| && b[j] == a[i];
    }
    forall k | k in KeySet(b, key) ensures k in KeySet(a, key) {
      var i :| 0 <= i < |b| && key(b[i]) == k;
      assert b[i] in a;
      var j :| 0 <= j < |a| && a[j] == b[i];
    }
  }

  // ---- the merge pass as a whole ------------------------------------------

  /**
   * The merge pass yields one row per key of its input, sorted by start,
   * every additive column equal to the total over the rows sharing that
   * key and the grand total of that column unchanged.
   */
  lemma MergeSpec<R, K>(rows: seq<R>, key: R -> K, add: (R, R) -> R, start: R -> int, val: R -> int)
    requires forall a, b :: key(add(a, b)) == key(a)
    requires forall a, b :: val(add(a, b)) == val(a) + val(b)
    ensures UniqueKeys(Merge(rows, key, add, start), key)
    ensures KeySet(Merge(rows, key, add, start), key) == KeySet(rows, key)
    ensures SortedBy(Merge(rows, key, add, start), start)
    ensures forall r :: r in Merge(rows, key, add, start) ==> val(r) == SumWhere(rows, key, key(r), val)
    ensures Sum(Merge(rows, key, add, start), val) == Sum(rows, val)
  {
    var c := Collect(rows, key, add);
    CollectUnique(rows, key, add);
    CollectSums(rows, key, add, val);
    SortUnique(c, start, key);
    SortMembers(c, start);
    KeySetMembers(SortByStart(c, start), c, key);
    SumSort(c, start, val);
    CollectTotal(rows, key, add, val);
    forall r | r in Merge(rows, key, add, start) ensures val(r) == SumWhere(rows, key, key(r), val) {
      assert r in multiset(SortByStart(c, start));
      assert r in multiset(c);
    }
  }

  /**
   * A column that adding rows leaves alone (the start time, say) holds, in
   * every merged row, the value of some input row.
   */
  lemma MergeKeepsColumn<R, K, I>(rows: seq<R>, key: R -> K, add: (R, R) -> R, start: R -> int, ident: R -> I)
    requires forall a, b :: key(add(a, b)) == key(a)
    requires forall a, b :: ident(add(a, b)) == ident(a)
    ensures forall r :: r in Merge(rows, key, add, start) ==> exists x :: x in rows && ident(x) == ident(r)
  {
    var c := Collect(rows, key, add);
    CollectKeepsFirst(rows, key, add, ident);
    forall r | r in Merge(rows, key, add, start) ensures exists x :: x in rows && ident(x) == ident(r) {
      assert r in multiset(SortByStart(c, start));
      assert r in c;
      var x := FirstWith(rows, key, key(r)).value;
      assert x in rows && ident(x) == ident(r);
    }
  }

  /** The dictionary pass keeps every additive column's grand total. */
  lemma {:induction false} CollectTotal<R, K>(rows: seq<R>, key: R -> K, add: (R, R) -> R, val: R -> int)
    requires forall a, b :: val(add(a, b)) == val(a) + val(b)
    ensures Sum(Collect(rows, key, add), val) == Sum(rows, val)
    decreases |rows|
  {
    if |rows| > 0 {
      var prefix := rows[..|rows| - 1];
      var s := rows[|rows| - 1];
      var acc := Collect(prefix, key, add);
      CollectTotal(prefix, key, add, val);
      assert rows == prefix + [s];
      SumAppend(prefix, s, val);
      match KeyIndex(acc, key, key(s))
      case Some(i) =>
        SumUpdate(acc, i, add(acc[i], s), val);
      case None =>
        SumAppend(acc, s, val);
    }
  }

  /** Merging already merged rows returns them unchanged, in the same order. */
  lemma MergeIdempotent<R, K>(rows: seq<R>, key: R -> K, add: (R, R) -> R, start: R -> int)
    requires forall a, b :: key(add(a, b)) == key(a)
    ensures Merge(Merge(rows, key, add, start), key, add, start) == Merge(rows, key, add, start)
  {
    var m := Merge(rows, key, add, start);
    CollectUnique(rows, key, add);
    SortUnique(Collect(rows, key, add), start, key);
    CollectUniqueIsIdentity(m, key, add);
    SortSortedIsIdentity(m, start);
  }

  // ---- two keys that group the same rows --------------------------------

  /** Two key functions that agree on which of the given rows match `s`. */
  ghost predicate SameGrouping<R, K1, K2>(rows: seq<R>, key1: R -> K1, key2: R -> K2) {
    forall i, j :: 0 <= i < |rows| && 0 <= j < |rows| ==>
      (key1(rows[i]) == key1(rows[j]) <==> key2(rows[i]) == key2(rows[j]))
  }

  lemma {:induction false} KeyIndexSameGrouping<R, K1, K2>(acc: seq<R>, key1: R -> K1, key2: R -> K2, s: R)
    requires forall j :: 0 <= j < |acc| ==> (key1(acc[j]) == key1(s) <==> key2(acc[j]) == key2(s))
    ensures KeyIndex(acc, key1, key1(s)) == KeyIndex(acc, key2, key2(s))
    decreases |acc|
  {
    if |acc| > 0 {
      KeyIndexSameGrouping(acc[..|acc| - 1], key1, key2, s);
    }
  }

  /**
   * The dictionary pass depends only on which rows share a key: two key
   * functions that group the input rows alike collect the same rows.
   */
  lemma {:induction false} CollectSameGrouping<R, K1, K2>(rows: seq<R>, key1: R -> K1, key2: R -> K2, add: (R, R) -> R)
    requires forall a, b :: key1(add(a, b)) == key1(a) && key2(add(a, b)) == key2(a)
    requires SameGrouping(rows, key1, key2)
    ensures Collect(rows, key1, add) == Collect(rows, key2, add)
    decreases |rows|
  {
    if |rows| > 0 {
      var prefix := rows[..|rows| - 1];
      var s := rows[|rows| - 1];
      assert SameGrouping(prefix, key1, key2) by {
        forall i, j | 0 <= i < |prefix| && 0 <= j < |prefix|
          ensures key1(prefix[i]) == key1(prefix[j]) <==> key2(prefix[i]) == key2(prefix[j])
        {
          assert prefix[i] == rows[i] && prefix[j] == rows[j];
        }
      }
      CollectSameGrouping(prefix, key1, key2, add);
      var acc := Collect(prefix, key1, add);
      CollectKeepsFirst(prefix, key1, add, key2);
      forall j | 0 <= j < |acc| ensures key1(acc[j]) == key1(s) <==> key2(acc[j]) == key2(s) {
        assert acc[j] in acc;
        var f := FirstWith(prefix, key1, key1(acc[j])).value;
        var m :| 0 <= m < |prefix| && prefix[m] == f;
        assert rows[m] == f;
      }
      KeyIndexSameGrouping(acc, key1, key2, s);
    }
  }

  lemma MergeSameGrouping<R, K1, K2>(rows: seq<R>, key1: R -> K1, key2: R -> K2, add: (R, R) -> R, start: R -> int)
    requires forall a, b :: key1(add(a, b)) == key1(a) && key2(add(a, b)) == key2(a)
    requires SameGrouping(rows, key1, key2)
    ensures Merge(rows, key1, add, start) == Merge(rows, key2, add, start)
  {
    CollectSameGrouping(rows, key1, key2, add);
  }
}
