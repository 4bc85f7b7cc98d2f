/** Down-sampling of the MAC_UE table: xapp_analytics/shrink_database.py.

    The query numbers the rows of every bucket by their distance from the bucket's start and keeps
    the rows numbered 1, ordered by time. SQL leaves ties open, so its answer is a relation. */
module Shrink {
  datatype Row = Row(tstamp: int, data: string)

  /** What the cursor returns: the row and its number, the last column. */
  datatype NumberedRow = NumberedRow(row: Row, rn: nat)

  const MS_PER_SECOND := 1000
  const CHUNK_SIZE := 1000

  function MinTime(rows: seq<Row>): (lo: int)
    requires rows != []
    ensures exists i :: 0 <= i < |rows| && rows[i].tstamp == lo
    ensures forall i :: 0 <= i < |rows| ==> lo <= rows[i].tstamp
  {
    if |rows| == 1 then rows[0].tstamp
    else
      var rest := MinTime(rows[1..]);
      assert forall i :: 0 < i < |rows| ==> rows[i] == rows[1..][i - 1];
      if rows[0].tstamp < rest then rows[0].tstamp else rest
  }

  function MaxTime(rows: seq<Row>): (hi: int)
    requires rows != []
    ensures exists i :: 0 <= i < |rows| && rows[i].tstamp == hi
    ensures forall i :: 0 <= i < |rows| ==> rows[i].tstamp <= hi
  {
    if |rows| == 1 then rows[0].tstamp
    else
      var rest := MaxTime(rows[1..]);
      assert forall i :: 0 < i < |rows| ==> rows[i] == rows[1..][i - 1];
      if rows[0].tstamp > rest then rows[0].tstamp else rest
  }

  /** No row precedes the first one, so truncation and flooring agree here. */
  function Bucket(r: Row, lo: int, step: nat): int
    requires step > 0
  {
    (r.tstamp - lo) / step
  }

  predicate SameBucket(r: Row, q: Row, lo: int, step: nat)
    requires step > 0
  {
    Bucket(r, lo, step) == Bucket(q, lo, step)
  }

  /** In q's bucket and not further from its start than q. */
  predicate NotBehind(r: Row, q: Row, lo: int, step: nat)
    requires step > 0
  {
    SameBucket(r, q, lo, step) && Distance(r, lo, step) <= Distance(q, lo, step)
  }

  function Distance(r: Row, lo: int, step: nat): int
    requires step > 0
  {
    var d := r.tstamp - (Bucket(r, lo, step) * step + lo);
    if d < 0 then -d else d
  }

  /** ROW_NUMBER() OVER (PARTITION BY bucket ORDER BY distance): within a bucket the numbers are
      1, 2, 3, ... and follow the distance. */
  ghost predicate RowNumbers(rows: seq<Row>, lo: int, step: nat, rn: seq<nat>)
    requires step > 0
  {
    && |rn| == |rows|
    && (forall i :: 0 <= i < |rows| ==> rn[i] >= 1)
    && (forall i, j :: 0 <= i < |rows| && 0 <= j < |rows| && i != j && SameBucket(rows[i], rows[j], lo, step) ==>
          rn[i] != rn[j])
    && (forall i, j :: 0 <= i < |rows| && 0 <= j < |rows| && rn[i] < rn[j] && SameBucket(rows[i], rows[j], lo, step) ==>
          Distance(rows[i], lo, step) <= Distance(rows[j], lo, step))
    && (forall i, k {:trigger Numbered(rows, lo, step, rn, Bucket(rows[i], lo, step), k)} ::
          0 <= i < |rows| && 1 <= k <= rn[i] ==> Numbered(rows, lo, step, rn, Bucket(rows[i], lo, step), k))
  }

  ghost predicate Numbered(rows: seq<Row>, lo: int, step: nat, rn: seq<nat>, b: int, k: nat)
    requires step > 0
  {
    |rn| == |rows| && exists j :: 0 <= j < |rows| && Bucket(rows[j], lo, step) == b && rn[j] == k
  }

  /** SELECT ... WHERE rn = 1 ORDER BY tstamp; `order` holds the positions of the selected rows. */
  ghost predicate Answers(rows: seq<Row>, rn: seq<nat>, order: seq<nat>, out: seq<Row>) {
    && |rn| == |rows| && |out| == |order|
    && (forall k :: 0 <= k < |order| ==> order[k] < |rows| && rn[order[k]] == 1 && out[k] == rows[order[k]])
    && (forall k, m :: 0 <= k < m < |order| ==> order[k] != order[m])
    && (forall i :: 0 <= i < |rows| && rn[i] == 1 ==> i in order)
    && (forall k, m :: 0 <= k < m < |out| ==> out[k].tstamp <= out[m].tstamp)
  }

  ghost predicate Selected(rows: seq<Row>, step: nat, out: seq<Row>)
    requires step > 0 && rows != []
  {
    exists rn, order :: RowNumbers(rows, MinTime(rows), step, rn) && Answers(rows, rn, order, out)
  }

  // ---- What is selected ----

  /** An earliest row of every non-empty bucket, once, in time order. */
  ghost predicate OnePerBucket(rows: seq<Row>, lo: int, step: nat, out: seq<Row>)
    requires step > 0
  {
    && (forall k, m :: 0 <= k < m < |out| ==>
          out[k].tstamp < out[m].tstamp && Bucket(out[k], lo, step) < Bucket(out[m], lo, step))
    && (forall k :: 0 <= k < |out| ==> out[k] in rows)
    && (forall k, r :: 0 <= k < |out| && r in rows && Bucket(r, lo, step) == Bucket(out[k], lo, step) ==>
          out[k].tstamp <= r.tstamp)
    && (forall r {:trigger Represented(r, lo, step, out)} :: r in rows ==> Represented(r, lo, step, out))
  }

  predicate Represented(r: Row, lo: int, step: nat, out: seq<Row>)
    requires step > 0
  {
    exists k :: 0 <= k < |out| && Bucket(out[k], lo, step) == Bucket(r, lo, step)
  }

  lemma {:induction false} BucketBounds(t: int, step: nat)
    requires step > 0
    ensures (t / step) * step <= t < (t / step) * step + step
  {
  }

  lemma BucketIsMonotone(r: Row, q: Row, lo: int, step: nat)
    requires step > 0 && r.tstamp <= q.tstamp
    ensures Bucket(r, lo, step) <= Bucket(q, lo, step)
  {
    var x, y := r.tstamp - lo, q.tstamp - lo;
    BucketBounds(x, step);
    BucketBounds(y, step);
    var a, b := x / step, y / step;
    if a > b {
      Product(a, b + 1, step);
    }
  }

  lemma Product(a: int, b: int, step: nat)
    requires a >= b
    ensures a * step >= b * step
  {
  }

  /** Distance from the start of the bucket orders the rows of a bucket by time. */
  lemma DistanceIsTime(r: Row, q: Row, lo: int, step: nat)
    requires step > 0 && Bucket(r, lo, step) == Bucket(q, lo, step)
    ensures Distance(r, lo, step) <= Distance(q, lo, step) <==> r.tstamp <= q.tstamp
  {
    BucketBounds(r.tstamp - lo, step);
    BucketBounds(q.tstamp - lo, step);
  }

  lemma FirstIsEarliest(rows: seq<Row>, lo: int, step: nat, rn: seq<nat>, i: nat, j: nat)
    requires step > 0 && RowNumbers(rows, lo, step, rn) && i < |rows| && j < |rows| && rn[i] == 1
    requires SameBucket(rows[i], rows[j], lo, step)
    ensures rows[i].tstamp <= rows[j].tstamp
  {
    if i != j {
      assert rn[i] < rn[j];
      DistanceIsTime(rows[i], rows[j], lo, step);
    }
  }

  lemma SelectedAscends(rows: seq<Row>, lo: int, step: nat, rn: seq<nat>, order: seq<nat>, out: seq<Row>,
                        k: nat, m: nat)
    requires step > 0 && RowNumbers(rows, lo, step, rn) && Answers(rows, rn, order, out) && k < m < |out|
    ensures out[k].tstamp < out[m].tstamp && Bucket(out[k], lo, step) < Bucket(out[m], lo, step)
  {
    assert out[k].tstamp <= out[m].tstamp;
    BucketIsMonotone(out[k], out[m], lo, step);
    assert order[k] != order[m];
    assert rn[order[k]] == rn[order[m]] == 1;
  }

  lemma EveryBucketIsSelected(rows: seq<Row>, lo: int, step: nat, rn: seq<nat>, order: seq<nat>, out: seq<Row>, r: Row)
    requires step > 0 && RowNumbers(rows, lo, step, rn) && Answers(rows, rn, order, out) && r in rows
    ensures Represented(r, lo, step, out)
  {
    var i :| 0 <= i < |rows| && rows[i] == r;
    assert Numbered(rows, lo, step, rn, Bucket(rows[i], lo, step), 1);
    var j :| 0 <= j < |rows| && Bucket(rows[j], lo, step) == Bucket(r, lo, step) && rn[j] == 1;
    var k :| 0 <= k < |order| && order[k] == j;
    assert out[k] == rows[j];
  }

  lemma SelectedIsOnePerBucket(rows: seq<Row>, step: nat, out: seq<Row>)
    requires step > 0 && rows != [] && Selected(rows, step, out)
    ensures OnePerBucket(rows, MinTime(rows), step, out)
  {
    var lo := MinTime(rows);
    var rn, order :| RowNumbers(rows, lo, step, rn) && Answers(rows, rn, order, out);
    forall k, m | 0 <= k < m < |out|
      ensures out[k].tstamp < out[m].tstamp && Bucket(out[k], lo, step) < Bucket(out[m], lo, step)
    {
      SelectedAscends(rows, lo, step, rn, order, out, k, m);
    }
    forall k, r | 0 <= k < |out| && r in rows && Bucket(r, lo, step) == Bucket(out[k], lo, step)
      ensures out[k].tstamp <= r.tstamp
    {
      var j :| 0 <= j < |rows| && rows[j] == r;
      FirstIsEarliest(rows, lo, step, rn, order[k], j);
    }
    forall r | r in rows ensures Represented(r, lo, step, out) {
      EveryBucketIsSelected(rows, lo, step, rn, order, out, r);
    }
  }

  lemma {:induction false} AscendingBuckets(out: seq<Row>, lo: int, step: nat, k: nat)
    requires step > 0 && k < |out|
    requires forall i, j :: 0 <= i < j < |out| ==> Bucket(out[i], lo, step) < Bucket(out[j], lo, step)
    requires lo <= out[0].tstamp
    ensures Bucket(out[k], lo, step) >= k
  {
    if k == 0 {
      BucketBounds(out[0].tstamp - lo, step);
    } else {
      AscendingBuckets(out, lo, step, k - 1);
    }
  }

  /** At most one row per step of the time range. */
  lemma SelectionIsSmall(rows: seq<Row>, step: nat, out: seq<Row>)
    requires step > 0 && rows != [] && Selected(rows, step, out)
    ensures 0 < |out| <= (MaxTime(rows) - MinTime(rows)) / step + 1
  {
    SelectedIsOnePerBucket(rows, step, out);
    OnePerBucketIsSmall(rows, MinTime(rows), MaxTime(rows), step, out);
  }

  lemma OnePerBucketIsSmall(rows: seq<Row>, lo: int, hi: int, step: nat, out: seq<Row>)
    requires step > 0 && rows != [] && OnePerBucket(rows, lo, step, out)
    requires forall i :: 0 <= i < |rows| ==> lo <= rows[i].tstamp <= hi
    ensures 0 < |out| <= (hi - lo) / step + 1
  {
    assert Represented(rows[0], lo, step, out);
    var last := out[|out| - 1];
    assert out[0] in rows && last in rows;
    AscendingBuckets(out, lo, step, |out| - 1);
    BucketIsMonotone(last, Row(hi, ""), lo, step);
  }

  /** Never more rows than there were. */
  lemma NotMoreThanRows(rows: seq<Row>, step: nat, out: seq<Row>)
    requires step > 0 && rows != [] && Selected(rows, step, out)
    ensures |out| <= |rows|
  {
    var rn, order :| RowNumbers(rows, MinTime(rows), step, rn) && Answers(rows, rn, order, out);
    DistinctPositions(order, |rows|);
  }

  lemma {:induction false} DistinctPositions(order: seq<nat>, n: nat)
    requires forall k :: 0 <= k < |order| ==> order[k] < n
    requires forall k, m :: 0 <= k < m < |order| ==> order[k] != order[m]
    ensures |order| <= n
  {
    if order == [] {
    } else if n - 1 in order {
      var k :| 0 <= k < |order| && order[k] == n - 1;
      var rest := order[..k] + order[k + 1..];
      forall a | 0 <= a < |rest| ensures rest[a] == order[if a < k then a else a + 1] {}
      DistinctPositions(rest, n - 1);
    } else {
      assert order[0] < n;
      DistinctPositions(order, n - 1);
    }
  }

  // ---- The buckets on the time axis ----

  /** Bucket b covers the step from lo + b * step on. */
  predicate InInterval(r: Row, lo: int, step: nat, b: int) {
    lo + b * step <= r.tstamp < lo + (b + 1) * step
  }

  lemma BucketIsInterval(r: Row, lo: int, step: nat, b: int)
    requires step > 0
    ensures InInterval(r, lo, step, b) <==> Bucket(r, lo, step) == b
  {
    var x := r.tstamp - lo;
    var q := x / step;
    BucketBounds(x, step);
    NextMultiple(q, step);
    NextMultiple(b, step);
    if q < b {
      Product(b, q + 1, step);
    } else if b < q {
      Product(q, b + 1, step);
    }
  }

  lemma NextMultiple(b: int, step: nat)
    ensures (b + 1) * step == b * step + step
  {
  }

  /** On the time axis: of every step-long interval counted from the first time stamp, a row is selected
      exactly when it holds a row. */
  lemma SelectionByIntervals(rows: seq<Row>, step: nat, out: seq<Row>, b: int)
    requires step > 0 && rows != [] && Selected(rows, step, out)
    ensures (exists r :: r in rows && InInterval(r, MinTime(rows), step, b))
            <==> (exists r :: r in out && InInterval(r, MinTime(rows), step, b))
  {
    SelectedIsOnePerBucket(rows, step, out);
    if r :| r in rows && InInterval(r, MinTime(rows), step, b) {
      IntervalIsRepresented(rows, MinTime(rows), step, out, b, r);
    }
  }

  lemma IntervalIsRepresented(rows: seq<Row>, lo: int, step: nat, out: seq<Row>, b: int, r: Row)
    requires step > 0 && OnePerBucket(rows, lo, step, out) && r in rows && InInterval(r, lo, step, b)
    ensures exists q :: q in out && InInterval(q, lo, step, b)
  {
    assert Represented(r, lo, step, out);
    var k :| 0 <= k < |out| && Bucket(out[k], lo, step) == Bucket(r, lo, step);
    BucketIsInterval(r, lo, step, b);
    BucketIsInterval(out[k], lo, step, b);
    assert out[k] in out;
  }

  /** The selected row of an interval is the only one, and an earliest row of the interval. */
  lemma SelectedOfInterval(rows: seq<Row>, step: nat, out: seq<Row>, b: int, k: nat, m: nat, r: Row)
    requires step > 0 && rows != [] && Selected(rows, step, out) && k < |out| && m < |out| && r in rows
    requires InInterval(out[k], MinTime(rows), step, b) && InInterval(out[m], MinTime(rows), step, b)
    requires InInterval(r, MinTime(rows), step, b)
    ensures k == m && out[k].tstamp <= r.tstamp
  {
    SelectedIsOnePerBucket(rows, step, out);
    BucketIsInterval(out[k], MinTime(rows), step, b);
    BucketIsInterval(out[m], MinTime(rows), step, b);
    BucketIsInterval(r, MinTime(rows), step, b);
    assert k == m;
  }

  // ---- Shrinking twice ----

  predicate Ascending(a: seq<Row>) {
    forall k, m :: 0 <= k < m < |a| ==> a[k].tstamp < a[m].tstamp
  }

  lemma TailOfAscending(a: seq<Row>, r: Row)
    requires a != [] && Ascending(a)
    ensures r in a[1..] <==> r in a && r != a[0]
  {
    if r in a[1..] {
      var k :| 0 <= k < |a[1..]| && a[1..][k] == r;
      assert a[0].tstamp < a[k + 1].tstamp;
    }
  }

  lemma {:induction false} SameAscendingRows(a: seq<Row>, b: seq<Row>)
    requires Ascending(a) && Ascending(b)
    requires forall r :: r in a <==> r in b
    ensures a == b
  {
    if b != [] { assert b[0] in b; }
    if a != [] {
      assert a[0] in a && a[0] in b;
      assert b[0] in b && b[0] in a;
      var i :| 0 <= i < |a| && a[i] == b[0];
      var j :| 0 <= j < |b| && b[j] == a[0];
      assert i == 0 && j == 0;
      forall r ensures r in a[1..] <==> r in b[1..] {
        TailOfAscending(a, r);
        TailOfAscending(b, r);
      }
      SameAscendingRows(a[1..], b[1..]);
      assert a == [a[0]] + a[1..] && b == [b[0]] + b[1..];
    }
  }

  lemma MinOfSelection(rows: seq<Row>, out: seq<Row>)
    requires rows != [] && forall k :: 0 <= k < |out| ==> out[k] in rows
    requires exists k :: 0 <= k < |out| && out[k].tstamp <= MinTime(rows)
    ensures out != [] && MinTime(out) == MinTime(rows)
  {
  }

  lemma FirstRowSurvives(rows: seq<Row>, step: nat, out: seq<Row>)
    requires step > 0 && rows != [] && OnePerBucket(rows, MinTime(rows), step, out)
    ensures out != [] && MinTime(out) == MinTime(rows)
  {
    var i :| 0 <= i < |rows| && rows[i].tstamp == MinTime(rows);
    EarliestOfItsBucket(rows, MinTime(rows), step, out, rows[i]);
    MinOfSelection(rows, out);
  }

  lemma EarliestOfItsBucket(rows: seq<Row>, lo: int, step: nat, out: seq<Row>, r: Row)
    requires step > 0 && OnePerBucket(rows, lo, step, out) && r in rows
    ensures exists k :: 0 <= k < |out| && SameBucket(out[k], r, lo, step) && out[k].tstamp <= r.tstamp
  {
    assert Represented(r, lo, step, out);
    var k :| 0 <= k < |out| && Bucket(out[k], lo, step) == Bucket(r, lo, step);
    assert SameBucket(out[k], r, lo, step);
  }

  /** Every row of a selection is the only one of its bucket, so a selection from it keeps it. */
  lemma SelectionKeepsLoneRow(out: seq<Row>, again: seq<Row>, lo: int, step: nat, i: nat)
    requires step > 0 && i < |out| && OnePerBucket(out, lo, step, again)
    requires forall k, m :: 0 <= k < m < |out| ==> Bucket(out[k], lo, step) < Bucket(out[m], lo, step)
    ensures out[i] in again
  {
    assert out[i] in out;
    EarliestOfItsBucket(out, lo, step, again, out[i]);
    var k :| 0 <= k < |again| && SameBucket(again[k], out[i], lo, step);
    assert again[k] in out;
    var j :| 0 <= j < |out| && out[j] == again[k];
    assert i == j;
  }

  /** A shrunk table shrunk again with the same step is the same table. */
  lemma ShrinkingIsIdempotent(rows: seq<Row>, step: nat, out: seq<Row>, again: seq<Row>)
    requires step > 0 && rows != [] && Selected(rows, step, out)
    requires out != [] && Selected(out, step, again)
    ensures again == out
  {
    SelectedIsOnePerBucket(rows, step, out);
    SelectedIsOnePerBucket(out, step, again);
    FirstRowSurvives(rows, step, out);
    forall i | 0 <= i < |out| ensures out[i] in again {
      SelectionKeepsLoneRow(out, again, MinTime(rows), step, i);
    }
    SameAscendingRows(again, out);
  }

  // ---- The query has an answer ----

  /** Where the next row goes among the numbers of its bucket: behind the rows not further away. */
  lemma {:induction false} NumberFor(rows: seq<Row>, lo: int, step: nat, rn: seq<nat>, r: Row, n: nat) returns (p: nat)
    requires step > 0 && |rn| == |rows| && n <= |rows|
    ensures p == 0 || exists j :: 0 <= j < n && NotBehind(rows[j], r, lo, step) && rn[j] == p
    ensures forall j :: 0 <= j < n && NotBehind(rows[j], r, lo, step) ==> rn[j] <= p
  {
    if n == 0 {
      return 0;
    }
    p := NumberFor(rows, lo, step, rn, r, n - 1);
    var j := n - 1;
    if NotBehind(rows[j], r, lo, step) && rn[j] > p {
      p := rn[j];
    }
  }

  /** The numbers after a row has been put in at number p of bucket b. */
  function Shifted(rows: seq<Row>, lo: int, step: nat, rn: seq<nat>, b: int, p: nat): (r: seq<nat>)
    requires step > 0 && |rn| == |rows|
    ensures |r| == |rn|
  {
    seq(|rn|, i requires 0 <= i < |rn| => if Bucket(rows[i], lo, step) == b && rn[i] >= p then rn[i] + 1 else rn[i])
  }

  lemma ShiftedNumbers(rows: seq<Row>, lo: int, step: nat, rn: seq<nat>, r: Row, p: nat)
    requires step > 0 && RowNumbers(rows, lo, step, rn)
    requires p == 0 || exists j :: 0 <= j < |rows| && NotBehind(rows[j], r, lo, step) && rn[j] == p
    requires forall j :: 0 <= j < |rows| && NotBehind(rows[j], r, lo, step) ==> rn[j] <= p
    ensures RowNumbers(rows + [r], lo, step, Shifted(rows, lo, step, rn, Bucket(r, lo, step), p + 1) + [p + 1])
  {
    var b := Bucket(r, lo, step);
    var rows', rn' := rows + [r], Shifted(rows, lo, step, rn, b, p + 1) + [p + 1];
    forall i | 0 <= i < |rows| && Bucket(rows[i], lo, step) == b && rn[i] <= p
      ensures Distance(rows[i], lo, step) <= Distance(r, lo, step) {}
    forall i, k | 0 <= i < |rows'| && 1 <= k <= rn'[i]
      ensures Numbered(rows', lo, step, rn', Bucket(rows'[i], lo, step), k)
    {
      StillNumbered(rows, lo, step, rn, r, p, i, k);
    }
  }

  lemma StillNumbered(rows: seq<Row>, lo: int, step: nat, rn: seq<nat>, r: Row, p: nat, i: nat, k: nat)
    requires step > 0 && RowNumbers(rows, lo, step, rn) && i <= |rows| && k >= 1
    requires p == 0 || exists j :: 0 <= j < |rows| && SameBucket(rows[j], r, lo, step) && rn[j] == p
    requires k <= (Shifted(rows, lo, step, rn, Bucket(r, lo, step), p + 1) + [p + 1])[i]
    ensures Numbered(rows + [r], lo, step, Shifted(rows, lo, step, rn, Bucket(r, lo, step), p + 1) + [p + 1],
                     Bucket((rows + [r])[i], lo, step), k)
  {
    var b := Bucket(r, lo, step);
    var rows', rn' := rows + [r], Shifted(rows, lo, step, rn, b, p + 1) + [p + 1];
    var c := Bucket(rows'[i], lo, step);
    if c == b && k == p + 1 {
      assert rn'[|rows|] == k && rows'[|rows|] == r;
    } else {
      var was := if c == b && k > p + 1 then k - 1 else k;
      if i < |rows| && was <= rn[i] {
        assert Numbered(rows, lo, step, rn, Bucket(rows[i], lo, step), was);
      } else {
        var m :| 0 <= m < |rows| && Bucket(rows[m], lo, step) == b && rn[m] == p;
        assert Numbered(rows, lo, step, rn, Bucket(rows[m], lo, step), was);
      }
      var j :| 0 <= j < |rows| && Bucket(rows[j], lo, step) == c && rn[j] == was;
      assert rows'[j] == rows[j] && rn'[j] == k;
    }
  }

  lemma {:induction false} NumberingExists(rows: seq<Row>, lo: int, step: nat) returns (rn: seq<nat>)
    requires step > 0
    ensures RowNumbers(rows, lo, step, rn)
  {
    if rows == [] {
      rn := [];
    } else {
      var front, r := rows[..|rows| - 1], rows[|rows| - 1];
      assert rows == front + [r];
      var before := NumberingExists(front, lo, step);
      var p := NumberFor(front, lo, step, before, r, |front|);
      ShiftedNumbers(front, lo, step, before, r, p);
      rn := Shifted(front, lo, step, before, Bucket(r, lo, step), p + 1) + [p + 1];
    }
  }

  /** The positions below n numbered 1, ordered by time. */
  ghost predicate Ordered(rows: seq<Row>, rn: seq<nat>, n: nat, order: seq<nat>) {
    && |rn| == |rows| && n <= |rows|
    && (forall k :: 0 <= k < |order| ==> order[k] < n && rn[order[k]] == 1)
    && (forall k, m :: 0 <= k < m < |order| ==> order[k] != order[m])
    && (forall i :: 0 <= i < n && rn[i] == 1 ==> i in order)
    && (forall k, m :: 0 <= k < m < |order| ==> rows[order[k]].tstamp <= rows[order[m]].tstamp)
  }

  lemma {:induction false} PlaceByTime(rows: seq<Row>, order: seq<nat>, t: int) returns (k: nat)
    requires forall a :: 0 <= a < |order| ==> order[a] < |rows|
    requires forall a, b :: 0 <= a < b < |order| ==> rows[order[a]].tstamp <= rows[order[b]].tstamp
    ensures k <= |order|
    ensures forall a :: 0 <= a < k ==> rows[order[a]].tstamp <= t
    ensures forall a :: k <= a < |order| ==> t <= rows[order[a]].tstamp
    decreases |order|
  {
    if order == [] || rows[order[|order| - 1]].tstamp <= t {
      k := |order|;
    } else {
      k := PlaceByTime(rows, order[..|order| - 1], t);
    }
  }

  /** Inserting keeps a sequence of positions distinct and ordered by time. */
  lemma InsertInOrder(rows: seq<Row>, n: nat, order: seq<nat>, k: nat)
    requires n < |rows| && k <= |order| && forall a :: 0 <= a < |order| ==> order[a] < n
    requires forall a, b :: 0 <= a < b < |order| ==>
               order[a] != order[b] && rows[order[a]].tstamp <= rows[order[b]].tstamp
    requires forall a :: 0 <= a < k ==> rows[order[a]].tstamp <= rows[n].tstamp
    requires forall a :: k <= a < |order| ==> rows[n].tstamp <= rows[order[a]].tstamp
    ensures var order' := order[..k] + [n] + order[k..];
            forall a, b :: 0 <= a < b < |order'| ==>
              order'[a] < |rows| && order'[b] < |rows| && order'[a] != order'[b]
              && rows[order'[a]].tstamp <= rows[order'[b]].tstamp
  {
    var order' := order[..k] + [n] + order[k..];
    forall a, b | 0 <= a < b < |order'|
      ensures order'[a] < |rows| && order'[b] < |rows| && order'[a] != order'[b]
      ensures rows[order'[a]].tstamp <= rows[order'[b]].tstamp
    {
      if b < k {
        assert order'[a] == order[a] && order'[b] == order[b];
      } else if b == k {
        assert order'[a] == order[a] && order'[b] == n;
      } else if a < k {
        assert order'[a] == order[a] && order'[b] == order[b - 1];
      } else if a == k {
        assert order'[a] == n && order'[b] == order[b - 1];
      } else {
        assert order'[a] == order[a - 1] && order'[b] == order[b - 1];
      }
    }
  }

  lemma InsertCovers(order: seq<nat>, k: nat, n: nat, x: nat)
    requires k <= |order|
    ensures x in order[..k] + [n] + order[k..] <==> x in order || x == n
  {
    assert order == order[..k] + order[k..];
  }

  lemma OrderGrows(rows: seq<Row>, rn: seq<nat>, n: nat, order: seq<nat>, k: nat)
    requires Ordered(rows, rn, n, order) && n < |rows| && rn[n] == 1 && k <= |order|
    requires forall a :: 0 <= a < k ==> rows[order[a]].tstamp <= rows[n].tstamp
    requires forall a :: k <= a < |order| ==> rows[n].tstamp <= rows[order[a]].tstamp
    ensures Ordered(rows, rn, n + 1, order[..k] + [n] + order[k..])
  {
    var order' := order[..k] + [n] + order[k..];
    InsertInOrder(rows, n, order, k);
    forall a | 0 <= a < |order'| ensures order'[a] < n + 1 && rn[order'[a]] == 1 {
      InsertCovers(order, k, n, order'[a]);
    }
    forall i | 0 <= i < n + 1 && rn[i] == 1 ensures i in order' {
      InsertCovers(order, k, n, i);
    }
  }

  lemma {:induction false} OrderExists(rows: seq<Row>, rn: seq<nat>, n: nat) returns (order: seq<nat>)
    requires |rn| == |rows| && n <= |rows|
    ensures Ordered(rows, rn, n, order)
  {
    if n == 0 {
      order := [];
    } else {
      var before := OrderExists(rows, rn, n - 1);
      if rn[n - 1] == 1 {
        var k := PlaceByTime(rows, before, rows[n - 1].tstamp);
        OrderGrows(rows, rn, n - 1, before, k);
        order := before[..k] + [n - 1] + before[k..];
      } else {
        order := before;
      }
    }
  }

  /** Every table with rows has a selection, so the statements above speak of something. */
  lemma SelectionExists(rows: seq<Row>, step: nat) returns (out: seq<Row>)
    requires step > 0 && rows != []
    ensures Selected(rows, step, out)
  {
    var rn := NumberingExists(rows, MinTime(rows), step);
    var order := OrderExists(rows, rn, |rows|);
    out := seq(|order|, k requires 0 <= k < |order| => rows[order[k]]);
    assert Answers(rows, rn, order, out);
  }

  // ---- The copy ----

  function Rows(answer: seq<NumberedRow>): (rows: seq<Row>)
    ensures |rows| == |answer| && forall i :: 0 <= i < |answer| ==> rows[i] == answer[i].row
  {
    seq(|answer|, i requires 0 <= i < |answer| => answer[i].row)
  }

  /** fetchmany and executemany: chunk by chunk nothing is lost, repeated or reordered. */
  method CopyInChunks(answer: seq<NumberedRow>) returns (target: seq<Row>, totalRows: nat)
    ensures target == Rows(answer) && totalRows == |answer|
  {
    target, totalRows := [], 0;
    var cursor := 0;
    while true
      invariant totalRows == cursor <= |answer| && target == Rows(answer[..cursor])
      decreases |answer| - cursor
    {
      var next := if |answer| - cursor < CHUNK_SIZE then |answer| else cursor + CHUNK_SIZE;
      var rows := answer[cursor..next];
      if rows == [] {
        break;
      }
      target := target + Rows(rows);
      assert answer[..next] == answer[..cursor] + rows;
      totalRows := totalRows + |rows|;
      cursor := next;
    }
    assert answer[..cursor] == answer;
  }

  function Magnitude(step: int): nat {
    if step < 0 then -step else step
  }

  /** SQL's division truncates towards zero. */
  function SqlBucket(r: Row, lo: int, step: int): int
    requires step != 0 && lo <= r.tstamp
  {
    if step > 0 then (r.tstamp - lo) / step else -((r.tstamp - lo) / -step)
  }

  function SqlDistance(r: Row, lo: int, step: int): int
    requires step != 0 && lo <= r.tstamp
  {
    var d := r.tstamp - (SqlBucket(r, lo, step) * step + lo);
    if d < 0 then -d else d
  }

  /** A negative step makes the same buckets, numbered downwards, with the same distances. */
  lemma NegativeStepSameBuckets(r: Row, q: Row, lo: int, step: int)
    requires step != 0 && lo <= r.tstamp && lo <= q.tstamp
    ensures SqlBucket(r, lo, step) == SqlBucket(q, lo, step) <==> SameBucket(r, q, lo, Magnitude(step))
    ensures SqlDistance(r, lo, step) == Distance(r, lo, Magnitude(step))
  {
    var b := Bucket(r, lo, Magnitude(step));
    assert SqlBucket(r, lo, step) * step == b * Magnitude(step) by {
      if step < 0 { NegatedFactors(b, step); }
    }
  }

  lemma NegatedFactors(b: int, step: int)
    ensures (-b) * step == b * -step
  {
  }

  /** The query's answers for any step in milliseconds. Division by zero is NULL in SQL: with step 0
      all rows share one bucket and one distance, and one row remains, whichever it is. */
  ghost predicate QueryAnswers(rows: seq<Row>, step: int, out: seq<Row>)
    requires rows != []
  {
    if step == 0 then |out| == 1 && out[0] in rows else Selected(rows, Magnitude(step), out)
  }

  datatype Outcome = Shrunk(target: seq<Row>) | SqlError

  /** The whole tool, for any time step in seconds. `answer` is what the database answers to the query;
      an empty table has no minimum, and the query built from it is rejected. */
  method ShrinkDatabase(source: seq<Row>, timeStep: int, answer: seq<NumberedRow>) returns (r: Outcome)
    requires source != [] ==> QueryAnswers(source, timeStep * MS_PER_SECOND, Rows(answer))
    ensures r.SqlError? <==> source == []
    ensures r.Shrunk? && timeStep != 0 ==>
              OnePerBucket(source, MinTime(source), Magnitude(timeStep * MS_PER_SECOND), r.target)
    ensures r.Shrunk? && timeStep == 0 ==> |r.target| == 1 && r.target[0] in source
    ensures r.Shrunk? && timeStep > 0 ==> OnePerBucket(source, MinTime(source), 1000 * timeStep, r.target)
    ensures r.Shrunk? ==> r.target == Rows(answer)
  {
    if source == [] {
      return SqlError;
    }
    if timeStep != 0 {
      SelectedIsOnePerBucket(source, Magnitude(timeStep * MS_PER_SECOND), Rows(answer));
    }
    var target, total := CopyInChunks(answer);
    r := Shrunk(target);
  }
}
