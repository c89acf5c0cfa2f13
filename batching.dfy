/**
 * The batches `upload_table` sends (03_sqlite_to_postgres/load_data.py:113-125): rows are
 * appended to `batch`, the batch is sent each time its length equals `n`, and a non-empty
 * remainder is sent at the end. A batch size below 1 never equals a batch length, so then
 * every row goes out in one final batch.
 *
 * `Batches` is that partition stated directly; the lemmas below say what it is: a partition
 * of the rows in order (`ConcatBatches`), with no empty batch and every batch but the last
 * full (`BatchSizes`), ceil(rows / n) of them (`BatchCount`), and the only such partition
 * (`BatchesUnique`).
 */
module Batching {

  function Batches<T>(rows: seq<T>, n: int): seq<seq<T>>
    decreases |rows|
  {
    if rows == [] then []
    else if n < 1 || |rows| <= n then [rows]
    else [rows[..n]] + Batches(rows[n..], n)
  }

  /** The batches laid end to end. */
  function Concat<T>(bs: seq<seq<T>>): seq<T> {
    if bs == [] then [] else bs[0] + Concat(bs[1..])
  }

  lemma {:induction false} ConcatAppend<T>(a: seq<seq<T>>, b: seq<seq<T>>)
    ensures Concat(a + b) == Concat(a) + Concat(b)
  {
    if a == [] {
      assert a + b == b;
    } else {
      assert (a + b)[1..] == a[1..] + b;
      ConcatAppend(a[1..], b);
    }
  }

  /** Every element of every batch is an element of the batches laid end to end. */
  lemma {:induction false} ConcatHolds<T>(bs: seq<seq<T>>, i: int, k: int)
    requires 0 <= i < |bs| && 0 <= k < |bs[i]|
    ensures bs[i][k] in Concat(bs)
  {
    if i > 0 {
      ConcatHolds(bs[1..], i - 1, k);
    }
  }

  /** Every row is sent exactly once, and in source order. */
  lemma {:induction false} ConcatBatches<T>(rows: seq<T>, n: int)
    ensures Concat(Batches(rows, n)) == rows
    decreases |rows|
  {
    if rows != [] && n >= 1 && |rows| > n {
      ConcatBatches(rows[n..], n);
      assert rows == rows[..n] + rows[n..];
    }
  }

  /** The size bounds of a partition into batches of `n`. */
  ghost predicate WellSized<T>(bs: seq<seq<T>>, n: int) {
    && (forall i :: 0 <= i < |bs| ==> |bs[i]| >= 1)
    && (n >= 1 ==> forall i :: 0 <= i < |bs| ==> |bs[i]| <= n)
    && (n >= 1 ==> forall i :: 0 <= i < |bs| - 1 ==> |bs[i]| == n)
    && (n < 1 ==> |bs| <= 1)
  }

  /**
   * No batch is empty (so an empty table sends nothing and a multiple of `n` sends no
   * trailing empty batch); with `n >= 1` every batch but the last has exactly `n` rows
   * and the last has between 1 and `n`.
   */
  lemma {:induction false} BatchSizes<T>(rows: seq<T>, n: int)
    ensures WellSized(Batches(rows, n), n)
    decreases |rows|
  {
    if rows != [] && n >= 1 && |rows| > n {
      BatchSizes(rows[n..], n);
      var bs := Batches(rows, n);
      assert bs[1..] == Batches(rows[n..], n);
    }
  }

  /** There are ceil(|rows| / n) batches. */
  lemma {:induction false} BatchCount<T>(rows: seq<T>, n: int)
    requires n >= 1
    ensures |Batches(rows, n)| == (|rows| + n - 1) / n
    decreases |rows|
  {
    if rows == [] {
      SmallDiv(n - 1, n, 0);
    } else if |rows| <= n {
      SmallDiv(|rows| + n - 1, n, 1);
    } else {
      BatchCount(rows[n..], n);
      DivStep(|rows[n..]| + n - 1, n);
      assert |Batches(rows, n)| == 1 + |Batches(rows[n..], n)|;
    }
  }

  /** The last batch holds what the full ones before it leave over. */
  lemma LastBatchLength<T>(rows: seq<T>, n: int)
    requires n >= 1 && rows != []
    ensures |Batches(rows, n)| >= 1
    ensures |Batches(rows, n)[|Batches(rows, n)| - 1]| == |rows| - (|Batches(rows, n)| - 1) * n
  {
    var bs := Batches(rows, n);
    ConcatBatches(rows, n);
    BatchSizes(rows, n);
    var m := |bs|;
    assert bs == bs[..m - 1] + [bs[m - 1]];
    ConcatAppend(bs[..m - 1], [bs[m - 1]]);
    assert Concat([bs[m - 1]]) == bs[m - 1] + Concat([]);
    FullLength(bs[..m - 1], n);
  }

  /**
   * A table of `k * n + r` rows, `0 <= r < n`, goes out as `k` full batches followed by one
   * batch of `r` rows, and no further batch when `r == 0`.
   */
  lemma BatchBoundary<T>(rows: seq<T>, n: int, k: nat, r: nat)
    requires n >= 1 && r < n && |rows| == k * n + r
    ensures |Batches(rows, n)| == k + (if r == 0 then 0 else 1)
    ensures forall i :: 0 <= i < k ==> |Batches(rows, n)[i]| == n
    ensures r > 0 ==> |Batches(rows, n)[k]| == r
  {
    var bs := Batches(rows, n);
    BatchCount(rows, n);
    BatchSizes(rows, n);
    DivAddMultiple(r + n - 1, n, k);
    SmallDiv(r + n - 1, n, if r == 0 then 0 else 1);
    assert |bs| == k + (if r == 0 then 0 else 1);
    if rows != [] {
      LastBatchLength(rows, n);
      if r == 0 {
        assert (k - 1) * n == k * n - n;
      }
    }
  }

  lemma MulMonotone(a: int, b: int, n: int)
    requires a <= b && n >= 0
    ensures a * n <= b * n
  {
    assert b * n - a * n == (b - a) * n;
  }

  lemma DivStep(x: int, n: int)
    requires n >= 1 && x >= 0
    ensures (x + n) / n == x / n + 1
  {
    var q, r := x / n, x % n;
    var q', r' := (x + n) / n, (x + n) % n;
    assert x + n == (q + 1) * n + r;
    assert x + n == q' * n + r';
    if q' > q + 1 {
      MulMonotone(q + 2, q', n);
      assert false;
    } else if q' < q + 1 {
      MulMonotone(q', q, n);
      assert false;
    }
  }

  lemma {:induction false} DivAddMultiple(x: int, n: int, k: nat)
    requires n >= 1 && x >= 0
    ensures (k * n + x) / n == k + x / n
  {
    if k > 0 {
      DivAddMultiple(x, n, k - 1);
      assert k * n + x == ((k - 1) * n + x) + n;
      DivStep((k - 1) * n + x, n);
    }
  }

  lemma SmallDiv(x: int, n: int, q: int)
    requires n >= 1 && q * n <= x < (q + 1) * n
    ensures x / n == q
  {
    var q', r' := x / n, x % n;
    assert x == q' * n + r';
    if q' > q {
      MulMonotone(q + 1, q', n);
      assert false;
    } else if q' < q {
      MulMonotone(q' + 1, q, n);
      assert false;
    }
  }

  /** `k` full batches hold `k * n` rows. */
  lemma {:induction false} FullLength<T>(bs: seq<seq<T>>, n: int)
    requires forall i :: 0 <= i < |bs| ==> |bs[i]| == n
    ensures |Concat(bs)| == |bs| * n
  {
    if bs != [] {
      FullLength(bs[1..], n);
    }
  }

  /**
   * `Batches` is the only partition of the rows, in order, into non-empty batches whose
   * every batch but the last is full: what a loop that flushes at `n` produces must be it.
   */
  lemma {:induction false} BatchesUnique<T>(rows: seq<T>, n: int, bs: seq<seq<T>>)
    requires Concat(bs) == rows
    requires WellSized(bs, n)
    ensures bs == Batches(rows, n)
    decreases |bs|
  {
    if bs == [] {
    } else if |bs| == 1 {
      assert rows == bs[0];
    } else {
      assert n >= 1;
      var tail := bs[1..];
      assert WellSized(tail, n);
      assert |Concat(tail)| >= |tail[0]| >= 1 by {
        assert Concat(tail) == tail[0] + Concat(tail[1..]);
      }
      assert rows == bs[0] + Concat(tail);
      assert rows[..n] == bs[0] && rows[n..] == Concat(tail);
      BatchesUnique(rows[n..], n, tail);
    }
  }
}
