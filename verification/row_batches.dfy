/** The shape every batch loop of the three scripts shares: batch `i` turns
    its rows into as many output rows, which agree with the input except in
    the columns the script rewrites, and the loop concatenates the batches'
    outputs in order. The per-batch work is a parameter `w`. */
module RowBatches {
  import opened Table
  import opened Seqs
  import opened Batching

  /** `r` is `row` with at most the columns in `ks` rewritten or added. */
  predicate SameOutside(r: Row, row: Row, ks: set<string>) {
    Without(r, ks) == Without(row, ks)
  }

  /** Rows that agree outside `ks` give the same value under every other key. */
  lemma {:induction false} SameOutsideGet(r: Row, row: Row, ks: set<string>, c: string)
    requires SameOutside(r, row, ks)
    requires c !in ks
    ensures Get(r, c) == Get(row, c)
  {
    GetWithout(r, ks, c);
    GetWithout(row, ks, c);
  }

  /** Row `k` of `rs` is row `k` of `items` with at most the columns in `ks`
      rewritten, for every `k` below `|rs|`. */
  predicate Follows(rs: seq<Row>, items: seq<Row>, ks: set<string>) {
    |rs| <= |items| && forall k {:trigger rs[k], items[k]} :: 0 <= k < |rs| ==> SameOutside(rs[k], items[k], ks)
  }

  /** Appending rows that follow the next input rows keeps the output
      following the input. */
  lemma {:induction false} FollowsAppend(prev: seq<Row>, rows: seq<Row>, items: seq<Row>, ks: set<string>)
    requires Follows(prev, items, ks)
    requires |prev| + |rows| <= |items|
    requires Follows(rows, items[|prev|..|prev| + |rows|], ks)
    ensures Follows(prev + rows, items, ks)
  {
    var start := |prev|;
    var batch := items[start..start + |rows|];
    var all := prev + rows;
    forall k | 0 <= k < |all|
      ensures SameOutside(all[k], items[k], ks)
    {
      if k < start {
        assert all[k] == prev[k];
      } else {
        assert all[k] == rows[k - start];
        assert batch[k - start] == items[k];
      }
    }
  }

  /** Outputs that follow their inputs one for one can be concatenated. */
  lemma {:induction false} FollowsConcat(a: seq<Row>, b: seq<Row>, x: seq<Row>, y: seq<Row>, ks: set<string>)
    requires |a| == |x| && Follows(a, x, ks)
    requires |b| == |y| && Follows(b, y, ks)
    ensures Follows(a + b, x + y, ks)
  {
    forall k | 0 <= k < |a + b|
      ensures SameOutside((a + b)[k], (x + y)[k], ks)
    {
      if k < |a| {
        assert (a + b)[k] == a[k] && (x + y)[k] == x[k];
      } else {
        assert (a + b)[k] == b[k - |a|] && (x + y)[k] == y[k - |a|];
      }
    }
  }

  /** When each batch's output follows that batch one for one, all the
      outputs together follow all the batches together. */
  lemma {:induction false} FollowsFlatten(outs: seq<seq<Row>>, batches: seq<seq<Row>>, ks: set<string>)
    requires |outs| == |batches|
    requires forall i :: 0 <= i < |outs| ==> |outs[i]| == |batches[i]| && Follows(outs[i], batches[i], ks)
    ensures |Flatten(outs)| == |Flatten(batches)|
    ensures Follows(Flatten(outs), Flatten(batches), ks)
    decreases |outs|
  {
    if |outs| > 0 {
      assert forall i :: 0 <= i < |outs| - 1 ==> outs[1..][i] == outs[i + 1] && batches[1..][i] == batches[i + 1];
      FollowsFlatten(outs[1..], batches[1..], ks);
      FollowsConcat(outs[0], Flatten(outs[1..]), batches[0], Flatten(batches[1..]), ks);
    }
  }

  /** `rows`, the output of batch `i`, has one row per input row of that
      batch, each agreeing with its input row outside `ks`. */
  predicate BatchFollows(items: seq<Row>, size: nat, ks: set<string>, rows: seq<Row>, i: nat) {
    |rows| == |IndexBatch(items, size, i)| && Follows(rows, IndexBatch(items, size, i), ks)
  }

  /** The outputs of the first `|outs|` batches cover the first
      `min(|outs| * size, N)` input rows, one for one. */
  predicate CoversPrefix(items: seq<Row>, size: nat, ks: set<string>, outs: seq<seq<Row>>) {
    |Flatten(outs)| == Min(|outs| * size, |items|) && Follows(Flatten(outs), items, ks)
  }

  /** Appending the output of the next batch extends the covered prefix by that batch. */
  lemma {:induction false} CoversPrefixSnoc(items: seq<Row>, size: nat, ks: set<string>, outs: seq<seq<Row>>, rows: seq<Row>)
    requires size > 0
    requires |outs| < NumBatches(|items|, size)
    requires CoversPrefix(items, size, ks, outs)
    requires BatchFollows(items, size, ks, rows, |outs|)
    ensures CoversPrefix(items, size, ks, outs + [rows])
  {
    var n := |outs|;
    FlattenAppend(outs, rows);
    IndexBatchAt(items, size, n);
    var prev := Flatten(outs);
    assert |prev| == n * size;
    assert items[|prev|..|prev| + |rows|] == IndexBatch(items, size, n);
    FollowsAppend(prev, rows, items, ks);
  }

  /** When every batch's output follows its input rows, the concatenated
      output follows the input: the first `n` batches cover exactly the first
      `min(n * size, N)` rows, in order, one for one. */
  lemma {:induction false} ConcatFollows(items: seq<Row>, size: nat, ks: set<string>, outs: seq<seq<Row>>)
    requires size > 0
    requires |outs| <= NumBatches(|items|, size)
    requires forall i :: 0 <= i < |outs| ==> BatchFollows(items, size, ks, outs[i], i)
    ensures |Flatten(outs)| == Min(|outs| * size, |items|)
    ensures Follows(Flatten(outs), items, ks)
    decreases |outs|
  {
    var n := |outs|;
    if n > 0 {
      var init := outs[..n - 1];
      assert forall i :: 0 <= i < n - 1 ==> init[i] == outs[i];
      ConcatFollows(items, size, ks, init);
      assert init + [outs[n - 1]] == outs;
      CoversPrefixSnoc(items, size, ks, init, outs[n - 1]);
    }
  }

  /** Row `i * size + j` of the concatenated output is row `j` of batch `i`'s output. */
  lemma {:induction false} ConcatAt(items: seq<Row>, size: nat, ks: set<string>, outs: seq<seq<Row>>, i: nat, j: nat)
    requires size > 0
    requires i < |outs| <= NumBatches(|items|, size)
    requires forall i :: 0 <= i < |outs| ==> BatchFollows(items, size, ks, outs[i], i)
    requires j < |outs[i]|
    ensures i * size + j < |Flatten(outs)|
    ensures Flatten(outs)[i * size + j] == outs[i][j]
    decreases |outs|
  {
    var n := |outs|;
    var init := outs[..n - 1];
    assert forall k :: 0 <= k < n - 1 ==> init[k] == outs[k];
    assert init + [outs[n - 1]] == outs;
    FlattenAppend(init, outs[n - 1]);
    ConcatFollows(items, size, ks, init);
    IndexBatchAt(items, size, n - 1);
    IndexBatchAt(items, size, i);
    assert BatchFollows(items, size, ks, outs[i], i);
    if i < n - 1 {
      ConcatAt(items, size, ks, init, i, j);
    }
  }
}
