/** Splitting the row list into contiguous fixed-size batches, the unit of
    one model call, one failure and one output flush. The lore corrector
    computes the batch count and slices by index; the 5e and OSR scripts use
    a list comprehension over `range(0, len(items), batch_size)`. Both are
    modelled and shown to produce the same batches. */
module Batching {
  import opened Seqs

  function Min(a: int, b: int): int {
    if a <= b then a else b
  }

  /** Python's `s[lo:hi]` for non-negative bounds: both ends are clamped to
      the length, and an empty range gives the empty sequence. */
  function Slice<T>(s: seq<T>, lo: nat, hi: nat): (r: seq<T>)
    ensures lo < |s| && lo <= hi ==> r == s[lo..Min(hi, |s|)]
    ensures lo >= |s| || hi <= lo ==> r == []
  {
    var a := Min(lo, |s|);
    var b := Min(hi, |s|);
    if a <= b then s[a..b] else []
  }

  /** `(total_items + batch_size - 1) // batch_size`: the least number of
      batches of `size` rows that hold `n` rows, that is, the ceiling of n / size. */
  function NumBatches(n: nat, size: nat): (k: nat)
    requires size > 0
    ensures k * size >= n
    ensures k == 0 || (k - 1) * size < n
  {
    var q := (n + size - 1) / size;
    var m := (n + size - 1) % size;
    assert q * size + m == n + size - 1;
    assert q * size - size == (q - 1) * size;
    q
  }

  /** At most one batch count meets the two bounds of `NumBatches`. */
  lemma {:induction false} NumBatchesUnique(n: nat, size: nat, k: nat)
    requires size > 0
    requires k * size >= n && (k == 0 || (k - 1) * size < n)
    ensures k == NumBatches(n, size)
  {
    var c := NumBatches(n, size);
    if k < c {
      assert k <= c - 1;
      assert k * size <= (c - 1) * size by { MulMonotone(k, c - 1, size); }
    } else if k > c {
      assert c <= k - 1;
      assert c * size <= (k - 1) * size by { MulMonotone(c, k - 1, size); }
    }
  }

  lemma {:induction false} MulMonotone(a: int, b: int, size: nat)
    requires a <= b
    ensures a * size <= b * size
  {
  }

  lemma {:induction false} MulSucc(c: int, size: int)
    ensures (c + 1) * size == c * size + size
  {
  }

  /** Quotient and remainder are determined by `n == q * d + r` with `0 <= r < d`. */
  lemma {:induction false} DivModUnique(n: int, d: int, q: int, r: int)
    requires d > 0 && 0 <= r < d && n == q * d + r
    ensures n / d == q && n % d == r
  {
    var q' := n / d;
    var r' := n % d;
    assert n == q' * d + r';
    if q' > q {
      MulMonotone(q + 1, q', d);
      MulSucc(q, d);
    } else if q' < q {
      MulMonotone(q' + 1, q, d);
      MulSucc(q', d);
    }
  }

  /** `[items[i:i + batch_size] for i in range(0, len(items), batch_size)]`:
      each batch is the next `size` rows, or the remaining ones. */
  function Chunks<T>(items: seq<T>, size: nat): (bs: seq<seq<T>>)
    requires size > 0
    ensures forall b :: 0 <= b < |bs| ==> 0 < |bs[b]| <= size
    decreases |items|
  {
    if |items| == 0 then []
    else
      var k := Min(size, |items|);
      [items[..k]] + Chunks(items[k..], size)
  }

  /** The batches cover every row exactly once and in order; none is empty,
      none exceeds `size`, and only the last may be short. */
  lemma {:induction false} ChunksCover<T>(items: seq<T>, size: nat)
    requires size > 0
    ensures Flatten(Chunks(items, size)) == items
    ensures forall i :: 0 <= i < |Chunks(items, size)| ==> 0 < |Chunks(items, size)[i]| <= size
    ensures forall i :: 0 <= i < |Chunks(items, size)| - 1 ==> |Chunks(items, size)[i]| == size
    decreases |items|
  {
    if |items| > 0 {
      var k := Min(size, |items|);
      var rest := Chunks(items[k..], size);
      ChunksCover(items[k..], size);
      var bs := [items[..k]] + rest;
      assert Chunks(items, size) == bs;
      assert bs[1..] == rest;
      assert items == items[..k] + items[k..];
      assert forall i :: 1 <= i < |bs| ==> bs[i] == rest[i - 1];
      assert |rest| > 0 ==> k == size;
    }
  }

  /** There are ceil(N / B) batches. */
  lemma {:induction false} ChunksCount<T>(items: seq<T>, size: nat)
    requires size > 0
    ensures |Chunks(items, size)| == NumBatches(|items|, size)
    decreases |items|
  {
    var n := |items|;
    if n == 0 {
      NumBatchesUnique(0, size, 0);
    } else {
      var k := Min(size, n);
      ChunksCount(items[k..], size);
      var c := NumBatches(n - k, size);
      assert |Chunks(items, size)| == c + 1;
      if n <= size {
        assert c == 0 by {
          NumBatchesUnique(0, size, 0);
        }
        NumBatchesUnique(n, size, 1);
      } else {
        MulSucc(c, size);
        if c > 0 {
          MulSucc(c - 1, size);
        }
        NumBatchesUnique(n, size, c + 1);
      }
    }
  }

  /** `i * size` as repeated addition, which keeps the batch proofs linear. */
  function Offset(i: nat, size: nat): nat
  {
    if i == 0 then 0 else Offset(i - 1, size) + size
  }

  lemma {:induction false} OffsetIsProduct(i: nat, size: nat)
    ensures Offset(i, size) == i * size
  {
    if i > 0 {
      OffsetIsProduct(i - 1, size);
      MulSucc(i - 1, size);
    }
  }

  /** A slice of a suffix is a slice of the whole, shifted by the suffix's start. */
  lemma {:induction false} SliceOfSuffix<T>(s: seq<T>, d: nat, lo: nat, hi: nat)
    requires d <= |s| && lo <= hi <= |s| - d
    ensures s[d..][lo..hi] == s[d + lo..d + hi]
  {
    assert forall k :: 0 <= k < hi - lo ==> s[d..][lo..hi][k] == s[d + lo + k];
  }

  /** Batch `i` starts at row `Offset(i, size)` and holds the next `size`
      rows, clamped to the end. */
  lemma {:induction false} ChunkAtOffset<T>(items: seq<T>, size: nat, i: nat)
    requires size > 0
    requires i < |Chunks(items, size)|
    ensures Offset(i, size) < |items|
    ensures Chunks(items, size)[i] == items[Offset(i, size)..Min(Offset(i, size) + size, |items|)]
    decreases i
  {
    var n := |items|;
    var k := Min(size, n);
    var rest := Chunks(items[k..], size);
    assert Chunks(items, size) == [items[..k]] + rest;
    if i > 0 {
      assert |rest| > 0;
      assert k == size;
      ChunkAtOffset(items[k..], size, i - 1);
      var lo' := Offset(i - 1, size);
      var hi := Min(lo' + size, n - size);
      assert Offset(i, size) == lo' + size;
      assert Min(Offset(i, size) + size, n) == hi + size;
      assert Chunks(items, size)[i] == rest[i - 1];
      assert rest[i - 1] == items[size..][lo'..hi];
      SliceOfSuffix(items, size, lo', hi);
    } else {
      assert Offset(i, size) == 0;
      assert Chunks(items, size)[i] == items[..k];
    }
  }

  /** When the inner sequences before `i` all have length `size`, element
      `i * size + j` of the concatenation is element `j` of sequence `i`. */
  lemma {:induction false} FlattenAt<T>(ss: seq<seq<T>>, size: nat, i: nat, j: nat)
    requires i < |ss| && j < |ss[i]|
    requires forall b :: 0 <= b < i ==> |ss[b]| == size
    ensures i * size + j < |Flatten(ss)|
    ensures Flatten(ss)[i * size + j] == ss[i][j]
    decreases i
  {
    if i > 0 {
      assert forall b :: 0 <= b < i - 1 ==> ss[1..][b] == ss[b + 1];
      FlattenAt(ss[1..], size, i - 1, j);
      MulSucc(i - 1, size);
      assert Flatten(ss) == ss[0] + Flatten(ss[1..]);
    }
  }

  /** Batch `i` is rows `i * size` up to `i * size + size`, clamped to the end. */
  lemma {:induction false} ChunkAt<T>(items: seq<T>, size: nat, i: nat)
    requires size > 0
    requires i < |Chunks(items, size)|
    ensures i * size < |items|
    ensures Chunks(items, size)[i] == items[i * size..Min(i * size + size, |items|)]
  {
    ChunkAtOffset(items, size, i);
    OffsetIsProduct(i, size);
  }

  /** Row `i * size + j` of the input, for `j < size`, is row `j` of batch `i`. */
  lemma {:induction false} ChunkIndex<T>(items: seq<T>, size: nat, i: nat, j: nat)
    requires j < size && i * size + j < |items|
    ensures i < |Chunks(items, size)|
    ensures j < |Chunks(items, size)[i]|
    ensures Chunks(items, size)[i][j] == items[i * size + j]
  {
    ChunksCount(items, size);
    var n := NumBatches(|items|, size);
    if i >= n {
      MulMonotone(n, i, size);
    }
    ChunkAt(items, size, i);
    var lo := i * size;
    var hi := Min(lo + size, |items|);
    assert items[lo..hi][j] == items[lo + j];
  }

  /** Row `i * size + j` is found in batch `i` at position `j`. */
  lemma {:induction false} BatchPosition(size: nat, i: nat, j: nat)
    requires size > 0 && j < size
    ensures (i * size + j) / size == i
    ensures (i * size + j) % size == j
  {
    DivModUnique(i * size + j, size, i, j);
  }

  /** Batch `i` of `process_and_save_batches`: `items[i * size : i * size + size]`. */
  function IndexBatch<T>(items: seq<T>, size: nat, i: nat): seq<T>
  {
    Slice(items, Offset(i, size), Offset(i, size) + size)
  }

  /** Batch `i` of the index loop, for `i` below the batch count, starts
      inside the input, and the next batch starts where it ends. */
  lemma {:induction false} IndexBatchAt<T>(items: seq<T>, size: nat, i: nat)
    requires size > 0
    requires i < NumBatches(|items|, size)
    ensures i * size < |items|
    ensures IndexBatch(items, size, i) == items[i * size..Min(i * size + size, |items|)]
    ensures (i + 1) * size == i * size + size
  {
    var k := NumBatches(|items|, size);
    MulMonotone(i, k - 1, size);
    MulSucc(i, size);
    OffsetIsProduct(i, size);
  }

  /** Both ways of cutting batches agree: the index loop over
      `range(num_batches)` visits exactly the comprehension's batches. */
  lemma {:induction false} IndexBatchIsChunk<T>(items: seq<T>, size: nat, i: nat)
    requires size > 0
    requires i < NumBatches(|items|, size)
    ensures i < |Chunks(items, size)|
    ensures IndexBatch(items, size, i) == Chunks(items, size)[i]
  {
    ChunksCount(items, size);
    ChunkAt(items, size, i);
    OffsetIsProduct(i, size);
  }
}
