/**
 * Work partitioning for parallel PDF processing: `split_pdf_list` cuts the
 * list of files into `numChunks` contiguous batches, the last of which takes
 * the remainder.
 */
module ParallelProcessor {
  import opened Builtins

  /** The batch size is `len // n`: `n` batches of it fit in the list, and
      it is zero when there are fewer files than batches. */
  lemma SizeFacts(len: nat, n: int)
    requires n > 0
    ensures 0 <= len / n && (len / n) * n <= len
    ensures len < n ==> len / n == 0
  {
  }

  /** `i * size + size <= size * n` for `i < n`: the batch that starts at
      `i * size` ends inside the first `n` batches. */
  lemma BatchEndWithin(i: int, n: int, size: int)
    requires 0 <= i < n && 0 <= size
    ensures 0 <= i * size && i * size + size <= size * n
  {
    assert (i + 1) * size <= size * n by {
      assert size * n - (i + 1) * size == (n - i - 1) * size;
    }
  }

  /** Where batch `j` of `n` ends: the next batch's start, or the end of the
      list for the last batch. */
  function BatchEnd(len: nat, n: int, size: int, j: int): int {
    if j == n - 1 then len else j * size + size
  }

  /** `n` batches of `size` files each, taken in order, the last one
      extended to the end of the list. */
  function BatchSeq<T>(files: seq<T>, n: int, size: int): (r: seq<seq<T>>)
    requires 0 < n && 0 <= size && size * n <= |files|
    ensures |r| == n
  {
    seq(n, j requires 0 <= j < n =>
      BatchEndWithin(j, n, size);
      files[j * size..BatchEnd(|files|, n, size, j)])
  }

  /** The batches `split_pdf_list` returns: none for an empty list or a
      negative count, else `n` batches of `len // n` files, the last taking
      the remainder. */
  function Batches<T>(files: seq<T>, n: int): (r: seq<seq<T>>)
    requires n != 0
    ensures n < 0 || |files| == 0 ==> r == []
    ensures n > 0 && |files| > 0 ==> |r| == n
  {
    if n < 0 || |files| == 0 then []
    else
      SizeFacts(|files|, n);
      BatchSeq(files, n, |files| / n)
  }

  /**
   * `split_pdf_list`. Dividing by zero is the caller's error; otherwise the
   * loop appends `Batches(files, numChunks)` one batch per turn.
   */
  method SplitPdfList<T>(files: seq<T>, numChunks: int) returns (chunks: seq<seq<T>>)
    requires numChunks != 0
    ensures chunks == Batches(files, numChunks)
  {
    var chunkSize := FloorDiv(|files|, numChunks);
    chunks := [];
    var i := 0;
    while i < numChunks
      invariant 0 <= i && (numChunks > 0 ==> i <= numChunks) && (numChunks < 0 ==> i == 0)
      invariant |files| == 0 ==> chunks == []
      invariant |files| > 0 ==> chunks == Batches(files, numChunks)[..i]
    {
      var start := i * chunkSize;
      var end;
      if i == numChunks - 1 {
        end := |files|;
      } else {
        end := start + chunkSize;
      }
      assert chunkSize == |files| / numChunks;
      SizeFacts(|files|, numChunks);
      BatchEndWithin(i, numChunks, chunkSize);
      if |files| > 0 {
        BatchStarts(|files|, numChunks, chunkSize, i);
        BatchesStep(files, numChunks, i, chunks, start, end);
      } else {
        assert chunkSize == 0 && start == 0;
      }
      if start < |files| {
        chunks := chunks + [files[start..end]];
      }
      i := i + 1;
    }
    if |files| > 0 && numChunks > 0 {
      assert Batches(files, numChunks)[..i] == Batches(files, numChunks);
    }
  }

  /** For a non-empty list every batch start is inside it, so the guard
      `start < len(pdf_files)` never skips one. */
  lemma BatchStarts(len: nat, n: int, size: int, i: int)
    requires 0 < len && 0 < n && 0 <= i < n && 0 <= size && size * n <= len
    ensures i * size < len
  {
    BatchEndWithin(i, n, size);
    if size == 0 {
      assert i * size == 0;
    }
  }

  /** Appending the batch the loop computes at turn `i` extends the prefix of
      `Batches` by one. */
  lemma BatchesStep<T>(files: seq<T>, n: int, i: int, chunks: seq<seq<T>>, start: int, end: int)
    requires 0 < |files| && 0 < n && 0 <= i < n
    requires chunks == Batches(files, n)[..i]
    requires start == i * (|files| / n)
    requires end == if i == n - 1 then |files| else start + |files| / n
    requires 0 <= start <= end <= |files|
    ensures chunks + [files[start..end]] == Batches(files, n)[..i + 1]
  {
    var b := Batches(files, n);
    assert end == BatchEnd(|files|, n, |files| / n, i);
    assert b[i] == files[start..end];
    assert b[..i + 1] == b[..i] + [b[i]];
  }

  /** The first `k` batches (short of the last) cover exactly the first
      `k * size` files. */
  lemma {:induction false} BatchSeqPrefix<T>(files: seq<T>, n: int, size: int, k: int)
    requires 0 < n && 0 <= size && size * n <= |files| && 0 <= k < n
    ensures 0 <= k * size <= |files|
    ensures Concat(BatchSeq(files, n, size)[..k]) == files[..k * size]
    decreases k
  {
    var b := BatchSeq(files, n, size);
    BatchEndWithin(k, n, size);
    if k == 0 {
      assert b[..0] == [];
    } else {
      var p := (k - 1) * size;
      BatchSeqPrefix(files, n, size, k - 1);
      BatchEndWithin(k - 1, n, size);
      assert p + size == k * size;
      assert b[..k][..k - 1] == b[..k - 1];
      assert b[..k][k - 1] == b[k - 1] == files[p..p + size];
      assert files[..p + size] == files[..p] + files[p..p + size];
    }
  }

  /** Concatenating the batches in order gives back the list. */
  lemma BatchSeqConcat<T>(files: seq<T>, n: int, size: int)
    requires 0 < n && 0 <= size && size * n <= |files|
    ensures Concat(BatchSeq(files, n, size)) == files
  {
    var b := BatchSeq(files, n, size);
    var p := (n - 1) * size;
    BatchSeqPrefix(files, n, size, n - 1);
    assert b[..n][..n - 1] == b[..n - 1];
    assert b[..n] == b;
    assert b[n - 1] == files[p..];
    assert files == files[..p] + files[p..];
  }

  /** Concatenating the batches of `split_pdf_list` in order gives back the
      list. */
  lemma BatchesConcat<T>(files: seq<T>, n: int)
    requires n > 0
    ensures Concat(Batches(files, n)) == files
  {
    if |files| > 0 {
      SizeFacts(|files|, n);
      BatchSeqConcat(files, n, |files| / n);
    }
  }

  /** Batch sizes for a given `size`: all but the last hold `size` files, the
      last holds the rest, which is at least `size`. */
  lemma BatchSeqSizes<T>(files: seq<T>, n: int, size: int)
    requires 0 < n && 0 <= size && size * n <= |files|
    ensures var b := BatchSeq(files, n, size);
      (forall j :: 0 <= j < n - 1 ==> |b[j]| == size)
      && |b[n - 1]| == |files| - (n - 1) * size >= size
  {
    var b := BatchSeq(files, n, size);
    forall j | 0 <= j < n - 1 ensures |b[j]| == size {
      BatchEndWithin(j, n, size);
    }
    BatchEndWithin(n - 1, n, size);
  }

  /** Every batch but the last holds `len // n` files and the last holds the
      rest, which is at least as many; with fewer files than batches, the
      earlier batches are empty and the last holds everything. */
  lemma BatchesSizes<T>(files: seq<T>, n: int)
    requires n > 0 && |files| > 0
    ensures var b := Batches(files, n);
      (forall j :: 0 <= j < n - 1 ==> |b[j]| == |files| / n)
      && |b[n - 1]| == |files| - (n - 1) * (|files| / n) >= |files| / n
      && (|files| < n ==> (forall j :: 0 <= j < n - 1 ==> b[j] == []) && b[n - 1] == files)
  {
    SizeFacts(|files|, n);
    BatchSeqSizes(files, n, |files| / n);
    if |files| < n {
      var b := BatchSeq(files, n, 0);
      assert b[n - 1] == files[(n - 1) * 0..];
    }
  }
}
