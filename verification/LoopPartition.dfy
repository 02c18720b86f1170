/** How parallelize_loop splits an index range into blocks. */
module LoopPartition {

  type Block = (int, int)

  /** Non-empty consecutive blocks from lo to hi. */
  ghost predicate Partitions(blocks: seq<Block>, lo: int, hi: int) {
    && |blocks| > 0
    && blocks[0].0 == lo
    && blocks[|blocks| - 1].1 == hi
    && (forall i :: 0 <= i < |blocks| ==> blocks[i].0 < blocks[i].1)
    && (forall i :: 0 <= i < |blocks| - 1 ==> blocks[i].1 == blocks[i + 1].0)
  }

  /** The blocks submitted, in order; numBlocks 0 stands for the number of threads. */
  method ParallelizeLoop(firstIndex: int, indexAfterLast: int, numBlocks: nat, threadCount: nat)
    returns (blocks: seq<Block>)
    requires threadCount > 0
    ensures firstIndex == indexAfterLast ==> blocks == []
    ensures firstIndex != indexAfterLast ==>
      var lo, hi := Min(firstIndex, indexAfterLast), Max(firstIndex, indexAfterLast);
      var n := if numBlocks == 0 then threadCount else numBlocks;
      && Partitions(blocks, lo, hi)
      && |blocks| == Min(n, hi - lo)
      && forall i :: 0 <= i < |blocks| - 1 ==> blocks[i].1 - blocks[i].0 == (hi - lo) / |blocks|
  {
    var first, last := firstIndex, indexAfterLast;
    if first == last { return []; }
    if last < first {
      last, first := first, last;
    }
    var n := numBlocks;
    if n == 0 {
      n := threadCount;
    }
    var totalSize := last - first;
    var blockSize;
    blockSize, n := ChooseBlocks(totalSize, n);
    blocks := SubmitBlocks(first, last, blockSize, n);
  }

  /** The block size and the number of blocks: no more blocks than items. */
  method ChooseBlocks(totalSize: int, requested: nat) returns (blockSize: int, n: nat)
    requires totalSize > 0 && requested > 0
    ensures n == Min(requested, totalSize) > 0
    ensures blockSize == totalSize / n > 0 && n * blockSize <= totalSize
  {
    DivisionFacts(totalSize, requested);
    n := requested;
    blockSize := totalSize / n;
    if blockSize == 0 {
      blockSize := 1;
      n := if totalSize > 1 then totalSize else 1;
      DivisionFacts(totalSize, totalSize);
    }
  }

  /** The submitting loop: equal blocks, the last one extended to the end. */
  method SubmitBlocks(first: int, last: int, blockSize: int, n: nat) returns (blocks: seq<Block>)
    requires n > 0 && blockSize > 0 && n * blockSize <= last - first
    ensures Partitions(blocks, first, last) && |blocks| == n
    ensures forall i :: 0 <= i < n - 1 ==> blocks[i].1 - blocks[i].0 == blockSize
  {
    blocks := [];
    for i := 0 to n
      invariant |blocks| == i
      invariant forall j :: 0 <= j < i ==> blocks[j] == BlockAt(first, last, blockSize, n, j)
    {
      var start := i * blockSize + first;
      var end := if i == n - 1 then last else (i + 1) * blockSize + first;
      blocks := blocks + [(start, end)];
    }
    BlocksPartition(first, last, blockSize, n, blocks);
  }

  function BlockAt(first: int, last: int, blockSize: int, n: nat, j: nat): Block {
    (j * blockSize + first, if j == n - 1 then last else (j + 1) * blockSize + first)
  }

  lemma BlocksPartition(first: int, last: int, blockSize: int, n: nat, blocks: seq<Block>)
    requires n > 0 && blockSize > 0 && n * blockSize <= last - first && |blocks| == n
    requires forall j :: 0 <= j < n ==> blocks[j] == BlockAt(first, last, blockSize, n, j)
    ensures Partitions(blocks, first, last)
    ensures forall i :: 0 <= i < n - 1 ==> blocks[i].1 - blocks[i].0 == blockSize
  {
    forall j | 0 <= j < n ensures blocks[j].0 < blocks[j].1 && (j < n - 1 ==> blocks[j].1 - blocks[j].0 == blockSize) {
      assert (j + 1) * blockSize == j * blockSize + blockSize;
    }
  }

  function Min(a: int, b: int): int { if a < b then a else b }
  function Max(a: int, b: int): int { if a < b then b else a }

  lemma DivisionFacts(total: int, n: nat)
    requires total > 0 && n > 0
    ensures total / n >= 0 && n * (total / n) <= total
    ensures total / n == 0 <==> total < n
    ensures total == n ==> total / n == 1
  {
    var q, r := total / n, total % n;
    assert total == n * q + r;
    assert q >= 1 ==> n * q >= n;
    assert q >= 2 ==> n * q >= 2 * n;
  }

  /** A partition runs every index in its range in exactly one block, and no other index. */
  lemma {:induction false} EveryIndexOnce(blocks: seq<Block>, lo: int, hi: int, x: int)
    requires Partitions(blocks, lo, hi)
    ensures lo <= x < hi <==> exists i :: 0 <= i < |blocks| && blocks[i].0 <= x < blocks[i].1
    ensures forall i, j | 0 <= i < |blocks| && 0 <= j < |blocks| ::
              blocks[i].0 <= x < blocks[i].1 && blocks[j].0 <= x < blocks[j].1 ==> i == j
    ensures lo < hi
    decreases |blocks|
  {
    if |blocks| > 1 {
      var front, mid := blocks[..|blocks| - 1], blocks[|blocks| - 1].0;
      assert blocks[|blocks| - 2].1 == blocks[|blocks| - 2 + 1].0;
      EveryIndexOnce(front, lo, mid, x);
      if lo <= x < mid {
        var i :| 0 <= i < |front| && front[i].0 <= x < front[i].1;
        assert blocks[i] == front[i];
      } else if mid <= x < hi {
        assert blocks[|blocks| - 1].0 <= x < blocks[|blocks| - 1].1;
      }
      forall i | 0 <= i < |front| ensures front[i] == blocks[i] {}
    } else {
      assert blocks[0].0 <= x < blocks[0].1 <==> lo <= x < hi;
    }
  }
}
