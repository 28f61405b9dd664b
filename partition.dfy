/** Work partitioning shared by both programs: worker i of t handles the index range
    [i*n/t, (i+1)*n/t) of n items. All operands are non-negative here, so C's truncating
    division and Dafny's Euclidean division agree. */
module Partition {

  /** First index handled by worker i. */
  function ChunkStart(i: int, n: int, t: int): int
    requires 0 <= i && 0 <= n && 1 <= t
  {
    i * n / t
  }

  /** One past the last index handled by worker i. */
  function ChunkEnd(i: int, n: int, t: int): int
    requires 0 <= i && 0 <= n && 1 <= t
  {
    (i + 1) * n / t
  }

  /** Integer division by a positive divisor is monotone. */
  lemma DivMonotone(a: int, b: int, t: int)
    requires 0 <= a <= b && 1 <= t
    ensures a / t <= b / t
  {
    if a / t > b / t {
      MulMonotone(t, b / t + 1, a / t);
      assert false;
    }
  }

  /** Quotient and remainder are determined by a == t*q + r with 0 <= r < t. */
  lemma DivUnique(a: int, t: int, q: int, r: int)
    requires 1 <= t && 0 <= r < t && a == t * q + r
    ensures a / t == q
  {
    var q', r' := a / t, a % t;
    if q < q' {
      MulMonotone(t, q + 1, q');
      assert false;
    } else if q' < q {
      MulMonotone(t, q' + 1, q);
      assert false;
    }
  }

  lemma MulMonotone(t: int, x: int, y: int)
    requires 0 <= t && x <= y
    ensures t * x <= t * y
  {
    assert t * y - t * x == t * (y - x);
  }

  /** Chunk starts never decrease as the worker index grows. */
  lemma StartMonotone(i: int, j: int, n: int, t: int)
    requires 0 <= i <= j && 0 <= n && 1 <= t
    ensures ChunkStart(i, n, t) <= ChunkStart(j, n, t)
  {
    MulMonotone(n, i, j);
    assert i * n == n * i && j * n == n * j;
    DivMonotone(i * n, j * n, t);
  }

  /** The bounds of one worker: inside [0, n], non-empty or empty but never reversed, and
      each worker ends exactly where the next one starts. */
  lemma ChunkBounds(i: int, n: int, t: int)
    requires 0 <= i < t && 0 <= n && 1 <= t
    ensures 0 <= ChunkStart(i, n, t) <= ChunkEnd(i, n, t) <= n
    ensures ChunkEnd(i, n, t) == ChunkStart(i + 1, n, t)
  {
    StartMonotone(0, i, n, t);
    StartMonotone(i, i + 1, n, t);
    StartMonotone(i + 1, t, n, t);
    DivUnique(t * n, t, n, 0);
  }

  /** The first worker starts at 0 and the last one ends at n. */
  lemma ChunksSpan(n: int, t: int)
    requires 0 <= n && 1 <= t
    ensures ChunkStart(0, n, t) == 0
    ensures ChunkEnd(t - 1, n, t) == n && ChunkStart(t, n, t) == n
  {
    DivUnique(t * n, t, n, 0);
  }

  /** Every index of [0, n) belongs to exactly one worker's chunk: the chunks tile [0, n)
      with no gap and no overlap. */
  lemma {:induction false} ChunksTile(k: int, n: int, t: int)
    requires 0 <= k < n && 1 <= t
    ensures exists i :: 0 <= i < t && ChunkStart(i, n, t) <= k < ChunkEnd(i, n, t)
    ensures forall i, j ::
      (0 <= i < t && 0 <= j < t &&
       ChunkStart(i, n, t) <= k < ChunkEnd(i, n, t) &&
       ChunkStart(j, n, t) <= k < ChunkEnd(j, n, t)) ==> i == j
  {
    ChunksSpan(n, t);
    FindChunk(k, n, t, 0);
    forall i, j |
      0 <= i < t && 0 <= j < t &&
      ChunkStart(i, n, t) <= k < ChunkEnd(i, n, t) &&
      ChunkStart(j, n, t) <= k < ChunkEnd(j, n, t)
      ensures i == j
    {
      if i < j {
        StartMonotone(i + 1, j, n, t);
      } else if j < i {
        StartMonotone(j + 1, i, n, t);
      }
    }
  }

  /** Walking from worker i upwards, the chunk containing k is found before worker t. */
  lemma {:induction false} FindChunk(k: int, n: int, t: int, i: int)
    requires 0 <= k < n && 1 <= t && 0 <= i < t
    requires ChunkStart(i, n, t) <= k
    ensures exists j :: i <= j < t && ChunkStart(j, n, t) <= k < ChunkEnd(j, n, t)
    decreases t - i
  {
    ChunksSpan(n, t);
    if k >= ChunkEnd(i, n, t) {
      if i + 1 == t {
        assert false;
      }
      FindChunk(k, n, t, i + 1);
    }
  }
}
