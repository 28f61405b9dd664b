/** The loop-decomposition demo of multadd.c: a zero-initialised array is split into one
    chunk per worker and each worker adds 1 to every element of its chunk. The workers run
    here one after the other in worker order; their chunks are disjoint. */
module MultAdd {
  import opened Partition

  /** `parametros_thread_t`: a worker's id and its index range [start, end). */
  datatype Params = Params(tid: int, start: int, end: int)

  /** `do_work`: add 1 to every element of [p.start, p.end); nothing else changes. A range
      with start >= end does nothing. */
  method DoWork(a: array<int>, p: Params)
    requires 0 <= p.start && p.end <= a.Length
    modifies a
    ensures forall i :: 0 <= i < a.Length ==>
      a[i] == old(a[i]) + (if p.start <= i < p.end then 1 else 0)
  {
    var i := p.start;
    while i < p.end
      invariant p.start <= i && (p.start <= p.end ==> i <= p.end) && (p.end < p.start ==> i == p.start)
      invariant forall k :: 0 <= k < a.Length ==>
        a[k] == old(a[k]) + (if p.start <= k < i then 1 else 0)
    {
      a[i] := a[i] + 1;
      i := i + 1;
    }
  }

  /** The setup loop of `main`: worker i gets id i and the range
      [i*arraysize/nthreads, (i+1)*arraysize/nthreads). */
  method MakeParams(nthreads: nat, arraysize: nat) returns (params: array<Params>)
    ensures fresh(params) && params.Length == nthreads
    ensures forall i :: 0 <= i < nthreads ==>
      params[i] == Params(i, ChunkStart(i, arraysize, nthreads), ChunkEnd(i, arraysize, nthreads))
  {
    params := new Params[nthreads](_ => Params(0, 0, 0));
    var i := 0;
    while i < nthreads
      invariant 0 <= i <= nthreads
      invariant forall k :: 0 <= k < i ==>
        params[k] == Params(k, ChunkStart(k, arraysize, nthreads), ChunkEnd(k, arraysize, nthreads))
    {
      params[i] := Params(i, i * arraysize / nthreads, (i + 1) * arraysize / nthreads);
      i := i + 1;
    }
  }

  /** `main` without its argument parsing and printing: allocate the zeroed array, run every
      worker on its chunk, and end with every element incremented exactly once. With no
      workers nothing is incremented. */
  method Run(nthreads: nat, arraysize: nat) returns (a: array<int>)
    ensures fresh(a) && a.Length == arraysize
    ensures forall i :: 0 <= i < arraysize ==> a[i] == if nthreads >= 1 then 1 else 0
  {
    a := new int[arraysize](_ => 0);
    if nthreads == 0 {
      return;
    }
    var params := MakeParams(nthreads, arraysize);
    ChunksSpan(arraysize, nthreads);
    var t := 0;
    while t < nthreads
      modifies a
      invariant 0 <= t <= nthreads
      invariant 0 <= ChunkStart(t, arraysize, nthreads) <= arraysize
      invariant forall i :: 0 <= i < arraysize ==>
        a[i] == if i < ChunkStart(t, arraysize, nthreads) then 1 else 0
    {
      ChunkBounds(t, arraysize, nthreads);
      DoWork(a, params[t]);
      t := t + 1;
    }
  }
}
