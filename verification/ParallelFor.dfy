/**
 How parallel_for splits an index range into chunks for the thread pool.
 */
module ParallelFor {
  import opened Ranking

  /** The half-open index range of one submitted chunk. */
  datatype Chunk = Chunk(start: nat, end: nat)

  /** The indices the chunks call the function on, chunk by chunk. */
  ghost function Calls(chunks: seq<Chunk>): seq<nat> {
    if chunks == [] then []
    else
      var c := chunks[|chunks|-1];
      Calls(chunks[..|chunks|-1]) + (if c.start <= c.end then seq(c.end - c.start, i => c.start + i) else [])
  }

  /** The chunks handed to the pool call the function exactly once on each of 0 .. count-1, whatever
      the count and the number of threads; there are at most as many chunks as threads and none is empty. All
      but the last are of the same size, the count divided by the threads and rounded up, and it is no larger. */
  method ParallelFor(count: nat, threads: nat) returns (chunks: seq<Chunk>)
    requires threads >= 1
    ensures Calls(chunks) == FirstIndices(count)
    ensures |chunks| <= threads
    ensures AllInside(chunks, count)
    ensures forall j :: 0 <= j < |chunks| - 1 ==> chunks[j].end - chunks[j].start == (count + threads - 1) / threads
    ensures forall j :: 0 <= j < |chunks| ==> chunks[j].end - chunks[j].start <= (count + threads - 1) / threads
  {
    chunks := [];
    if count == 0 {
      return;
    }
    var chunkSize := (count + threads - 1) / threads;
    CeilingCovers(count, threads, chunkSize);
    var t := 0;
    while t < threads
      invariant t <= threads && |chunks| == t && (t == threads ==> t * chunkSize >= count)
      invariant AllInside(chunks, count)
      invariant forall j :: 0 <= j < t ==> chunks[j].end - chunks[j].start <= chunkSize
      invariant forall j :: 0 <= j < t && (j < t - 1 || t * chunkSize <= count) ==>
                              chunks[j].end - chunks[j].start == chunkSize
      invariant Calls(chunks) == FirstIndices(Min(t * chunkSize, count))
    {
      NothingOverflows(count, threads, chunkSize, t);
      var start := t * chunkSize;
      var end := Min(start + chunkSize, count);
      if start >= count {
        break;
      }
      AppendChunk(chunks, start, end, count);
      chunks := chunks + [Chunk(start, end)];
      NextStart(t, chunkSize);
      t := t + 1;
    }
  }

  ghost function FirstIndices(n: nat): seq<nat> { seq(n, i => i) }

  ghost predicate AllInside(chunks: seq<Chunk>, count: nat) {
    forall j :: 0 <= j < |chunks| ==> chunks[j].start < chunks[j].end <= count
  }

  lemma AppendChunk(chunks: seq<Chunk>, start: nat, end: nat, count: nat)
    requires AllInside(chunks, count) && start < end <= count && Calls(chunks) == FirstIndices(start)
    ensures AllInside(chunks + [Chunk(start, end)], count)
    ensures Calls(chunks + [Chunk(start, end)]) == FirstIndices(end)
  {
    assert (chunks + [Chunk(start, end)])[..|chunks|] == chunks;
  }

  lemma NextStart(t: nat, chunkSize: nat)
    ensures (t + 1) * chunkSize == t * chunkSize + chunkSize
  {}

  /** No product or sum of the loop exceeds count + threads - 1, so none overflows where that does not. */
  lemma NothingOverflows(count: nat, threads: nat, chunkSize: nat, t: nat)
    requires t < threads && chunkSize == (count + threads - 1) / threads
    ensures t * chunkSize <= t * chunkSize + chunkSize <= count + threads - 1
  {
    assert count + threads - 1 == threads * chunkSize + (count + threads - 1) % threads;
    NextStart(t, chunkSize);
    Monotone(t + 1, threads, chunkSize);
  }

  lemma Monotone(a: nat, b: nat, c: nat)
    requires a <= b
    ensures a * c <= b * c
  {
    assert (b - a) * c >= 0;
  }

  lemma CeilingCovers(count: nat, threads: nat, chunkSize: nat)
    requires threads >= 1 && chunkSize == (count + threads - 1) / threads
    ensures threads * chunkSize >= count && (count > 0 ==> chunkSize > 0)
  {
    assert count + threads - 1 == threads * chunkSize + (count + threads - 1) % threads;
  }
}
