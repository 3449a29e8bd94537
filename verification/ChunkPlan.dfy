/** The chunk plan that the initiate action hands to the client. */
module ChunkPlan {
  import opened Files

  datatype Chunk = Chunk(index: int, offset: int, size: int)

  /** Python's // and Dafny's / agree for a positive divisor, also on a negative total. */
  function TotalChunks(totalSize: int, chunkSize: int): int
    requires chunkSize > 0
  {
    (totalSize + chunkSize - 1) / chunkSize
  }

  function Plan(totalSize: int, chunkSize: int): seq<Chunk>
    requires chunkSize > 0
  {
    var n := TotalChunks(totalSize, chunkSize);
    seq(if n > 0 then n else 0,
        i requires i >= 0 => Chunk(i, i * chunkSize, Min(chunkSize, totalSize - i * chunkSize)))
  }

  function SizeSum(plan: seq<Chunk>): int {
    if plan == [] then 0 else SizeSum(plan[..|plan| - 1]) + plan[|plan| - 1].size
  }

  /** The slice of the source that belongs to a chunk. */
  function Slice(source: Bytes, c: Chunk): Bytes
    requires 0 <= c.offset <= c.offset + c.size <= |source|
  {
    source[c.offset..c.offset + c.size]
  }

  ghost predicate Fits(plan: seq<Chunk>, total: nat) {
    forall i :: 0 <= i < |plan| ==> 0 <= plan[i].offset <= plan[i].offset + plan[i].size <= total
  }

  function Slices(source: Bytes, plan: seq<Chunk>): seq<Bytes>
    requires Fits(plan, |source|)
  {
    seq(|plan|, i requires 0 <= i < |plan| => Slice(source, plan[i]))
  }

  lemma MulStep(i: int, c: int)
    ensures (i + 1) * c == i * c + c
  {
  }

  lemma {:induction false} MulMonotone(i: int, j: int, c: int)
    requires c > 0 && i <= j
    ensures i * c <= j * c
    decreases j - i
  {
    if i < j {
      MulMonotone(i, j - 1, c);
      MulStep(j - 1, c);
    }
  }

  /** The number of chunks is the file size over the chunk size, rounded up. */
  lemma CountRoundsUp(totalSize: int, chunkSize: int)
    requires chunkSize > 0
    ensures var n := TotalChunks(totalSize, chunkSize);
            n * chunkSize - chunkSize < totalSize <= n * chunkSize
  {
    var m := totalSize + chunkSize - 1;
    assert m == (m / chunkSize) * chunkSize + m % chunkSize;
  }

  lemma CountNotNegative(totalSize: int, chunkSize: int)
    requires chunkSize > 0
    ensures TotalChunks(totalSize, chunkSize) >= 0 <==> totalSize > -chunkSize
    ensures totalSize <= 0 ==> TotalChunks(totalSize, chunkSize) <= 0
  {
    var n := TotalChunks(totalSize, chunkSize);
    CountRoundsUp(totalSize, chunkSize);
    if n >= 1 {
      MulMonotone(1, n, chunkSize);
    } else if n <= -1 {
      MulMonotone(n, -1, chunkSize);
    }
  }

  /** All chunks but the last are full, and the last is what remains. */
  lemma ChunkAt(totalSize: int, chunkSize: int, i: int)
    requires chunkSize > 0 && 0 <= i < TotalChunks(totalSize, chunkSize)
    ensures var size := Min(chunkSize, totalSize - i * chunkSize);
            && 0 <= i * chunkSize && 0 < size
            && (i < TotalChunks(totalSize, chunkSize) - 1 ==> size == chunkSize)
            && (i == TotalChunks(totalSize, chunkSize) - 1 ==> i * chunkSize + size == totalSize)
  {
    var n := TotalChunks(totalSize, chunkSize);
    CountRoundsUp(totalSize, chunkSize);
    MulMonotone(0, i, chunkSize);
    MulStep(n - 1, chunkSize);
    if i < n - 1 {
      MulMonotone(i + 1, n - 1, chunkSize);
      MulStep(i, chunkSize);
    }
  }

  /** The planned chunks are non-empty, no larger than the chunk size, and lie one after the other over the file. */
  lemma {:induction false} PlanPartitions(totalSize: int, chunkSize: int)
    requires chunkSize > 0 && totalSize >= 0
    ensures var plan := Plan(totalSize, chunkSize);
            && |plan| == TotalChunks(totalSize, chunkSize)
            && (forall i :: 0 <= i < |plan| ==> plan[i].index == i && 0 < plan[i].size <= chunkSize)
            && Fits(plan, totalSize)
            && Adjacent(plan)
            && (if plan == [] then totalSize == 0
                else plan[|plan| - 1].offset + plan[|plan| - 1].size == totalSize)
  {
    var plan, n := Plan(totalSize, chunkSize), TotalChunks(totalSize, chunkSize);
    CountNotNegative(totalSize, chunkSize);
    CountRoundsUp(totalSize, chunkSize);
    forall i | 0 <= i < n
      ensures plan[i].index == i && 0 <= plan[i].offset && 0 < plan[i].size <= chunkSize
      ensures plan[i].offset + plan[i].size <= totalSize
      ensures i == n - 1 ==> plan[i].offset + plan[i].size == totalSize
    {
      ChunkAt(totalSize, chunkSize, i);
    }
    forall i | 0 < i < |plan|
      ensures plan[i].offset == plan[i - 1].offset + plan[i - 1].size
    {
      ChunkAt(totalSize, chunkSize, i - 1);
      MulStep(i - 1, chunkSize);
    }
  }

  /** A negative size yields a plan without chunks. */
  lemma NegativeSizeHasNoChunks(totalSize: int, chunkSize: int)
    requires chunkSize > 0 && totalSize < 0
    ensures TotalChunks(totalSize, chunkSize) <= 0 && Plan(totalSize, chunkSize) == []
  {
    CountNotNegative(totalSize, chunkSize);
  }

  ghost predicate Adjacent(plan: seq<Chunk>) {
    && (plan != [] ==> plan[0].offset == 0)
    && (forall i :: 0 < i < |plan| ==> plan[i].offset == plan[i - 1].offset + plan[i - 1].size)
  }

  /** Adjacent chunks from zero cover a prefix of the source, and their sizes sum to its length. */
  lemma {:induction false} AdjacentCoverPrefix(source: Bytes, plan: seq<Chunk>)
    requires Fits(plan, |source|) && Adjacent(plan)
    ensures var end := if plan == [] then 0 else plan[|plan| - 1].offset + plan[|plan| - 1].size;
            SizeSum(plan) == end && Concat(Slices(source, plan)) == source[..end]
  {
    if plan != [] {
      var n := |plan| - 1;
      var init, last := plan[..n], plan[n];
      AdjacentCoverPrefix(source, init);
      assert Slices(source, plan)[..n] == Slices(source, init);
      assert source[..last.offset] + Slice(source, last) == source[..last.offset + last.size];
    }
  }

  /** The sizes of the plan sum to the file size, and concatenating the planned slices gives the file back. */
  lemma PlanCoversSource(source: Bytes, chunkSize: int)
    requires chunkSize > 0
    ensures var plan := Plan(|source|, chunkSize);
            Fits(plan, |source|) && SizeSum(plan) == |source| && Concat(Slices(source, plan)) == source
  {
    var plan := Plan(|source|, chunkSize);
    PlanPartitions(|source|, chunkSize);
    AdjacentCoverPrefix(source, plan);
    assert source[..|source|] == source;
  }
}
