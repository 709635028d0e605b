/** The blocked prefix sum of the graph builder, against the plain one. */
module PrefixSums {

  ghost function SumTo(d: seq<nat>, i: nat): nat
    requires i <= |d|
  {
    if i == 0 then 0 else SumTo(d, i - 1) + d[i - 1]
  }

  /** One running total over the whole list. */
  method PrefixSum(degrees: array<nat>) returns (sums: array<nat>)
    ensures fresh(sums) && sums.Length == degrees.Length + 1
    ensures forall i :: 0 <= i <= degrees.Length ==> sums[i] == SumTo(degrees[..], i)
  {
    SumZero(degrees[..]);
    hide SumTo;
    sums := new nat[degrees.Length + 1];
    var total := 0;
    ghost var d := degrees[..];
    for n := 0 to degrees.Length
      invariant degrees[..] == d && total == SumTo(d, n)
      invariant SumsTo(d, sums[..], n)
    {
      SumNext(d, n);
      sums[n] := total;
      total := total + degrees[n];
    }
    sums[degrees.Length] := total;
  }

  ghost predicate SumsTo(d: seq<nat>, sums: seq<nat>, n: nat) {
    n <= |d| && n <= |sums| && forall i :: 0 <= i < n ==> sums[i] == SumTo(d, i)
  }

  function Min(a: nat, b: nat): nat {
    if a < b then a else b
  }

  /** Where block k starts, cut off at the end of the list. */
  function BlockStart(k: nat, size: nat, n: nat): (r: nat)
    ensures r <= n
  {
    Min(k * size, n)
  }

  predicate StartsIn(k: nat, size: nat, n: nat) {
    k * size <= n
  }

  function NumBlocks(n: nat, size: nat): nat
    requires size > 0
  {
    (n + size - 1) / size
  }

  lemma BlocksCover(n: nat, size: nat)
    requires size > 0
    ensures NumBlocks(n, size) * size >= n
    ensures forall k :: 0 <= k < NumBlocks(n, size) ==> StartsIn(k, size, n)
  {
    var q := NumBlocks(n, size);
    assert q * size > n + size - 1 - size;
    forall k | 0 <= k < q
      ensures StartsIn(k, size, n)
    {
      assert (k + 1) * size <= q * size by { Grow(k + 1, q, size); }
      assert q * size <= n + size - 1;
    }
  }

  lemma Grow(a: nat, b: nat, size: nat)
    requires a <= b
    ensures a * size <= b * size
  {
  }

  lemma SumZero(d: seq<nat>)
    ensures SumTo(d, 0) == 0
  {
  }

  lemma SumNext(d: seq<nat>, i: nat)
    requires i < |d|
    ensures SumTo(d, i + 1) == SumTo(d, i) + d[i]
  {
  }

  lemma {:induction false} SumGrows(d: seq<nat>, x: nat, y: nat)
    requires x < y <= |d|
    ensures SumTo(d, x) + d[x] <= SumTo(d, y)
  {
    if x < y - 1 {
      SumGrows(d, x, y - 1);
    }
  }

  /** Sums each block, scans the block totals, then scans inside every block from its own start. */
  method ParallelPrefixSum(degrees: array<nat>, size: nat) returns (prefix: array<nat>)
    requires size > 0
    ensures fresh(prefix) && prefix.Length == degrees.Length + 1
    ensures forall i :: 0 <= i <= degrees.Length ==> prefix[i] == SumTo(degrees[..], i)
  {
    hide SumTo, BlockStart, NumBlocks;
    var n := degrees.Length;
    var blocks := NumBlocks(n, size);
    BlocksCover(n, size);
    EndEdges(blocks, size, n);
    var local := LocalSums(degrees, size, blocks);
    var bulk := BulkPrefix(degrees, size, blocks, local);
    prefix := new nat[n + 1];
    ghost var d := degrees[..];
    for k := 0 to blocks
      invariant forall j :: 0 <= j <= blocks ==> bulk[j] == SumTo(d, BlockStart(j, size, n))
      invariant forall i :: 0 <= i < BlockStart(k, size, n) ==> prefix[i] == SumTo(d, i)
    {
      assert StartsIn(k, size, n);
      NextEdge(k, size, n);
      ScanBlock(degrees, k * size, Min((k + 1) * size, n), bulk[k], prefix);
    }
    assert bulk[blocks] == SumTo(d, BlockStart(blocks, size, n)) == SumTo(d, n);
    prefix[n] := bulk[blocks];
  }

  method BulkPrefix(degrees: array<nat>, size: nat, blocks: nat, local: array<nat>) returns (bulk: array<nat>)
    requires local.Length == blocks
    requires forall k :: 0 <= k < blocks ==>
      SumTo(degrees[..], BlockStart(k, size, degrees.Length)) + local[k]
            == SumTo(degrees[..], BlockStart(k + 1, size, degrees.Length))
    ensures fresh(bulk) && bulk.Length == blocks + 1
    ensures forall k :: 0 <= k <= blocks ==> bulk[k] == SumTo(degrees[..], BlockStart(k, size, degrees.Length))
  {
    ghost var n, d := degrees.Length, degrees[..];
    bulk := new nat[blocks + 1];
    var total := 0;
    for k := 0 to blocks
      invariant total == SumTo(d, BlockStart(k, size, n))
      invariant forall j :: 0 <= j < k ==> bulk[j] == SumTo(d, BlockStart(j, size, n))
    {
      hide SumTo, BlockStart;
      bulk[k] := total;
      total := total + local[k];
    }
    bulk[blocks] := total;
  }

  lemma EndEdges(blocks: nat, size: nat, n: nat)
    requires blocks * size >= n
    ensures BlockStart(0, size, n) == 0 && BlockStart(blocks, size, n) == n
  {
  }

  lemma NextEdge(k: nat, size: nat, n: nat)
    ensures BlockStart(k, size, n) <= BlockStart(k + 1, size, n)
    ensures BlockStart(k + 1, size, n) == Min((k + 1) * size, n)
    ensures k * size <= n ==> BlockStart(k, size, n) == k * size
  {
    Grow(k, k + 1, size);
  }

  method BlockSum(degrees: array<nat>, start: nat, end: nat) returns (sum: nat)
    requires start <= end <= degrees.Length
    ensures SumTo(degrees[..], start) + sum == SumTo(degrees[..], end)
  {
    ghost var d := degrees[..];
    sum := 0;
    for i := start to end
      invariant SumTo(d, start) + sum == SumTo(d, i)
    {
      hide SumTo;
      SumNext(d, i);
      sum := sum + degrees[i];
    }
  }

  method LocalSums(degrees: array<nat>, size: nat, blocks: nat) returns (local: array<nat>)
    requires forall k :: 0 <= k < blocks ==> StartsIn(k, size, degrees.Length)
    ensures fresh(local) && local.Length == blocks
    ensures forall k :: 0 <= k < blocks ==>
      SumTo(degrees[..], BlockStart(k, size, degrees.Length)) + local[k]
            == SumTo(degrees[..], BlockStart(k + 1, size, degrees.Length))
  {
    hide SumTo, BlockStart;
    var n := degrees.Length;
    ghost var d := degrees[..];
    local := new nat[blocks];
    for k := 0 to blocks
      invariant forall j :: 0 <= j < k ==>
                SumTo(d, BlockStart(j, size, n)) + local[j] == SumTo(d, BlockStart(j + 1, size, n))
    {
      assert StartsIn(k, size, n);
      NextEdge(k, size, n);
      local[k] := BlockSum(degrees, k * size, Min((k + 1) * size, n));
    }
  }

  method ScanBlock(degrees: array<nat>, start: nat, end: nat, base: nat, prefix: array<nat>)
    requires start <= end <= degrees.Length && prefix.Length == degrees.Length + 1 && prefix != degrees
    requires base == SumTo(degrees[..], start)
    requires forall i :: 0 <= i < start ==> prefix[i] == SumTo(degrees[..], i)
    modifies prefix
    ensures forall i :: 0 <= i < end ==> prefix[i] == SumTo(degrees[..], i)
  {
    hide SumTo;
    ghost var d := degrees[..];
    var total := base;
    for i := start to end
      invariant total == SumTo(d, i)
      invariant forall j :: 0 <= j < i ==> prefix[j] == SumTo(d, j)
    {
      SumNext(d, i);
      prefix[i] := total;
      total := total + degrees[i];
    }
  }
}
