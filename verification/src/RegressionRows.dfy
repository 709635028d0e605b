/** The kernel matrix of regression: twice as many variables as points, rows copied from the cache in permuted order
    into two buffers that take turns. */
module RegressionRows {
  import opened Swaps
  import opened KernelCache

  /** Variables s and t of the doubled problem: the second half repeats the points with the opposite sign. */
  ghost function DoubledEntry(K: seq<seq<real>>, s: nat, t: nat): real
    requires s < 2 * |K| && t < 2 * |K| && forall h :: 0 <= h < |K| ==> |K[h]| == |K|
  {
    (SignOf(|K|, s) * SignOf(|K|, t)) as real * K[PointOf(|K|, s)][PointOf(|K|, t)]
  }

  function SignOf(l: nat, s: nat): int {
    if s < l then 1 else -1
  }

  function PointOf(l: nat, s: nat): nat {
    if s < l then s else s - l
  }

  /** Signs and points are those of the variables in their present order. */
  ghost predicate Ordered(l: nat, order: seq<nat>, sign: seq<int>, index: seq<nat>) {
    && |order| == |sign| == |index| == 2 * l
    && forall k :: 0 <= k < 2 * l ==>
         order[k] < 2 * l && sign[k] == SignOf(l, order[k]) && index[k] == PointOf(l, order[k])
  }

  /** The diagonal in the present order. */
  ghost predicate Diagonal(K: seq<seq<real>>, index: seq<nat>, QD: seq<real>) {
    && (forall h :: 0 <= h < |K| ==> |K[h]| == |K|) && |QD| == |index| == 2 * |K|
    && forall k :: 0 <= k < 2 * |K| ==> index[k] < |K| && QD[k] == K[index[k]][index[k]]
  }

  lemma SwapKeeps(K: seq<seq<real>>, order: seq<nat>, sign: seq<int>, index: seq<nat>, QD: seq<real>, i: nat, j: nat)
    requires Ordered(|K|, order, sign, index) && Diagonal(K, index, QD) && i < 2 * |K| && j < 2 * |K|
    ensures Ordered(|K|, Swapped(order, i, j), Swapped(sign, i, j), Swapped(index, i, j))
    ensures Diagonal(K, Swapped(index, i, j), Swapped(QD, i, j))
  {
    var order', sign', index', QD' := Swapped(order, i, j), Swapped(sign, i, j), Swapped(index, i, j),
          Swapped(QD, i, j);
    forall k | 0 <= k < 2 * |K|
      ensures order'[k] < 2 * |K| && sign'[k] == SignOf(|K|, order'[k]) && index'[k] == PointOf(|K|, order'[k])
      ensures index'[k] < |K| && QD'[k] == K[index'[k]][index'[k]]
    {
      var e := Exchange(i, j, k);
      assert order'[k] == order[e] && sign'[k] == sign[e] && index'[k] == index[e] && QD'[k] == QD[e];
    }
  }

  /** A cached row is a prefix of the kernel's row. */
  ghost predicate CachedRows(K: seq<seq<real>>, data: seq<seq<real>>) {
    |data| == |K| && forall h :: 0 <= h < |K| ==> data[h] <= K[h]
  }

  lemma RowsAfter(K: seq<seq<real>>, len: seq<nat>, data: seq<seq<real>>, gone: seq<nat>, len': seq<nat>,
                  data': seq<seq<real>>, i: nat)
    requires CachedRows(K, data) && i < |K| && |len| == |data| == |len'| == |data'|
    requires forall h :: 0 <= h < |K| ==> |data'[h]| == len'[h]
    requires Forgot(len, data, gone, len'[i := len[i]], data'[i := data[i]])
    ensures forall h :: 0 <= h < |K| && h != i ==> data'[h] <= K[h]
  {
    forall h | 0 <= h < |K| && h != i
      ensures data'[h] <= K[h]
    {
      assert len'[h] == len'[i := len[i]][h] && data'[h] == data'[i := data[i]][h];
    }
  }

  lemma OrderSize(K: seq<seq<real>>, order: seq<nat>, sign: seq<int>, index: seq<nat>, QD: seq<real>)
    requires Ordered(|K|, order, sign, index) && Diagonal(K, index, QD)
    ensures |order| == |sign| == |index| == |QD| == 2 * |K|
  {
  }

  class SvrQ {
    const K: seq<seq<real>>
    const cache: Cache
    var sign: seq<int>
    var index: seq<nat>
    var QD: seq<real>
    const buffer0: array<real>
    const buffer1: array<real>
    var nextBuffer: nat
    ghost var order: seq<nat>

    ghost predicate Valid()
      reads this, cache
    {
      && cache.Valid() && cache.l == |K| && CachedRows(K, cache.data)
      && Ordered(|K|, order, sign, index) && Diagonal(K, index, QD)
      && buffer0 != buffer1 && buffer0.Length == buffer1.Length == 2 * |K| && nextBuffer < 2
    }

    constructor (K: seq<seq<real>>, budget: int)
      requires forall h :: 0 <= h < |K| ==> |K[h]| == |K|
      ensures Valid() && this.K == K && order == seq(2 * |K|, k => k) && fresh(cache) && fresh(buffer0)
            && fresh(buffer1)
    {
      this.K := K;
      var l := |K|;
      sign := seq(2 * l, k => if k < l then 1 else -1);
      index := seq(2 * l, k requires 0 <= k < 2 * l => if k < l then k else k - l);
      QD := seq(2 * l, k requires 0 <= k < 2 * l => var h: nat := if k < l then k else k - l; K[h][h]);
      order := seq(2 * l, k => k);
      cache := new Cache(l, budget);
      buffer0, buffer1 := new real[2 * l](_ => 0.0), new real[2 * l](_ => 0.0);
      nextBuffer := 0;
      new;
      assert forall h :: 0 <= h < |K| ==> |cache.data[h]| == cache.len[h] == 0;
    }

    function Buffer(b: nat): array<real> {
      if b == 0 then buffer0 else buffer1
    }

    /** The whole kernel row of a point. */
    method KernelRow(point: nat)
      requires Valid() && point < |K|
      modifies cache
      ensures Valid() && cache.data[point] == K[point]
    {
      hide Linked, Total, Forgot, RowsBut, Ordered;
      var l := |K|;
      ghost var len0, data0 := cache.len, cache.data;
      ghost var others, e;
      var start;
      start, others, e := cache.GetData(point, l);
      RowsAfter(K, len0, data0, others[..e], cache.len, cache.data, point);
      if start < l {
        for j := 0 to l
          invariant cache.Valid() && |cache.data| == l && |cache.data[point]| == cache.len[point] == l
          invariant cache.data[point][..j] == K[point][..j]
          invariant forall h :: 0 <= h < l && h != point ==> cache.data[h] <= K[h]
        {
          cache.data := cache.data[point := cache.data[point][j := K[point][j]]];
        }
      }
    }

    /** Copies a row in the present order. */
    method Reorder(row: array<real>, i: nat, want: nat)
      requires Valid() && i < 2 * |K| && want <= 2 * |K| == row.Length && cache.data[index[i]] == K[index[i]]
      modifies row
      ensures forall j :: 0 <= j < want ==> row[j] == DoubledEntry(K, order[i], order[j])
    {
      hide Cache.Valid;
      var data := cache.data[index[i]];
      for j := 0 to want
        invariant forall k :: 0 <= k < j ==> row[k] == DoubledEntry(K, order[i], order[k])
      {
        row[j] := (sign[i] * sign[j]) as real * data[index[j]];
      }
    }

    /** The first `want` entries of row i, in the buffer whose turn it is. */
    method GetQ(i: nat, want: nat) returns (row: array<real>)
      requires Valid() && i < 2 * |K| && want <= 2 * |K|
      modifies this`nextBuffer, cache, Buffer(nextBuffer)
      ensures Valid() && row == Buffer(old(nextBuffer)) && row.Length == 2 * |K| && nextBuffer == 1 - old(nextBuffer)
      ensures forall j :: 0 <= j < want ==> row[j] == DoubledEntry(K, order[i], order[j])
    {
      hide Cache.Valid, DoubledEntry;
      KernelRow(index[i]);
      row := Buffer(nextBuffer);
      Reorder(row, i, want);
      nextBuffer := 1 - nextBuffer;
    }

    /** Of two rows requested one after the other the first is not overwritten. */
    method GetPair(i: nat, j: nat, want: nat) returns (rowI: array<real>, rowJ: array<real>)
      requires Valid() && i < 2 * |K| && j < 2 * |K| && want <= 2 * |K|
      modifies this`nextBuffer, cache, buffer0, buffer1
      ensures Valid() && rowI != rowJ && rowI.Length == rowJ.Length == 2 * |K| && nextBuffer == old(nextBuffer)
      ensures forall k :: 0 <= k < want ==> rowI[k] == DoubledEntry(K, order[i], order[k])
      ensures forall k :: 0 <= k < want ==> rowJ[k] == DoubledEntry(K, order[j], order[k])
    {
      hide Cache.Valid, DoubledEntry;
      rowI := GetQ(i, want);
      rowJ := GetQ(j, want);
    }

    method SwapIndex(i: nat, j: nat)
      requires Valid() && i < 2 * |K| && j < 2 * |K|
      modifies this`sign, this`index, this`QD, this`order
      ensures Valid() && order == Swapped(old(order), i, j) && QD == Swapped(old(QD), i, j)
    {
      hide Cache.Valid, Ordered, Diagonal;
      OrderSize(K, order, sign, index, QD);
      SwapKeeps(K, order, sign, index, QD, i, j);
      sign := Swapped(sign, i, j);
      index := Swapped(index, i, j);
      QD := Swapped(QD, i, j);
      order := Swapped(order, i, j);
    }
  }
}
