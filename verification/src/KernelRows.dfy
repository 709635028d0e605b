/** The label-signed kernel matrix as the solver sees it: permuted by swaps, read by rows through the cache. */
module KernelRows {
  import opened Swaps
  import opened KernelCache

  /** Entry (i, j) of the matrix for points x[i], x[j] with labels y[i], y[j]. */
  function Entry(K: seq<seq<real>>, x: seq<nat>, y: seq<int>, i: nat, j: nat): real
    requires i < |x| && j < |x| && |x| == |y| && x[i] < |K| && x[j] < |K[x[i]]|
  {
    (y[i] * y[j]) as real * K[x[i]][x[j]]
  }

  ghost predicate Points(K: seq<seq<real>>, x: seq<nat>, y: seq<int>, l: nat) {
    && |K| == |x| == |y| == l
    && (forall i :: 0 <= i < l ==> |K[i]| == l)
    && (forall i :: 0 <= i < l ==> x[i] < l)
  }

  /** A row holds the first |row| entries of row h of the permuted matrix. */
  ghost predicate RowOf(K: seq<seq<real>>, x: seq<nat>, y: seq<int>, h: nat, row: seq<real>)
    requires Points(K, x, y, |K|) && h < |K|
  {
    |row| <= |K| && forall b :: 0 <= b < |row| ==> row[b] == Entry(K, x, y, h, b)
  }

  /** Exchanging columns in a row is the same as exchanging points in the matrix. */
  lemma ExchangeIsPermutation(K: seq<seq<real>>, x: seq<nat>, y: seq<int>, i: nat, j: nat, h: nat, r: seq<real>,
                              r': seq<real>)
    requires Points(K, x, y, |K|) && i < |K| && j < |K| && i != j && h < |K|
    requires RowOf(K, x, y, Exchange(i, j, h), r)
    requires ColumnsExchanged(if i < j then i else j, if i < j then j else i, r, r')
    ensures Points(K, Swapped(x, i, j), Swapped(y, i, j), |K|)
    ensures RowOf(K, Swapped(x, i, j), Swapped(y, i, j), h, r')
  {
    var x', y' := Swapped(x, i, j), Swapped(y, i, j);
    assert Points(K, x', y', |K|);
    forall b | 0 <= b < |r'|
      ensures r'[b] == Entry(K, x', y', h, b)
    {
      EntryExchanged(K, x, y, i, j, h, b);
      assert r'[b] == r[Exchange(i, j, b)];
    }
  }

  lemma EntryExchanged(K: seq<seq<real>>, x: seq<nat>, y: seq<int>, i: nat, j: nat, h: nat, b: nat)
    requires Points(K, x, y, |K|) && i < |K| && j < |K| && h < |K| && b < |K|
    requires Points(K, Swapped(x, i, j), Swapped(y, i, j), |K|)
    ensures Entry(K, Swapped(x, i, j), Swapped(y, i, j), h, b) == Entry(K, x, y, Exchange(i, j, h), Exchange(i, j, b))
  {
    var x', y' := Swapped(x, i, j), Swapped(y, i, j);
    assert x'[h] == x[Exchange(i, j, h)] && y'[h] == y[Exchange(i, j, h)];
    assert x'[b] == x[Exchange(i, j, b)] && y'[b] == y[Exchange(i, j, b)];
  }

  class SvcQ {
    const K: seq<seq<real>>
    const cache: Cache
    var x: seq<nat>
    var y: seq<int>
    var QD: seq<real>

    /** Every cached prefix agrees with the permuted matrix. */
    ghost predicate Valid()
      reads this, cache
    {
      && cache.Valid() && cache.l == |K| && Points(K, x, y, |K|)
      && (forall h :: 0 <= h < |K| ==> RowOf(K, x, y, h, cache.data[h]))
      && |QD| == |K| && (forall i :: 0 <= i < |K| ==> QD[i] == K[x[i]][x[i]])
    }

    constructor (K: seq<seq<real>>, y: seq<int>, budget: int)
      requires |K| == |y| && forall i :: 0 <= i < |K| ==> |K[i]| == |K|
      ensures Valid() && this.K == K && this.y == y && x == seq(|K|, i => i) && fresh(cache)
    {
      this.K, this.y := K, y;
      x := seq(|K|, i => i);
      QD := seq(|K|, i requires 0 <= i < |K| => K[i][i]);
      cache := new Cache(|K|, budget);
      new;
      assert forall h :: 0 <= h < |K| ==> |cache.data[h]| == cache.len[h] == 0;
    }

    /** The row that was used last before a request for row i, if it is another one, is still cached after it. */
    twostate predicate NewestKept(i: nat)
      reads this, cache
    {
      var ring := old(cache.ring);
      ring != [] && ring[|ring| - 1] != i ==>
        ring[|ring| - 1] < |cache.data| == |old(cache.data)|
        && cache.data[ring[|ring| - 1]] == old(cache.data)[ring[|ring| - 1]]
    }

    /** The first `want` entries of row i. */
    method GetQ(i: nat, want: nat) returns (row: seq<real>)
      requires Valid() && i < |K| && 1 <= want <= |K|
      modifies cache
      ensures Valid() && cache.data[i] == row && |row| >= want && RowOf(K, x, y, i, row)
      ensures cache.ring != [] && cache.ring[|cache.ring| - 1] == i
      ensures NewestKept(i) && (|old(cache.data)[i]| >= want ==> cache.data == old(cache.data))
    {
      hide Linked, Total, Distinct, Entry;
      var start := Request(i, want);
      if start < want {
        Fill(i, start, want);
      }
      row := cache.data[i];
    }

    method Request(i: nat, want: nat) returns (start: nat)
      requires Valid() && i < |K| && 1 <= want <= |K|
      modifies cache
      ensures cache.Valid() && start <= want <= |cache.data[i]| && (start < want ==> |cache.data[i]| == want)
      ensures RowOf(K, x, y, i, if start < want then cache.data[i][..start] else cache.data[i])
      ensures forall h :: 0 <= h < |K| && h != i ==> RowOf(K, x, y, h, cache.data[h])
      ensures cache.ring != [] && cache.ring[|cache.ring| - 1] == i
      ensures NewestKept(i) && (|old(cache.data)[i]| >= want ==> start == want && cache.data == old(cache.data))
    {
      hide Linked, Total, Entry, Forgot, RowsBut;
      ghost var others, e;
      ghost var ring, len0, data0 := cache.ring, cache.len, cache.data;
      start, others, e := cache.GetData(i, want);
      if ring != [] && ring[|ring| - 1] != i {
        NewestSurvives(len0, data0, ring, i, e, cache.len[i := len0[i]], cache.data[i := data0[i]]);
      }
      RowsAfter(len0, data0, others[..e], cache.len, cache.data, i);
    }

    /** Rows other than i are as before or empty. */
    lemma RowsAfter(len: seq<nat>, data: seq<seq<real>>, gone: seq<nat>, len': seq<nat>, data': seq<seq<real>>, i: nat)
      requires Points(K, x, y, |K|) && i < |K| && |len| == |data| == |len'| == |data'| == |K|
      requires forall h :: 0 <= h < |K| ==> RowOf(K, x, y, h, data[h])
      requires forall h :: 0 <= h < |K| ==> |data'[h]| == len'[h]
      requires Forgot(len, data, gone, len'[i := len[i]], data'[i := data[i]])
      ensures forall h :: 0 <= h < |K| && h != i ==> RowOf(K, x, y, h, data'[h])
    {
      forall h | 0 <= h < |K| && h != i
        ensures RowOf(K, x, y, h, data'[h])
      {
        assert len'[h] == len'[i := len[i]][h] && data'[h] == data'[i := data[i]][h];
      }
    }

    method Fill(i: nat, start: nat, want: nat)
      requires cache.Valid() && cache.l == |K| && Points(K, x, y, |K|) && i < |K| && start <= want == |cache.data[i]|
      requires forall b :: 0 <= b < start ==> cache.data[i][b] == Entry(K, x, y, i, b)
      modifies cache`data
      ensures cache.Valid() && |cache.data[i]| == old(|cache.data[i]|)
            && cache.data == old(cache.data)[i := cache.data[i]]
      ensures RowOf(K, x, y, i, cache.data[i])
    {
      for j := start to want
        invariant cache.Valid() && cache.data == old(cache.data)[i := cache.data[i]]
        invariant |cache.data[i]| == cache.len[i]
        invariant forall b :: 0 <= b < j ==> cache.data[i][b] == Entry(K, x, y, i, b)
      {
        cache.data := cache.data[i := cache.data[i][j := Entry(K, x, y, i, j)]];
      }
    }

    /** Two rows requested one after the other are both in the cache afterwards. */
    method GetPair(i: nat, j: nat, want: nat) returns (rowI: seq<real>, rowJ: seq<real>)
      requires Valid() && i < |K| && j < |K| && 1 <= want <= |K|
      modifies cache
      ensures Valid() && |rowI| >= want && |rowJ| >= want
      ensures RowOf(K, x, y, i, rowI) && RowOf(K, x, y, j, rowJ)
      ensures cache.data[i] == rowI && cache.data[j] == rowJ
    {
      hide Linked, Total, Distinct, Entry;
      rowI := GetQ(i, want);
      rowJ := GetQ(j, want);
    }

    method SwapIndex(i: nat, j: nat)
      requires Valid() && i < |K| && j < |K|
      modifies this, cache
      ensures Valid()
      ensures x == Swapped(old(x), i, j) && y == Swapped(old(y), i, j) && QD == Swapped(old(QD), i, j)
    {
      hide Linked, Total, Distinct, Entry, ColumnsExchanged;
      cache.SwapIndex(i, j);
      x := Swapped(x, i, j);
      y := Swapped(y, i, j);
      QD := Swapped(QD, i, j);
      if i == j {
        assert x == old(x) && y == old(y) && QD == old(QD);
      } else {
        forall h | 0 <= h < |K|
          ensures RowOf(K, x, y, h, cache.data[h])
        {
          ExchangeIsPermutation(K, old(x), old(y), i, j, h, old(cache.data)[Exchange(i, j, h)], cache.data[h]);
        }
      }
    }
  }
}
