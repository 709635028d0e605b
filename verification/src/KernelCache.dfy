/** The least-recently-used cache of kernel rows: a circular list threaded through the row headers.
    A header is named by its row number and the list's own header by `l`. */
module KernelCache {
  import opened Swaps

  /** Position k of the circle that starts and ends at the list's own header. */
  ghost function Node(ring: seq<nat>, l: nat, k: int): nat {
    if 0 <= k < |ring| then ring[k] else l
  }

  ghost predicate Distinct(ring: seq<nat>) {
    forall a, b :: 0 <= a < b < |ring| ==> ring[a] != ring[b]
  }

  /** next and prev thread exactly the rows of `ring`, in that order. */
  ghost predicate Linked(next: seq<nat>, prev: seq<nat>, ring: seq<nat>, l: nat) {
    && |next| == |prev| == l + 1
    && Distinct(ring)
    && (forall k :: 0 <= k < |ring| ==> ring[k] < l)
    && (forall k :: 0 <= k <= |ring| ==> next[Node(ring, l, k - 1)] == Node(ring, l, k))
    && (forall k :: 0 <= k <= |ring| ==> prev[Node(ring, l, k)] == Node(ring, l, k - 1))
  }

  function Without(ring: seq<nat>, q: nat): seq<nat>
    requires q < |ring|
  {
    ring[..q] + ring[q + 1..]
  }

  lemma WithoutMembers(ring: seq<nat>, q: nat)
    requires q < |ring| && Distinct(ring)
    ensures forall h :: h in Without(ring, q) <==> h in ring && h != ring[q]
    ensures Distinct(Without(ring, q))
  {
    forall h | h in ring && h != ring[q]
      ensures h in Without(ring, q)
    {
      var k :| 0 <= k < |ring| && ring[k] == h;
      assert h == Without(ring, q)[if k < q then k else k - 1];
    }
  }

  /** Unlinking a row leaves the others threaded in the same order. */
  lemma UnlinkKeeps(next: seq<nat>, prev: seq<nat>, ring: seq<nat>, l: nat, q: nat)
    requires Linked(next, prev, ring, l) && q < |ring|
    ensures next[ring[q]] <= l && prev[ring[q]] <= l
    ensures var h := ring[q];
      Linked(next[prev[h] := next[h]], prev[next[h] := prev[h]], Without(ring, q), l)
  {
    var h, r := ring[q], Without(ring, q);
    assert next[Node(ring, l, q)] == Node(ring, l, q + 1) by { assert Node(ring, l, q + 1 - 1) == h; }
    assert prev[Node(ring, l, q)] == Node(ring, l, q - 1);
    var n', p' := next[prev[h] := next[h]], prev[next[h] := prev[h]];
    forall k | 0 <= k <= |r|
      ensures n'[Node(r, l, k - 1)] == Node(r, l, k) && p'[Node(r, l, k)] == Node(r, l, k - 1)
    {
      assert Node(r, l, k) == Node(ring, l, if k < q then k else k + 1);
      assert Node(r, l, k - 1) == Node(ring, l, if k - 1 < q then k - 1 else k);
      if k < q {
        assert next[Node(ring, l, k - 1)] == Node(ring, l, k) && prev[Node(ring, l, k)] == Node(ring, l, k - 1);
      } else if k > q {
        assert next[Node(ring, l, k)] == Node(ring, l, k + 1) by {
          assert next[Node(ring, l, k + 1 - 1)] == Node(ring, l, k + 1);
        }
        assert prev[Node(ring, l, k + 1)] == Node(ring, l, k) by {
          assert prev[Node(ring, l, k + 1)] == Node(ring, l, k + 1 - 1);
        }
      }
    }
  }

  /** Inserting a row at the end threads it last. */
  lemma AppendKeeps(next: seq<nat>, prev: seq<nat>, ring: seq<nat>, l: nat, h: nat)
    requires Linked(next, prev, ring, l) && h < l && h !in ring
    ensures prev[l] <= l
    ensures Linked(next[h := l][prev[l] := h], prev[h := prev[l]][l := h], ring + [h], l)
  {
    var r := ring + [h];
    assert prev[l] == Node(ring, l, |ring| - 1) by { assert prev[Node(ring, l, |ring|)] == Node(ring, l, |ring| - 1); }
    var n', p' := next[h := l][prev[l] := h], prev[h := prev[l]][l := h];
    forall k | 0 <= k <= |r|
      ensures n'[Node(r, l, k - 1)] == Node(r, l, k) && p'[Node(r, l, k)] == Node(r, l, k - 1)
    {
      if k < |ring| {
        assert Node(r, l, k) == Node(ring, l, k) && Node(r, l, k - 1) == Node(ring, l, k - 1);
        assert next[Node(ring, l, k - 1)] == Node(ring, l, k) && prev[Node(ring, l, k)] == Node(ring, l, k - 1);
      }
    }
  }

  /** A row that reaches into the exchanged columns but does not hold both is given up. */
  function Kept(lo: nat, hi: nat, n: nat): nat {
    if lo < n <= hi then 0 else n
  }

  /** Row r' is what remains of row r after its columns lo < hi are exchanged. */
  ghost predicate ColumnsExchanged(lo: nat, hi: nat, r: seq<real>, r': seq<real>) {
    && |r'| == Kept(lo, hi, |r|)
    && forall b :: 0 <= b < |r'| ==> Exchange(lo, hi, b) < |r| && r'[b] == r[Exchange(lo, hi, b)]
  }

  lemma ProcessRow(lo: nat, hi: nat, r: seq<real>)
    requires lo < hi
    ensures |r| > hi ==> ColumnsExchanged(lo, hi, r, Swapped(r, lo, hi))
    ensures lo < |r| <= hi ==> ColumnsExchanged(lo, hi, r, [])
    ensures |r| <= lo ==> ColumnsExchanged(lo, hi, r, r)
  {
  }

  /** Number of cached entries. */
  ghost function Total(len: seq<nat>): nat {
    if |len| == 0 then 0 else Total(len[..|len| - 1]) + len[|len| - 1]
  }

  lemma {:induction false} TotalUpdate(len: seq<nat>, h: nat, v: nat)
    requires h < |len|
    ensures Total(len[h := v]) == Total(len) - len[h] + v
  {
    var n := |len| - 1;
    if h < n {
      TotalUpdate(len[..n], h, v);
      assert len[h := v][..n] == len[..n][h := v];
    } else {
      assert len[h := v][..n] == len[..n];
    }
  }

  lemma {:induction false} TotalZero(len: seq<nat>)
    requires forall h :: 0 <= h < |len| ==> len[h] == 0
    ensures Total(len) == 0
  {
    if |len| > 0 {
      TotalZero(len[..|len| - 1]);
    }
  }

  lemma TotalSwap(len: seq<nat>, i: nat, j: nat)
    requires i < |len| && j < |len|
    ensures Total(Swapped(len, i, j)) == Total(len)
  {
    TotalUpdate(len, i, len[j]);
    TotalUpdate(len[i := len[j]], j, len[i]);
  }

  /** If only two rows are cached, the cache holds no more than two rows' worth. */
  lemma TotalOfTwo(len: seq<nat>, a: nat, b: nat)
    requires a < |len| && b < |len|
    requires forall h :: 0 <= h < |len| && h != a && h != b ==> len[h] == 0
    ensures Total(len) <= len[a] + len[b]
  {
    TotalUpdate(len, a, 0);
    TotalUpdate(len[a := 0], b, 0);
    TotalZero(len[a := 0][b := 0]);
  }

  /** The rows of `gone` have lost their entries; every other row is as it was. */
  ghost predicate Forgot(len: seq<nat>, data: seq<seq<real>>, gone: seq<nat>, len': seq<nat>, data': seq<seq<real>>) {
    && |len| == |data| == |len'| == |data'|
    && (forall h :: 0 <= h < |len| && h !in gone ==> len'[h] == len[h] && data'[h] == data[h])
    && (forall h :: 0 <= h < |len| && h in gone ==> len'[h] == 0)
  }

  lemma ForgotNone(len: seq<nat>, data: seq<seq<real>>)
    requires |len| == |data|
    ensures forall ring: seq<nat> {:trigger ring[..0]} :: Forgot(len, data, ring[..0], len, data)
  {
  }

  lemma ForgetNext(len: seq<nat>, data: seq<seq<real>>, ring: seq<nat>, e: nat, len': seq<nat>, data': seq<seq<real>>)
    requires e < |ring| && Distinct(ring) && ring[e] < |len|
    requires Forgot(len, data, ring[..e], len', data')
    ensures Forgot(len, data, ring[..e + 1], len'[ring[e] := 0], data'[ring[e] := []])
    ensures len'[ring[e]] == len[ring[e]]
  {
    assert ring[..e + 1] == ring[..e] + [ring[e]];
    assert ring[e] !in ring[..e];
  }

  class Cache {
    const l: nat
    ghost const capacity: int
    var size: int
    var next: seq<nat>
    var prev: seq<nat>
    var len: seq<nat>
    var data: seq<seq<real>>
    ghost var ring: seq<nat>

    /** Row `busy` (or none, if it is l) is out of the list while its header is being changed. */
    ghost predicate ValidBut(busy: nat)
      reads this
    {
      && Linked(next, prev, ring, l) && busy !in ring
      && Distinct(ring) && (forall k :: 0 <= k < |ring| ==> ring[k] < l)
      && |len| == |data| == l && |next| == l + 1
      && (forall h :: 0 <= h < l ==> |data[h]| == len[h] <= l)
      && (forall h :: 0 <= h < l && h != busy ==> (len[h] > 0 <==> h in ring))
      && size >= 0 && size + Total(len) == capacity && capacity >= 2 * l
    }

    /** The list holds exactly the rows that have entries, and no entry is lost or counted twice. */
    ghost predicate Valid()
      reads this
    {
      ValidBut(l)
    }

    constructor (l: nat, budget: int)
      ensures Valid() && this.l == l && ring == [] && len == seq(l, _ => 0)
      ensures capacity == if budget > 2 * l then budget else 2 * l
    {
      this.l := l;
      this.capacity := if budget > 2 * l then budget else 2 * l;
      size := if budget > 2 * l then budget else 2 * l;
      next, prev := seq(l + 1, _ => l), seq(l + 1, _ => l);
      len, data := seq(l, _ => 0), seq(l, _ => []);
      ring := [];
      new;
      TotalZero(len);
    }

    method LruDelete(h: nat, ghost q: nat)
      requires Linked(next, prev, ring, l) && q < |ring| && ring[q] == h
      modifies this`next, this`prev, this`ring
      ensures Linked(next, prev, ring, l) && ring == Without(old(ring), q) && h !in ring
      ensures next[h] == old(next[h])
    {
      UnlinkKeeps(next, prev, ring, l, q);
      ring := Without(ring, q);
      next, prev := next[prev[h] := next[h]], prev[next[h] := prev[h]];
    }

    method LruInsert(h: nat)
      requires Linked(next, prev, ring, l) && h < l && h !in ring
      modifies this`next, this`prev, this`ring
      ensures Linked(next, prev, ring, l) && ring == old(ring) + [h]
    {
      AppendKeeps(next, prev, ring, l, h);
      ring := ring + [h];
      var last := prev[l];
      next, prev := next[h := l][last := h], prev[h := last][l := h];
    }

    /** Forgets a row's entries. */
    method Release(h: nat, ghost busy: nat)
      requires ValidBut(busy) && h < l && h in ring
      modifies this`next, this`prev, this`ring, this`size, this`len, this`data
      ensures ValidBut(busy)
      ensures exists q :: 0 <= q < |old(ring)| && old(ring)[q] == h && ring == Without(old(ring), q)
      ensures len == old(len)[h := 0] && data == old(data)[h := []] && size == old(size) + old(len[h])
      ensures next[h] == old(next[h])
    {
      hide Linked, Without;
      ghost var q :| 0 <= q < |ring| && ring[q] == h;
      WithoutMembers(ring, q);
      LruDelete(h, q);
      TotalUpdate(len, h, 0);
      size := size + len[h];
      data := data[h := []];
      len := len[h := 0];
    }

    method ReleaseOldest(ghost busy: nat)
      requires ValidBut(busy) && ring != []
      modifies this`next, this`prev, this`ring, this`size, this`len, this`data
      ensures ValidBut(busy) && ring == old(ring)[1..]
      ensures old(ring)[0] < l && len == old(len)[old(ring)[0] := 0] && data == old(data)[old(ring)[0] := []]
      ensures size == old(size) + old(len)[old(ring)[0]]
    {
      var oldest := next[l];
      assert oldest == ring[0] by { assert next[Node(ring, l, 0 - 1)] == Node(ring, l, 0); }
      assert Distinct(ring);
      Release(oldest, busy);
    }

    /** Evicts from the old end until `more` entries fit. The newest row of the list is never reached. */
    method MakeRoom(busy: nat, more: nat) returns (ghost e: nat)
      requires ValidBut(busy) && busy < l && len[busy] + more <= l
      modifies this`next, this`prev, this`ring, this`size, this`len, this`data
      ensures ValidBut(busy) && size >= more
      ensures e <= |old(ring)| && ring == old(ring)[e..] && (old(ring) != [] ==> ring != [])
      ensures e > 0 ==> old(ring)[e - 1] < l && size < more + old(len)[old(ring)[e - 1]]
      ensures Forgot(old(len), old(data), old(ring)[..e], len, data)
      ensures len[busy] == old(len)[busy] && data[busy] == old(data)[busy]
    {
      hide Linked, Forgot, Total, Distinct;
      e := 0;
      ForgotNone(len, data);
      while size < more
        invariant ValidBut(busy) && e <= |old(ring)| && ring == old(ring)[e..] && (old(ring) != [] ==> ring != [])
        invariant e > 0 ==> old(ring)[e - 1] < l && size < more + old(len)[old(ring)[e - 1]]
        invariant Forgot(old(len), old(data), old(ring)[..e], len, data)
        invariant len[busy] == old(len)[busy] && data[busy] == old(data)[busy]
        decreases |ring|
      {
        TwoRowsFit(busy, more);
        ForgetNext(old(len), old(data), old(ring), e, len, data);
        ReleaseOldest(busy);
        e := e + 1;
      }
    }

    lemma TwoRowsFit(busy: nat, more: nat)
      requires ValidBut(busy) && busy < l && len[busy] + more <= l && size < more
      ensures |ring| >= 2
    {
      if |ring| < 2 {
        TotalOfTwo(len, busy, if |ring| == 1 then ring[0] else busy);
      }
    }

    /** Requests the first `want` entries of a row and makes it the newest row. The entries from `start` on
        are the caller's to fill. */
    method GetData(index: nat, want: nat) returns (start: nat, ghost others: seq<nat>, ghost e: nat)
      requires Valid() && index < l && 1 <= want <= l
      modifies this`next, this`prev, this`ring, this`size, this`len, this`data
      ensures Valid()
      ensures start == if old(len)[index] < want then old(len)[index] else want
      ensures len[index] == (if old(len)[index] < want then want else old(len)[index])
      ensures start <= |data[index]| && data[index][..start] == old(data)[index][..start]
      ensures old(len)[index] >= want ==> data == old(data) && len == old(len) && e == 0
      ensures others == RowsBut(old(ring), index) && e <= |others| && ring == others[e..] + [index]
      ensures others != [] ==> e < |others|
      ensures e > 0 ==> others[e - 1] < l && size < old(len)[others[e - 1]]
      ensures |len| == |data| == l && Forgot(old(len), old(data), others[..e], len[index := old(len)[index]],
            data[index := old(data)[index]])
    {
      hide Linked, Distinct, Forgot, Total;
      e := 0;
      TakeOut(index);
      others := ring;
      start := want;
      if want > len[index] {
        var more := want - len[index];
        e := MakeRoom(index, more);
        ghost var len1, data1 := len, data;
        Allocate(index, want);
        assert len[index := old(len)[index]] == len1 && data[index := old(data)[index]] == data1;
        start := want - more;
      } else {
        assert len[index := old(len)[index]] == len && data[index := old(data)[index]] == data;
        ForgotNone(len, data);
      }
      PutLast(index);
    }

    method TakeOut(index: nat)
      requires Valid() && index < l
      modifies this`next, this`prev, this`ring
      ensures ValidBut(index) && ring == RowsBut(old(ring), index)
    {
      RowsButMember(ring, index);
      if len[index] > 0 {
        ghost var q :| 0 <= q < |ring| && ring[q] == index;
        RowsButIsWithout(ring, index, q);
        LruDelete(index, q);
      }
    }

    method PutLast(index: nat)
      requires ValidBut(index) && index < l && len[index] > 0
      modifies this`next, this`prev, this`ring
      ensures Valid() && ring == old(ring) + [index]
    {
      LruInsert(index);
    }

    /** Takes two rows out, exchanges their contents and puts back, as newest, those that hold entries. */
    method ExchangeRows(i: nat, j: nat)
      requires Valid() && i < l && j < l && i != j
      modifies this`next, this`prev, this`ring, this`len, this`data
      ensures Valid() && len == Swapped(old(len), i, j) && data == Swapped(old(data), i, j)
    {
      hide Linked, Without, Distinct, Total;
      Unlink(i);
      Unlink(j);
      TotalSwap(len, i, j);
      data := Swapped(data, i, j);
      len := Swapped(len, i, j);
      Relink(i);
      Relink(j);
      assert forall h :: 0 <= h < l ==> |data[h]| == len[h] <= l;
    }

    method Unlink(h: nat)
      requires Linked(next, prev, ring, l) && Distinct(ring) && h < |len| && (h in ring <==> len[h] > 0)
      modifies this`next, this`prev, this`ring
      ensures Linked(next, prev, ring, l) && Distinct(ring)
      ensures forall k :: k in ring <==> k in old(ring) && k != h
    {
      hide Linked, Without, Distinct;
      if len[h] > 0 {
        ghost var q :| 0 <= q < |ring| && ring[q] == h;
        WithoutMembers(ring, q);
        LruDelete(h, q);
      }
    }

    method Relink(h: nat)
      requires Linked(next, prev, ring, l) && h < |len| == l && h !in ring
      modifies this`next, this`prev, this`ring
      ensures Linked(next, prev, ring, l) && Distinct(ring) && |next| == l + 1
      ensures forall k :: 0 <= k < |ring| ==> ring[k] < l
      ensures forall k :: k in ring <==> k in old(ring) || (k == h && len[h] > 0)
    {
      if len[h] > 0 {
        LruInsert(h);
      }
    }

    /** Exchanges positions i and j: rows i and j change places, and so do entries i and j of every row. Exactly
        the rows that hold one of the two entries but not the other are dropped. */
    method SwapIndex(i: nat, j: nat)
      requires Valid() && i < l && j < l
      modifies this`next, this`prev, this`ring, this`size, this`len, this`data
      ensures Valid()
      ensures i == j ==> data == old(data)
      ensures i != j ==> forall h :: 0 <= h < l ==>
        ColumnsExchanged(if i < j then i else j, if i < j then j else i, old(data)[Exchange(i, j, h)], data[h])
    {
      if i == j {
        return;
      }
      ExchangeRows(i, j);
      if i < j {
        ExchangeColumns(i, j);
      } else {
        ExchangeColumns(j, i);
      }
    }

    method ExchangeColumns(lo: nat, hi: nat)
      requires Valid() && lo < hi < l
      modifies this`next, this`prev, this`ring, this`size, this`len, this`data
      ensures Valid()
      ensures forall h :: 0 <= h < l ==> ColumnsExchanged(lo, hi, old(data)[h], data[h])
    {
      hide Linked, Distinct, ColumnsExchanged, Total;
      var h := next[l];
      ghost var k: nat := 0;
      FirstNode();
      NothingToExchange(lo, hi);
      while h != l
        invariant Valid() && k <= |ring| && h == Node(ring, l, k) && Halfway(lo, hi, old(data), k)
        decreases |ring| - k
      {
        k := ExchangeInRow(lo, hi, h, old(data), k);
        h := next[h];
      }
    }

    /** The rows from position k of the list on are as in `before`; all others are done. */
    ghost predicate Halfway(lo: nat, hi: nat, before: seq<seq<real>>, k: nat)
      requires k <= |ring|
      reads this
    {
      |before| == |data| && forall r :: 0 <= r < |data| ==>
        if r in ring[k..] then data[r] == before[r] else ColumnsExchanged(lo, hi, before[r], data[r])
    }

    method ExchangeInRow(lo: nat, hi: nat, h: nat, ghost before: seq<seq<real>>, ghost k: nat) returns (ghost k': nat)
      requires Valid() && lo < hi < l && k < |ring| && h == ring[k] && Halfway(lo, hi, before, k)
      modifies this`next, this`prev, this`ring, this`size, this`len, this`data
      ensures Valid() && k' <= |ring| && next[h] == Node(ring, l, k') && Halfway(lo, hi, before, k')
      ensures |ring| - k' < |old(ring)| - k
    {
      hide Linked, Without, Distinct, ColumnsExchanged, Total;
      NextNode(k);
      ProcessRow(lo, hi, data[h]);
      k' := k + 1;
      if len[h] > lo {
        if len[h] > hi {
          data := data[h := Swapped(data[h], lo, hi)];
        } else {
          Release(h, l);
          k' := k;
        }
      }
    }

    lemma FirstNode()
      requires Valid()
      ensures next[l] == Node(ring, l, 0)
    {
      assert next[Node(ring, l, 0 - 1)] == Node(ring, l, 0);
    }

    lemma NextNode(k: nat)
      requires Valid() && k < |ring|
      ensures next[ring[k]] == Node(ring, l, k + 1)
      ensures Node(Without(ring, k), l, k) == Node(ring, l, k + 1)
      ensures |Without(ring, k)| == |ring| - 1 && Without(ring, k)[k..] == ring[k + 1..] && ring[k] !in ring[k + 1..]
      ensures ring[k..] == [ring[k]] + ring[k + 1..]
      ensures forall q :: 0 <= q < |ring| && ring[q] == ring[k] ==> q == k
    {
      assert next[Node(ring, l, k + 1 - 1)] == Node(ring, l, k + 1);
    }

    lemma NothingToExchange(lo: nat, hi: nat)
      requires Valid()
      ensures Halfway(lo, hi, data, 0)
    {
    }

    /** Extends a row's buffer; the new entries are unspecified. */
    method Allocate(h: nat, want: nat)
      requires ValidBut(h) && h < l && len[h] < want <= l && size >= want - len[h]
      modifies this`size, this`len, this`data
      ensures ValidBut(h)
      ensures len == old(len)[h := want] && size == old(size) - (want - old(len)[h])
      ensures |data| == l && |data[h]| == want && data == old(data)[h := data[h]]
            && data[h][..old(len)[h]] == old(data)[h]
    {
      TotalUpdate(len, h, want);
      size := size - (want - len[h]);
      data := data[h := data[h] + seq(want - len[h], _ => 0.0)];
      len := len[h := want];
    }
  }

  /** The rows of a list other than h, in order. */
  ghost function RowsBut(ring: seq<nat>, h: nat): seq<nat> {
    if |ring| == 0 then [] else if ring[0] == h then RowsBut(ring[1..], h) else [ring[0]] + RowsBut(ring[1..], h)
  }

  lemma {:induction false} RowsButMember(ring: seq<nat>, h: nat)
    ensures h !in ring ==> RowsBut(ring, h) == ring
  {
    if |ring| > 0 {
      RowsButMember(ring[1..], h);
    }
  }

  lemma {:induction false} RowsButIsWithout(ring: seq<nat>, h: nat, q: nat)
    requires Distinct(ring) && q < |ring| && ring[q] == h
    ensures RowsBut(ring, h) == Without(ring, q)
  {
    if q == 0 {
      RowsButMember(ring[1..], h);
    } else {
      RowsButIsWithout(ring[1..], h, q - 1);
    }
  }

  lemma {:induction false} RowsButKeeps(ring: seq<nat>, h: nat)
    requires Distinct(ring)
    ensures Distinct(RowsBut(ring, h)) && forall k :: k in RowsBut(ring, h) <==> k in ring && k != h
    ensures ring != [] && ring[|ring| - 1] != h ==>
      RowsBut(ring, h) != [] && RowsBut(ring, h)[|RowsBut(ring, h)| - 1] == ring[|ring| - 1]
  {
    if |ring| > 0 {
      RowsButKeeps(ring[1..], h);
      assert ring == [ring[0]] + ring[1..];
      assert ring[0] !in ring[1..];
    }
  }

  /** Whatever a request evicts, the newest other row keeps its entries. */
  lemma NewestSurvives(len: seq<nat>, data: seq<seq<real>>, ring: seq<nat>, h: nat, e: nat, len': seq<nat>,
                       data': seq<seq<real>>)
    requires Distinct(ring) && ring != [] && ring[|ring| - 1] != h && ring[|ring| - 1] < |len|
    requires e <= |RowsBut(ring, h)| && (RowsBut(ring, h) != [] ==> e < |RowsBut(ring, h)|)
    requires Forgot(len, data, RowsBut(ring, h)[..e], len', data')
    ensures data'[ring[|ring| - 1]] == data[ring[|ring| - 1]]
  {
    RowsButKeeps(ring, h);
    var others := RowsBut(ring, h);
    assert others[|others| - 1] !in others[..e];
  }
}
