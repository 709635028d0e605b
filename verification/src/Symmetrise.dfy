/** Symmetrising a compressed-sparse-row graph inside its own memory: search for missing inverses, spread the
    rows apart from the back, and fill the gaps. */
module Symmetrise {

  /** adj[u] lists the out-neighbours of u in strictly ascending order, without u itself. */
  ghost predicate Rows(adj: seq<seq<nat>>) {
    forall u :: 0 <= u < |adj| ==> RowOk(adj, u)
  }

  ghost predicate RowOk(adj: seq<seq<nat>>, u: nat)
    requires u < |adj|
  {
    && (forall i, j :: 0 <= i < j < |adj[u]| ==> adj[u][i] < adj[u][j])
    && (forall i :: 0 <= i < |adj[u]| ==> adj[u][i] < |adj| && adj[u][i] != u)
  }

  /** The edge (u, v) is there and its inverse is not. */
  predicate Lacks(adj: seq<seq<nat>>, u: nat, v: nat)
    requires u < |adj| && v < |adj|
  {
    v in adj[u] && u !in adj[v]
  }

  /** The sources below k whose edge to v lacks an inverse, in ascending order. */
  function Missing(adj: seq<seq<nat>>, v: nat, k: nat): (r: seq<nat>)
    requires v < |adj| && k <= |adj|
    ensures |r| <= k
    ensures forall i :: 0 <= i < |r| ==> r[i] < k && Lacks(adj, r[i], v)
    ensures forall i, j :: 0 <= i < j < |r| ==> r[i] < r[j]
  {
    if k == 0 then [] else if Lacks(adj, k - 1, v) then Missing(adj, v, k - 1) + [k - 1] else Missing(adj, v, k - 1)
  }

  lemma MissingStep(adj: seq<seq<nat>>, v: nat, u: nat)
    requires v < |adj| && u < |adj|
    ensures Missing(adj, v, u + 1) == Missing(adj, v, u) + (if v in adj[u] && u !in adj[v] then [u] else [])
  {
  }

  lemma {:induction false} MissingComplete(adj: seq<seq<nat>>, v: nat, k: nat, u: nat)
    requires v < |adj| && u < k <= |adj| && Lacks(adj, u, v)
    ensures u in Missing(adj, v, k)
  {
    if u < k - 1 {
      MissingComplete(adj, v, k - 1, u);
    }
  }

  lemma {:induction false} MissingGrows(adj: seq<seq<nat>>, v: nat, j: nat, k: nat)
    requires v < |adj| && j <= k <= |adj|
    ensures |Missing(adj, v, j)| <= |Missing(adj, v, k)|
    ensures j < k && Lacks(adj, j, v) ==> |Missing(adj, v, j)| < |Missing(adj, v, k)|
  {
    if j < k {
      MissingGrows(adj, v, j, k - 1);
    }
  }

  /** How many inverses v needs in all. */
  function Need(adj: seq<seq<nat>>, v: nat): nat
    requires v < |adj|
  {
    |Missing(adj, v, |adj|)|
  }

  /** Start of row u before, and after, room for inverses is made. */
  function Off(adj: seq<seq<nat>>, u: nat): nat
    requires u <= |adj|
  {
    if u == 0 then 0 else Off(adj, u - 1) + |adj[u - 1]|
  }

  function Needs(adj: seq<seq<nat>>, u: nat): nat
    requires u <= |adj|
  {
    if u == 0 then 0 else Needs(adj, u - 1) + Need(adj, u - 1)
  }

  function Wide(adj: seq<seq<nat>>, u: nat): nat
    requires u <= |adj|
  {
    Off(adj, u) + Needs(adj, u)
  }

  lemma {:induction false} OffsetsGrow(adj: seq<seq<nat>>, u: nat, w: nat)
    requires u <= w <= |adj|
    ensures Off(adj, u) <= Off(adj, w) && Needs(adj, u) <= Needs(adj, w)
    ensures u < w ==> Off(adj, u) + |adj[u]| <= Off(adj, w) && Needs(adj, u) + Need(adj, u) <= Needs(adj, w)
  {
    hide Missing, Need;
    if u < w {
      OffsetsGrow(adj, u, w - 1);
    }
  }

  /** Every list position belongs to exactly one row. */
  ghost predicate Packed(adj: seq<seq<nat>>, a: seq<nat>) {
    && |a| >= Off(adj, |adj|)
    && forall u :: 0 <= u < |adj| ==> PackedRow(adj, a, u)
  }

  ghost predicate PackedRow(adj: seq<seq<nat>>, a: seq<nat>, u: nat)
    requires u < |adj|
  {
    Off(adj, u) + |adj[u]| <= |a| && a[Off(adj, u)..Off(adj, u) + |adj[u]|] == adj[u]
  }

  /** Binary search as std::binary_search does it: it needs the slice only to be split by the key. */
  method BinarySearch(a: array<nat>, lo: nat, hi: nat, key: nat, ghost split: nat) returns (found: bool)
    requires lo <= split <= hi <= a.Length
    requires forall k :: lo <= k < split ==> a[k] < key
    requires forall k :: split <= k < hi ==> a[k] >= key
    ensures found <==> split < hi && a[split] == key
  {
    var first, count := lo, hi - lo;
    while count > 0
      invariant lo <= first && first + count <= hi
      invariant first <= split <= first + count
    {
      var step := count / 2;
      if a[first + step] < key {
        first := first + step + 1;
        count := count - (step + 1);
      } else {
        count := step;
      }
    }
    found := first != hi && !(key < a[first]);
  }

  lemma Splits(row: seq<nat>, key: nat) returns (split: nat)
    requires forall i, j :: 0 <= i < j < |row| ==> row[i] < row[j]
    ensures split <= |row|
    ensures forall k :: 0 <= k < split ==> row[k] < key
    ensures forall k :: split <= k < |row| ==> row[k] >= key
    ensures key in row <==> split < |row| && row[split] == key
  {
    split := 0;
    while split < |row| && row[split] < key
      invariant split <= |row| && forall k :: 0 <= k < split ==> row[k] < key
    {
      split := split + 1;
    }
  }

  ghost predicate IndexedBy(adj: seq<seq<nat>>, offsets: seq<nat>) {
    |offsets| == |adj| + 1 && forall u :: 0 <= u <= |adj| ==> offsets[u] == Off(adj, u)
  }

  ghost predicate WideBy(adj: seq<seq<nat>>, offsets: seq<nat>) {
    |offsets| == |adj| + 1 && forall u :: 0 <= u <= |adj| ==> offsets[u] == Wide(adj, u)
  }

  /** Is u in the (still packed) row v? */
  method HasInverse(ghost adj: seq<seq<nat>>, a: array<nat>, offsets: array<nat>, u: nat, v: nat) returns (found: bool)
    requires Rows(adj) && Packed(adj, a[..]) && IndexedBy(adj, offsets[..]) && u < |adj| && v < |adj|
    ensures found <==> u in adj[v]
  {
    hide Missing, Off;
    assert RowOk(adj, v) && PackedRow(adj, a[..], v);
    OffsetStep(adj, v);
    ghost var row := a[..][offsets[v]..offsets[v + 1]];
    assert row == adj[v];
    ghost var split := Splits(row, u);
    forall k | offsets[v] <= k < offsets[v + 1]
      ensures a[k] == row[k - offsets[v]]
    {
    }
    found := BinarySearch(a, offsets[v], offsets[v + 1], u, offsets[v] + split);
  }

  lemma OffsetStep(adj: seq<seq<nat>>, v: nat)
    requires v < |adj|
    ensures Off(adj, v + 1) == Off(adj, v) + |adj[v]|
    ensures Needs(adj, v + 1) == Needs(adj, v) + Need(adj, v)
    ensures Wide(adj, v) + Need(adj, v) + |adj[v]| == Wide(adj, v + 1)
  {
  }

  /** Step 1: how many inverses each vertex needs. */
  method CountMissing(ghost adj: seq<seq<nat>>, n: nat, a: array<nat>, offsets: array<nat>) returns (needed: array<nat>)
    requires Rows(adj) && Packed(adj, a[..]) && IndexedBy(adj, offsets[..]) && n == |adj|
    ensures fresh(needed) && needed.Length == n && forall v :: 0 <= v < n ==> needed[v] == Need(adj, v)
  {
    needed := new nat[n](_ => 0);
    for u := 0 to n
      invariant forall v :: 0 <= v < n ==> needed[v] == |Missing(adj, v, u)|
    {
      CountRow(adj, a, offsets, needed, u);
    }
  }

  method CountRow(ghost adj: seq<seq<nat>>, a: array<nat>, offsets: array<nat>, needed: array<nat>, u: nat)
    requires Rows(adj) && Packed(adj, a[..]) && IndexedBy(adj, offsets[..]) && u < |adj| == needed.Length
    requires needed != a && needed != offsets
    requires forall v :: 0 <= v < |adj| ==> needed[v] == |Missing(adj, v, u)|
    modifies needed
    ensures var next := u + 1; forall v :: 0 <= v < |adj| ==> needed[v] == |Missing(adj, v, next)|
  {
    hide Missing, Off;
    assert PackedRow(adj, a[..], u) && RowOk(adj, u);
    OffsetStep(adj, u);
    for i := offsets[u] to offsets[u + 1]
      invariant forall v :: 0 <= v < |adj| ==>
        needed[v] == |Missing(adj, v, u)| + (if v in adj[u][..i - offsets[u]] && u !in adj[v] then 1 else 0)
    {
      ghost var c := i - offsets[u];
      var v := a[i];
      assert v == a[..][Off(adj, u)..Off(adj, u) + |adj[u]|][c] == adj[u][c];
      assert adj[u][..c + 1] == adj[u][..c] + [v] && v !in adj[u][..c];
      var found := HasInverse(adj, a, offsets, u, v);
      if !found {
        needed[v] := needed[v] + 1;
      }
    }
    assert adj[u][..|adj[u]|] == adj[u];
    forall v | 0 <= v < |adj|
      ensures var next := u + 1; needed[v] == |Missing(adj, v, next)|
    {
      MissingStep(adj, v, u);
    }
  }

  /** Makes room in the offsets. */
  method WidenOffsets(ghost adj: seq<seq<nat>>, n: nat, offsets: array<nat>, needed: array<nat>) returns (total: nat)
    requires IndexedBy(adj, offsets[..]) && n == |adj| == needed.Length && offsets != needed
    requires forall v :: 0 <= v < n ==> needed[v] == Need(adj, v)
    modifies offsets
    ensures WideBy(adj, offsets[..]) && total == Needs(adj, n)
  {
    hide Off, Need;
    total := 0;
    for k := 0 to n
      invariant total == Needs(adj, k)
      invariant forall u :: 0 <= u < k ==> offsets[u] == Wide(adj, u)
      invariant forall u :: k <= u <= n ==> offsets[u] == Off(adj, u)
    {
      offsets[k] := offsets[k] + total;
      total := total + needed[k];
    }
    offsets[n] := offsets[n] + total;
  }

  /** Row u sits at the end of its wide slot. */
  ghost predicate SpreadRow(adj: seq<seq<nat>>, b: seq<nat>, u: nat)
    requires u < |adj|
  {
    Wide(adj, u) + Need(adj, u) <= Wide(adj, u + 1) <= |b| && b[Wide(adj, u) + Need(adj, u)..Wide(adj, u + 1)] == adj[u]
  }

  /** Rows from u on are spread; rows below u are still packed. */
  ghost predicate SpreadFrom(adj: seq<seq<nat>>, b: seq<nat>, u: nat)
    requires u <= |adj|
  {
    && Wide(adj, |adj|) <= |b|
    && (forall w :: 0 <= w < u ==> PackedRow(adj, b, w))
    && (forall w :: u <= w < |adj| ==> SpreadRow(adj, b, w))
  }

  /** Writing inside the wide slot of u, above its packed start, disturbs neither lower packed nor higher spread
      rows. */
  lemma SpreadFrame(adj: seq<seq<nat>>, b: seq<nat>, b': seq<nat>, u: nat)
    requires u < |adj| && SpreadFrom(adj, b, u + 1) && |b'| == |b|
    requires forall k :: 0 <= k < |b| && (k < Off(adj, u) || k >= Wide(adj, u + 1)) ==> b'[k] == b[k]
    ensures forall w :: 0 <= w < u ==> PackedRow(adj, b', w)
    ensures forall w :: u < w < |adj| ==> SpreadRow(adj, b', w)
  {
    hide Off, Need, Needs;
    forall w | 0 <= w < u
      ensures PackedRow(adj, b', w)
    {
      OffsetsGrow(adj, w, u);
      assert PackedRow(adj, b, w);
    }
    forall w | u < w < |adj|
      ensures SpreadRow(adj, b', w)
    {
      OffsetsGrow(adj, u + 1, w);
      assert SpreadRow(adj, b, w);
    }
  }

  /** Step 2: moves every row to the end of its wide slot, from the back, reading each entry before any write reaches
      it. */
  method Spread(ghost adj: seq<seq<nat>>, n: nat, b: array<nat>, offsets: array<nat>, needed: array<nat>, missing: nat)
    requires n == |adj| == needed.Length && WideBy(adj, offsets[..]) && b != offsets && b != needed
    requires forall v :: 0 <= v < n ==> needed[v] == Need(adj, v)
    requires missing == Needs(adj, n) && SpreadFrom(adj, b[..], n)
    modifies b
    ensures SpreadFrom(adj, b[..], 0)
  {
    hide Need, Off, PackedRow, SpreadRow;
    var total: int := missing;
    var tail: int := offsets[n] as int - 1;
    var u: int := n;
    while u > 0
      invariant 0 <= u <= n && total == Needs(adj, u) && tail == Wide(adj, u) - 1
      invariant SpreadFrom(adj, b[..], u)
    {
      u := u - 1;
      OffsetStep(adj, u);
      tail := MoveRow(adj, u, b, offsets[u] + needed[u], offsets[u + 1], total, tail);
      total := total - needed[u];
      tail := tail - needed[u];
    }
  }

  method MoveRow(ghost adj: seq<seq<nat>>, ghost u: nat, b: array<nat>, start: nat, end: nat, total: nat, tail0: int)
    returns (tail: int)
    requires u < |adj| && SpreadFrom(adj, b[..], u + 1)
    requires start == Wide(adj, u) + Need(adj, u) && end == Wide(adj, u + 1) && total == Needs(adj, u + 1)
          && tail0 == end - 1
    modifies b
    ensures SpreadFrom(adj, b[..], u) && tail == start - 1
  {
    hide Need, Off, SpreadRow, PackedRow;
    OffsetStep(adj, u);
    OffsetsGrow(adj, u + 1, |adj|);
    ghost var before := b[..];
    PackedAt(adj, b[..], u);
    tail := MoveCells(b, start, end, total, tail0, adj[u]);
    SpreadFrame(adj, before, b[..], u);
    SpreadHere(adj, b[..], u);
  }

  /** Moves a row up by `total` cells, from its end; what it writes lies at or above what it has still to read. */
  method MoveCells(b: array<nat>, start: nat, end: nat, total: nat, tail0: int, ghost row: seq<nat>) returns (tail: int)
    requires total <= start <= end <= b.Length && |row| == end - start && tail0 == end - 1
    requires forall j :: 0 <= j < |row| ==> b[start - total + j] == row[j]
    modifies b
    ensures tail == start - 1 && forall k :: start <= k < end ==> b[k] == row[k - start]
    ensures forall k :: 0 <= k < b.Length && (k < start - total || k >= end) ==> b[k] == old(b[k])
  {
    tail := tail0;
    var i: int := end - 1;
    while i >= start
      invariant start - 1 <= i < end && tail == i
      invariant forall k :: 0 <= k < b.Length && (k < start - total || k >= end) ==> b[k] == old(b[k])
      invariant forall j :: 0 <= j <= i - start ==> b[start - total + j] == row[j]
      invariant forall k :: i < k < end ==> b[k] == row[k - start]
    {
      b[tail] := b[i - total];
      tail := tail - 1;
      i := i - 1;
    }
  }

  lemma PackedAt(adj: seq<seq<nat>>, b: seq<nat>, u: nat)
    requires u < |adj| && PackedRow(adj, b, u)
    ensures Off(adj, u) + |adj[u]| <= |b| && forall j :: 0 <= j < |adj[u]| ==> b[Off(adj, u) + j] == adj[u][j]
  {
    hide Off;
    forall j | 0 <= j < |adj[u]|
      ensures b[Off(adj, u) + j] == adj[u][j]
    {
      assert b[Off(adj, u)..Off(adj, u) + |adj[u]|][j] == b[Off(adj, u) + j];
    }
  }

  lemma SpreadHere(adj: seq<seq<nat>>, b: seq<nat>, u: nat)
    requires u < |adj| && Wide(adj, u + 1) <= |b|
    requires var start := Wide(adj, u) + Need(adj, u);
      start + |adj[u]| == Wide(adj, u + 1) && forall k :: start <= k < Wide(adj, u + 1) ==> b[k] == adj[u][k - start]
    ensures SpreadRow(adj, b, u)
  {
    hide Off, Need, Needs;
  }

  function Reverse(r: seq<nat>): (s: seq<nat>)
    ensures |s| == |r| && forall i :: 0 <= i < |r| ==> s[i] == r[|r| - 1 - i]
  {
    seq(|r|, i requires 0 <= i < |r| => r[|r| - 1 - i])
  }

  /** What row v holds once the inverses from sources below k are in: the newest first, then its own neighbours. */
  ghost function Held(adj: seq<seq<nat>>, v: nat, k: nat): seq<nat>
    requires v < |adj| && k <= |adj|
  {
    Reverse(Missing(adj, v, k)) + adj[v]
  }

  /** Row v has taken the inverses from sources below k and has `need` free cells left. */
  ghost predicate RowFilled(adj: seq<seq<nat>>, b: seq<nat>, v: nat, k: nat, need: nat)
    requires v < |adj| && k <= |adj|
  {
    && need + |Missing(adj, v, k)| == Need(adj, v)
    && Wide(adj, v) + need <= Wide(adj, v + 1) <= |b|
    && b[Wide(adj, v) + need..Wide(adj, v + 1)] == Held(adj, v, k)
  }

  ghost predicate Filled(adj: seq<seq<nat>>, b: seq<nat>, needed: seq<nat>, k: nat)
    requires k <= |adj|
  {
    |needed| == |adj| && forall v :: 0 <= v < |adj| ==> RowFilled(adj, b, v, k, needed[v])
  }

  /** Part-way through the list of u: the vertices of `done` have been given u if they lacked it. */
  ghost predicate FilledPart(adj: seq<seq<nat>>, b: seq<nat>, needed: seq<nat>, u: nat, done: seq<nat>)
    requires u < |adj|
  {
    && |needed| == |adj|
    && forall v :: 0 <= v < |adj| ==> RowFilled(adj, b, v, if v in done then u + 1 else u, needed[v])
  }

  /** The list of u that step 3 walks: inverses already added, then its own neighbours; all distinct, none is u. */
  lemma HeldDistinct(adj: seq<seq<nat>>, u: nat, k: nat)
    requires Rows(adj) && u < |adj| && k <= |adj|
    ensures forall i, j :: 0 <= i < j < |Held(adj, u, k)| ==> Held(adj, u, k)[i] != Held(adj, u, k)[j]
    ensures forall i :: 0 <= i < |Held(adj, u, k)| ==> Held(adj, u, k)[i] < |adj| && Held(adj, u, k)[i] != u
    ensures forall w :: w in Held(adj, u, k) <==> w in Missing(adj, u, k) || w in adj[u]
  {
    assert RowOk(adj, u);
    var h, m := Held(adj, u, k), Missing(adj, u, k);
    forall i | 0 <= i < |m|
      ensures h[i] in m && h[i] < |adj| && h[i] != u && h[i] !in adj[u]
    {
      assert RowOk(adj, m[|m| - 1 - i]);
      assert Lacks(adj, m[|m| - 1 - i], u);
    }
    forall w | w in m
      ensures w in h
    {
      var i :| 0 <= i < |m| && m[i] == w;
      assert h[|m| - 1 - i] == w;
    }
  }

  /** The slice of row v that the search sees is not sorted, but it is split by u: all that was added so far is below
      u. */
  lemma HeldSplits(adj: seq<seq<nat>>, v: nat, u: nat) returns (split: nat)
    requires Rows(adj) && u < |adj| && v < |adj|
    ensures split <= |Held(adj, v, u)|
    ensures forall k :: 0 <= k < split ==> Held(adj, v, u)[k] < u
    ensures forall k :: split <= k < |Held(adj, v, u)| ==> Held(adj, v, u)[k] >= u
    ensures u in adj[v] <==> split < |Held(adj, v, u)| && Held(adj, v, u)[split] == u
  {
    assert RowOk(adj, v);
    var s := Splits(adj[v], u);
    split := |Missing(adj, v, u)| + s;
  }

  method SearchHeld(ghost adj: seq<seq<nat>>, b: array<nat>, lo: nat, hi: nat, v: nat, u: nat) returns (found: bool)
    requires Rows(adj) && u < |adj| && v < |adj| && lo <= hi <= b.Length
    requires b[..][lo..hi] == Held(adj, v, u)
    ensures found <==> u in adj[v]
  {
    hide Held;
    ghost var split := HeldSplits(adj, v, u);
    ghost var held := Held(adj, v, u);
    forall k | lo <= k < hi
      ensures b[k] == held[k - lo]
    {
      assert b[k] == b[..][lo..hi][k - lo];
    }
    found := BinarySearch(b, lo, hi, u, lo + split);
  }

  /** Giving u to v when v lacks it, or when it does not, brings row v one source further. */
  lemma GiveInverse(adj: seq<seq<nat>>, b: seq<nat>, v: nat, u: nat, need: nat)
    requires u < |adj| && v < |adj| && RowFilled(adj, b, v, u, need)
    ensures !Lacks(adj, u, v) ==> RowFilled(adj, b, v, u + 1, need)
    ensures Lacks(adj, u, v) ==> need > 0 && RowFilled(adj, b[Wide(adj, v) + need - 1 := u], v, u + 1, need - 1)
  {
    hide Off, Needs;
    MissingStep(adj, v, u);
    MissingGrows(adj, v, u, |adj|);
    if Lacks(adj, u, v) {
      var p := Wide(adj, v) + need - 1;
      var b' := b[p := u];
      var held, held' := Held(adj, v, u), Held(adj, v, u + 1);
      assert Reverse(Missing(adj, v, u) + [u]) == [u] + Reverse(Missing(adj, v, u));
      assert held' == [u] + held;
      assert b'[p..Wide(adj, v + 1)] == [u] + b[p + 1..Wide(adj, v + 1)];
    }
  }

  /** A write in the slot of v leaves every other row alone. */
  lemma OtherRowFilled(adj: seq<seq<nat>>, b: seq<nat>, p: nat, x: nat, v: nat, w: nat, k: nat, need: nat)
    requires v < |adj| && w < |adj| && v != w && k <= |adj| && p < |b| && Wide(adj, v) <= p < Wide(adj, v + 1)
    requires RowFilled(adj, b, w, k, need)
    ensures RowFilled(adj, b[p := x], w, k, need)
  {
    hide Off, Needs, Held, Need, Missing;
    if v < w {
      OffsetsGrow(adj, v + 1, w);
    } else {
      OffsetsGrow(adj, w + 1, v);
    }
    assert b[p := x][Wide(adj, w) + need..Wide(adj, w + 1)] == b[Wide(adj, w) + need..Wide(adj, w + 1)];
  }

  /** Step 3: fills every free cell with the inverse it was made for. */
  method FillInverses(ghost adj: seq<seq<nat>>, n: nat, b: array<nat>, offsets: array<nat>, needed: array<nat>)
    requires Rows(adj) && n == |adj| && WideBy(adj, offsets[..]) && b != offsets && b != needed && offsets != needed
    requires Filled(adj, b[..], needed[..], 0)
    modifies b, needed
    ensures Filled(adj, b[..], needed[..], n)
  {
    hide Missing, RowFilled, Off;
    for u := 0 to n
      invariant Filled(adj, b[..], needed[..], u)
    {
      FillFrom(adj, b, offsets, needed, u);
    }
  }

  method FillFrom(ghost adj: seq<seq<nat>>, b: array<nat>, offsets: array<nat>, needed: array<nat>, u: nat)
    requires Rows(adj) && u < |adj| && WideBy(adj, offsets[..]) && b != offsets && b != needed && offsets != needed
    requires Filled(adj, b[..], needed[..], u)
    modifies b, needed
    ensures Filled(adj, b[..], needed[..], u + 1)
  {
    hide Missing, RowFilled, Off, Held, Wide;
    ghost var list := Held(adj, u, u);
    HeldDistinct(adj, u, u);
    var start, end := offsets[u] + needed[u], offsets[u + 1];
    RowFilledAt(adj, b[..], u, u, needed[u]);
    for i := start to end
      invariant needed.Length == |adj| && needed[u] == old(needed[u])
      invariant FilledPart(adj, b[..], needed[..], u, list[..i - start])
    {
      ghost var c := i - start;
      assert u !in list[..c] && list[c] !in list[..c];
      assert list[..c + 1] == list[..c] + [list[c]];
      RowFilledAt(adj, b[..], u, u, needed[u]);
      var v := b[i];
      assert v == list[c] && list[c] in list;
      ListMember(adj, u, v);
      GiveTo(adj, b, offsets, needed, u, v, list[..c]);
    }
    assert list[..end - start] == list;
    FinishSource(adj, b[..], needed[..], u, list);
  }

  lemma RowFilledAt(adj: seq<seq<nat>>, b: seq<nat>, v: nat, k: nat, need: nat)
    requires v < |adj| && k <= |adj| && RowFilled(adj, b, v, k, need)
    ensures Wide(adj, v) + need + |Held(adj, v, k)| == Wide(adj, v + 1) <= |b|
    ensures b[Wide(adj, v) + need..Wide(adj, v + 1)] == Held(adj, v, k)
    ensures forall c :: 0 <= c < |Held(adj, v, k)| ==> b[Wide(adj, v) + need + c] == Held(adj, v, k)[c]
  {
    hide Missing, Held, Wide;
    var s := Wide(adj, v) + need;
    forall c | 0 <= c < |Held(adj, v, k)|
      ensures b[s + c] == Held(adj, v, k)[c]
    {
      assert b[s..Wide(adj, v + 1)][c] == b[s + c];
    }
  }

  lemma ListMember(adj: seq<seq<nat>>, u: nat, v: nat)
    requires u < |adj| && v in Held(adj, u, u)
    ensures v in adj[u] || (v < |adj| && u in adj[v])
  {
    if v !in adj[u] {
      var m := Missing(adj, u, u);
      var i :| 0 <= i < |m| && Reverse(m)[i] == v;
      assert Lacks(adj, m[|m| - 1 - i], u);
    }
  }

  /** Adds u to row v unless a search finds it there. */
  method GiveTo(ghost adj: seq<seq<nat>>, b: array<nat>, offsets: array<nat>, needed: array<nat>, u: nat, v: nat,
                ghost done: seq<nat>)
    requires Rows(adj) && u < |adj| && WideBy(adj, offsets[..]) && b != offsets && b != needed && offsets != needed
    requires FilledPart(adj, b[..], needed[..], u, done)
    requires v < |adj| && v != u && v !in done && (v in adj[u] || u in adj[v])
    modifies b, needed
    ensures FilledPart(adj, b[..], needed[..], u, done + [v])
    ensures needed[u] == old(needed[u])
  {
    hide Missing, RowFilled, Off, Held, Wide;
    RowFilledAt(adj, b[..], v, u, needed[v]);
    var found := SearchHeld(adj, b, offsets[v] + needed[v], offsets[v + 1], v, u);
    GiveInverse(adj, b[..], v, u, needed[v]);
    ghost var b0, n0 := b[..], needed[..];
    if !found {
      WideGrows(adj, v);
      b[offsets[v] + needed[v] - 1] := u;
      needed[v] := needed[v] - 1;
      assert b[..] == b0[Wide(adj, v) + n0[v] - 1 := u];
    }
    forall w | 0 <= w < |adj|
      ensures RowFilled(adj, b[..], w, if w in done + [v] then u + 1 else u, needed[w])
    {
      assert RowFilled(adj, b0, w, if w in done then u + 1 else u, n0[w]);
      if w != v && !found {
        OtherRowFilled(adj, b0, Wide(adj, v) + n0[v] - 1, u, v, w, if w in done then u + 1 else u, n0[w]);
      }
    }
  }

  lemma WideGrows(adj: seq<seq<nat>>, v: nat)
    requires v < |adj|
    ensures Wide(adj, v) + Need(adj, v) <= Wide(adj, v + 1)
  {
  }

  lemma FinishSource(adj: seq<seq<nat>>, b: seq<nat>, needed: seq<nat>, u: nat, list: seq<nat>)
    requires Rows(adj) && u < |adj| && list == Held(adj, u, u) && FilledPart(adj, b, needed, u, list)
    ensures Filled(adj, b, needed, u + 1)
  {
    hide RowFilled, Missing, Held;
    HeldDistinct(adj, u, u);
    forall v | 0 <= v < |adj|
      ensures RowFilled(adj, b, v, u + 1, needed[v])
    {
      assert RowFilled(adj, b, v, if v in list then u + 1 else u, needed[v]);
      if v !in list {
        GiveInverse(adj, b, v, u, needed[v]);
      }
    }
  }
}
