/** Building a symmetric graph inside the memory of its edge list. Edge k occupies cells 2k and 2k+1 until the
    neighbours, written from the front, reach it. */
module InPlaceBuild {
  import opened SliceSort
  import opened EdgeLists
  import opened PrefixSums
  import opened Symmetrise

  ghost predicate Holds(mem: seq<nat>, es: seq<Edge>) {
    |mem| == 2 * |es| && forall k :: 0 <= k < |es| ==> Intact(mem, es, k)
  }

  ghost predicate Intact(mem: seq<nat>, es: seq<Edge>, k: nat)
    requires k < |es| && |mem| == 2 * |es|
  {
    mem[2 * k] == es[k].u && mem[2 * k + 1] == es[k].v
  }

  /** The rows that an ascending edge list spells out. */
  ghost function AdjOf(es: seq<Edge>, n: nat): (adj: seq<seq<nat>>)
    ensures |adj| == n
  {
    seq(n, u requires 0 <= u < n => RowFrom(es, u))
  }

  ghost function RowFrom(es: seq<Edge>, u: nat): (r: seq<nat>)
    ensures |r| == Below(es, u + 1) - Below(es, u)
    ensures forall i :: 0 <= i < |r| ==> r[i] == es[Below(es, u) + i].v
  {
    BelowMonotone(es, u, u + 1);
    var s := Below(es, u);
    seq<nat>(Below(es, u + 1) - s, i requires 0 <= i < Below(es, u + 1) - s => es[s + i].v)
  }

  lemma RowFacts(es: seq<Edge>, n: nat, u: nat)
    requires Ascending(es) && LoopFree(es) && Within(es, n) && u < n
    ensures RowOk(AdjOf(es, n), u)
    ensures forall v :: v in AdjOf(es, n)[u] <==> Edge(u, v) in es
  {
    hide Below;
    BelowSplits(es, u);
    BelowSplits(es, u + 1);
    var r, s := RowFrom(es, u), Below(es, u);
    forall i | 0 <= i < |r|
      ensures es[s + i] == Edge(u, r[i])
    {
    }
    forall v | Edge(u, v) in es
      ensures v in r
    {
      var k :| 0 <= k < |es| && es[k] == Edge(u, v);
      assert r[k - s] == v;
    }
  }

  lemma {:induction false} OffIsBelow(es: seq<Edge>, n: nat, u: nat)
    requires u <= n
    ensures Off(AdjOf(es, n), u) == Below(es, u)
  {
    if u == 0 {
      BelowZero(es);
    } else {
      OffIsBelow(es, n, u - 1);
      BelowMonotone(es, u - 1, u);
    }
  }

  /** Counts sources only: inverses are added later, where they are missing. */
  method CountDegrees(mem: array<nat>, ghost es: seq<Edge>, m: nat, n: nat) returns (degrees: array<nat>)
    requires Holds(mem[..], es) && m == |es| && Within(es, n)
    ensures fresh(degrees) && degrees.Length == n
    ensures forall u :: 0 <= u < n ==> degrees[u] == Below(es, u + 1) - Below(es, u)
  {
    degrees := new nat[n](_ => 0);
    for k := 0 to m
      invariant forall u :: 0 <= u < n ==> degrees[u] == SourcesAt(es[..k], u)
    {
      assert es[..k + 1][..k] == es[..k];
      assert Intact(mem[..], es, k);
      var u := mem[2 * k];
      degrees[u] := degrees[u] + 1;
    }
    assert es[..m] == es;
  }

  ghost function SourcesAt(es: seq<Edge>, u: nat): int {
    Below(es, u + 1) - Below(es, u)
  }

  lemma {:induction false} SumIsBelow(es: seq<Edge>, degrees: seq<nat>, u: nat)
    requires u <= |degrees| && forall w :: 0 <= w < |degrees| ==> degrees[w] == SourcesAt(es, w)
    ensures SumTo(degrees, u) == Below(es, u)
  {
    if u == 0 {
      BelowZero(es);
    } else {
      SumIsBelow(es, degrees, u - 1);
    }
  }

  /** Where the cursor of row u stands after k edges. */
  ghost function Cursor(es: seq<Edge>, u: nat, k: nat): nat {
    if k < Below(es, u) then Below(es, u) else if k < Below(es, u + 1) then k else Below(es, u + 1)
  }

  /** Overwrites the edge list from the front with its own targets. Edge k is read before cell k is written, and no
      later edge lies that far in front. */
  method Compact(mem: array<nat>, ghost es: seq<Edge>, m: nat, n: nat, offsets: array<nat>)
    requires Holds(mem[..], es) && m == |es| && Within(es, n) && Ascending(es)
    requires mem != offsets && offsets.Length == n + 1 && forall u :: 0 <= u <= n ==> offsets[u] == Below(es, u)
    modifies mem, offsets
    ensures forall k :: 0 <= k < m ==> mem[k] == es[k].v
    ensures forall u :: 0 <= u < n ==> offsets[u] == Below(es, u + 1)
  {
    hide Below;
    forall u | 0 <= u < n
      ensures Below(es, u) <= Below(es, u + 1)
    {
      BelowMonotone(es, u, u + 1);
    }
    for k := 0 to m
      invariant forall u :: 0 <= u < n ==> offsets[u] == Cursor(es, u, k)
      invariant forall j :: 0 <= j < k ==> mem[j] == es[j].v
      invariant forall j :: k <= j < m ==> Intact(mem[..], es, j)
    {
      assert Intact(mem[..], es, k);
      var u, v := mem[2 * k], mem[2 * k + 1];
      CursorStep(es, n, k);
      ghost var before := mem[..];
      mem[offsets[u]] := v;
      offsets[u] := offsets[u] + 1;
      assert mem[..] == before[k := v];
      forall j | k + 1 <= j < m
        ensures Intact(mem[..], es, j)
      {
        assert Intact(before, es, j);
      }
    }
  }

  lemma CursorStep(es: seq<Edge>, n: nat, k: nat)
    requires Ascending(es) && Within(es, n) && k < |es|
    ensures Cursor(es, es[k].u, k) == k
    ensures forall u :: 0 <= u < n ==> Cursor(es, u, k + 1) == if u == es[k].u then k + 1 else Cursor(es, u, k)
  {
    hide Below;
    forall u | 0 <= u < n
      ensures Cursor(es, u, k + 1) == if u == es[k].u then k + 1 else Cursor(es, u, k)
      ensures u == es[k].u ==> Cursor(es, u, k) == k
    {
      BelowSplits(es, u);
      BelowSplits(es, u + 1);
      BelowMonotone(es, u, u + 1);
    }
  }

  /** Undoes the cursors: they now stand where the next row starts. */
  method ShiftDown(offsets: array<nat>, n: nat, ghost es: seq<Edge>)
    requires offsets.Length == n + 1 && forall u :: 0 <= u < n ==> offsets[u] == Below(es, u + 1)
    modifies offsets
    ensures forall u :: 0 <= u <= n ==> offsets[u] == Below(es, u)
  {
    BelowZero(es);
    hide Below;
    var k: int := n;
    while k >= 0
      invariant -1 <= k <= n
      invariant forall u :: k < u <= n ==> offsets[u] == Below(es, u)
      invariant forall u :: 0 <= u < n && u <= k ==> offsets[u] == Below(es, u + 1)
      decreases k + 1
    {
      offsets[k] := if k != 0 then offsets[k - 1] else 0;
      k := k - 1;
    }
  }

  /** Row v of the result: ascending, without duplicates, and exactly the neighbours of v in either direction. */
  ghost predicate SymmetricRow(el: seq<Edge>, offsets: seq<nat>, b: seq<nat>, v: nat) {
    && v + 1 < |offsets| && offsets[v] <= offsets[v + 1] <= |b|
    && Climbs(b[offsets[v]..offsets[v + 1]])
    && forall w: nat :: w in b[offsets[v]..offsets[v + 1]] <==> w != v && (Edge(v, w) in el || Edge(w, v) in el)
  }

  lemma HeldIsClosure(el: seq<Edge>, es: seq<Edge>, n: nat, v: nat)
    requires es == Squished(el) && Within(es, n) && v < n
    ensures Different(Held(AdjOf(es, n), v, n))
    ensures forall w: nat :: w in Held(AdjOf(es, n), v, n) <==> w != v && (Edge(v, w) in el || Edge(w, v) in el)
  {
    hide AdjOf, Held;
    var adj := AdjOf(es, n);
    forall u | 0 <= u < n
      ensures RowOk(adj, u) && forall w :: w in adj[u] <==> Edge(u, w) in es
    {
      RowFacts(es, n, u);
    }
    HeldDistinct(adj, v, n);
    forall w: nat
      ensures w in Held(adj, v, n) <==> w != v && (Edge(v, w) in el || Edge(w, v) in el)
    {
      if Edge(w, v) in es {
        assert w < n && v in adj[w];
        if Edge(v, w) !in es {
          MissingComplete(adj, v, n, w);
        }
      }
      if w in Missing(adj, v, n) {
        var i :| 0 <= i < |Missing(adj, v, n)| && Missing(adj, v, n)[i] == w;
        assert Lacks(adj, w, v);
      }
    }
  }

  /** The edge list's memory becomes the first m neighbours of a larger block. */
  method Realloc(a: array<nat>, used: nat, size: nat) returns (b: array<nat>)
    requires used <= a.Length && used <= size
    ensures fresh(b) && b.Length == size && b[..used] == a[..used]
  {
    b := new nat[size](i reads a => if 0 <= i < used && i < a.Length then a[i] else 0);
  }

  method Store(es: seq<Edge>) returns (mem: array<nat>)
    ensures fresh(mem) && Holds(mem[..], es)
  {
    mem := new nat[2 * |es|](i requires 0 <= i < 2 * |es| => if i % 2 == 0 then es[i / 2].u else es[i / 2].v);
  }

  lemma SquishedWithin(el: seq<Edge>, n: nat)
    requires Within(el, n)
    ensures Within(Squished(el), n)
  {
    forall i | 0 <= i < |Squished(el)|
      ensures Squished(el)[i].u < n && Squished(el)[i].v < n
    {
      assert Squished(el)[i] in el;
    }
  }

  method StartOffsets(mem: array<nat>, ghost es: seq<Edge>, m: nat, n: nat, blockSize: nat)
    returns (offsets: array<nat>)
    requires Holds(mem[..], es) && m == |es| && Within(es, n) && blockSize > 0
    ensures fresh(offsets) && offsets.Length == n + 1 && forall u :: 0 <= u <= n ==> offsets[u] == Below(es, u)
  {
    hide Below, SumTo;
    var degrees := CountDegrees(mem, es, m, n);
    offsets := ParallelPrefixSum(degrees, blockSize);
    forall u | 0 <= u <= n
      ensures offsets[u] == Below(es, u)
    {
      SumIsBelow(es, degrees[..], u);
    }
  }

  lemma PackedFrom(es: seq<Edge>, n: nat, mem: seq<nat>, offsets: seq<nat>)
    requires Ascending(es) && LoopFree(es) && Within(es, n) && |mem| >= |es| && |offsets| == n + 1
    requires forall k :: 0 <= k < |es| ==> mem[k] == es[k].v
    requires forall u :: 0 <= u <= n ==> offsets[u] == Below(es, u)
    ensures Rows(AdjOf(es, n)) && Packed(AdjOf(es, n), mem) && IndexedBy(AdjOf(es, n), offsets)
    ensures Off(AdjOf(es, n), n) == |es|
  {
    hide Below, Off;
    var adj := AdjOf(es, n);
    AllBelow(es, n);
    OffIsBelow(es, n, n);
    forall u | 0 <= u <= n
      ensures offsets[u] == Off(adj, u)
    {
      OffIsBelow(es, n, u);
    }
    forall u | 0 <= u < n
      ensures RowOk(adj, u) && PackedRow(adj, mem, u)
    {
      RowFacts(es, n, u);
      OffIsBelow(es, n, u);
      assert adj[u] == RowFrom(es, u);
      assert mem[Off(adj, u)..Off(adj, u) + |adj[u]|] == adj[u];
    }
  }

  lemma SliceOfPrefix(s: seq<nat>, m: nat, i: nat, j: nat)
    requires i <= j <= m <= |s|
    ensures s[..m][i..j] == s[i..j]
  {
  }

  lemma SliceOfSuffix(s: seq<nat>, m: nat, i: nat, j: nat)
    requires m <= i <= j <= |s|
    ensures s[m..][i - m..j - m] == s[i..j]
  {
  }

  lemma StillPacked(adj: seq<seq<nat>>, a: seq<nat>, b: seq<nat>, m: nat)
    requires Packed(adj, a) && Off(adj, |adj|) == m && m <= |a| && |b| == Wide(adj, |adj|) && b[..m] == a[..m]
    ensures SpreadFrom(adj, b, |adj|)
  {
    hide Off, Needs, Need;
    forall w | 0 <= w < |adj|
      ensures PackedRow(adj, b, w)
    {
      assert PackedRow(adj, a, w);
      OffsetsGrow(adj, w, |adj|);
      SliceOfPrefix(a, m, Off(adj, w), Off(adj, w) + |adj[w]|);
      SliceOfPrefix(b, m, Off(adj, w), Off(adj, w) + |adj[w]|);
    }
  }

  lemma ReadyToFill(adj: seq<seq<nat>>, b: seq<nat>, needed: seq<nat>)
    requires SpreadFrom(adj, b, 0) && |needed| == |adj| && forall v :: 0 <= v < |adj| ==> needed[v] == Need(adj, v)
    ensures Filled(adj, b, needed, 0)
  {
    hide Off, Needs, Need;
    forall v | 0 <= v < |adj|
      ensures RowFilled(adj, b, v, 0, needed[v])
    {
      assert SpreadRow(adj, b, v);
      assert Held(adj, v, 0) == adj[v];
    }
  }

  /** Row v holds all its neighbours, not yet in order. */
  ghost predicate Unsorted(adj: seq<seq<nat>>, b: seq<nat>, v: nat)
    requires v < |adj|
  {
    Wide(adj, v) <= Wide(adj, v + 1) <= |b| && b[Wide(adj, v)..Wide(adj, v + 1)] == Held(adj, v, |adj|)
  }

  lemma NothingNeeded(adj: seq<seq<nat>>, b: seq<nat>, needed: seq<nat>)
    requires Filled(adj, b, needed, |adj|)
    ensures forall v :: 0 <= v < |adj| ==> Unsorted(adj, b, v)
  {
    hide Off, Needs, Held, Missing;
    forall v | 0 <= v < |adj|
      ensures Unsorted(adj, b, v)
    {
      assert RowFilled(adj, b, v, |adj|, needed[v]);
    }
  }

  method SortRows(ghost el: seq<Edge>, ghost es: seq<Edge>, n: nat, b: array<nat>, offsets: array<nat>,
                  ghost needed: seq<nat>)
    requires es == Squished(el) && Within(es, n) && b != offsets
    requires Filled(AdjOf(es, n), b[..], needed, n) && WideBy(AdjOf(es, n), offsets[..])
    modifies b
    ensures forall v :: 0 <= v < n ==> SymmetricRow(el, offsets[..], b[..], v)
  {
    hide AdjOf, Wide, Held, Below, Missing, Squished, Filled;
    ghost var adj := AdjOf(es, n);
    NothingNeeded(adj, b[..], needed);
    for v := 0 to n
      invariant forall w :: 0 <= w < v ==> SymmetricRow(el, offsets[..], b[..], w)
      invariant forall w :: v <= w < n ==> Unsorted(adj, b[..], w)
    {
      ghost var before := b[..];
      assert Unsorted(adj, before, v);
      HeldIsClosure(el, es, n, v);
      assert b[offsets[v]..offsets[v + 1]] == before[offsets[v]..offsets[v + 1]];
      SortSlice(b, offsets[v], offsets[v + 1]);
      assert b[..][offsets[v]..offsets[v + 1]] == b[offsets[v]..offsets[v + 1]];
      forall w | 0 <= w < n && w != v
        ensures w < v ==> SymmetricRow(el, offsets[..], b[..], w)
        ensures w > v ==> Unsorted(adj, b[..], w)
      {
        assert offsets[..][w] == Wide(adj, w) && offsets[..][w + 1] == Wide(adj, w + 1);
        assert w < v ==> SymmetricRow(el, offsets[..], before, w);
        assert w > v ==> Unsorted(adj, before, w);
        SliceKept(adj, before, b[..], v, w);
      }
    }
  }

  lemma SliceKept(adj: seq<seq<nat>>, b: seq<nat>, b': seq<nat>, v: nat, w: nat)
    requires v < |adj| && w < |adj| && v != w && |b'| == |b|
    requires Wide(adj, v) <= Wide(adj, v + 1) <= |b| && Wide(adj, w) <= Wide(adj, w + 1) <= |b|
    requires b'[..Wide(adj, v)] == b[..Wide(adj, v)] && b'[Wide(adj, v + 1)..] == b[Wide(adj, v + 1)..]
    ensures b'[Wide(adj, w)..Wide(adj, w + 1)] == b[Wide(adj, w)..Wide(adj, w + 1)]
  {
    hide Off, Needs;
    if w < v {
      OffsetsGrow(adj, w + 1, v);
      SliceOfPrefix(b', Wide(adj, v), Wide(adj, w), Wide(adj, w + 1));
      SliceOfPrefix(b, Wide(adj, v), Wide(adj, w), Wide(adj, w + 1));
    } else {
      OffsetsGrow(adj, v + 1, w);
      SliceOfSuffix(b', Wide(adj, v + 1), Wide(adj, w), Wide(adj, w + 1));
      SliceOfSuffix(b, Wide(adj, v + 1), Wide(adj, w), Wide(adj, w + 1));
    }
  }

  /** The whole in-place build with symmetrisation. `blockSize` is the builder's block of the prefix sum. */
  method MakeSymmetric(el: seq<Edge>, n: nat, blockSize: nat) returns (offsets: array<nat>, neighs: array<nat>)
    requires Within(el, n) && blockSize > 0
    ensures offsets.Length == n + 1 && offsets[0] == 0 && offsets[n] == neighs.Length
    ensures forall v :: 0 <= v < n ==> SymmetricRow(el, offsets[..], neighs[..], v)
  {
    hide Below, Off, Needs, Need, Missing, Squished, SumTo, AdjOf;
    var es := Squished(el);
    var m := |es|;
    SquishedWithin(el, n);
    ghost var adj := AdjOf(es, n);
    var mem := Store(es);
    offsets := StartOffsets(mem, es, m, n, blockSize);
    Compact(mem, es, m, n, offsets);
    ShiftDown(offsets, n, es);
    PackedFrom(es, n, mem[..], offsets[..]);
    var needed := CountMissing(adj, n, mem, offsets);
    var missing := WidenOffsets(adj, n, offsets, needed);
    neighs := Realloc(mem, m, offsets[n]);
    StillPacked(adj, mem[..], neighs[..], m);
    Spread(adj, n, neighs, offsets, needed, missing);
    ReadyToFill(adj, neighs[..], needed[..]);
    FillInverses(adj, n, neighs, offsets, needed);
    SortRows(el, es, n, neighs, offsets, needed[..]);
    assert offsets[0] == Wide(adj, 0) == 0 by { WideZero(adj); }
  }

  lemma WideZero(adj: seq<seq<nat>>)
    ensures Wide(adj, 0) == 0
  {
  }
}
