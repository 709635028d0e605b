/** Relabelling a graph's vertices in order of falling degree, and the triangle count that may do so first. */
module Relabel {
  import opened SliceSort
  import opened PrefixSums
  import opened TriangleCount

  // ----- The order of the new labels -----

  datatype DegreeNode = DegreeNode(degree: nat, id: nat)

  predicate Greater(p: DegreeNode, q: DegreeNode) {
    p.degree > q.degree || (p.degree == q.degree && p.id > q.id)
  }

  ghost predicate Falls(s: seq<DegreeNode>) {
    forall i, j :: 0 <= i < j < |s| ==> Greater(s[i], s[j])
  }

  function InsertFalling(x: DegreeNode, s: seq<DegreeNode>): (r: seq<DegreeNode>)
    requires Falls(s) && x !in s
    ensures Falls(r) && |r| == |s| + 1 && forall y :: y in r <==> y == x || y in s
  {
    if s == [] then [x]
    else if Greater(x, s[0]) then
      assert forall k :: 0 < k < |s| ==> Greater(x, s[k]);
      [x] + s
    else
      assert s == [s[0]] + s[1..] && s[0] in s;
      var rest := InsertFalling(x, s[1..]);
      HeadGreater(x, s, rest);
      [s[0]] + rest
  }

  lemma HeadGreater(x: DegreeNode, s: seq<DegreeNode>, rest: seq<DegreeNode>)
    requires Falls(s) && s != [] && x !in s && !Greater(x, s[0])
    requires forall y :: y in rest <==> y == x || y in s[1..]
    ensures forall k :: 0 <= k < |rest| ==> Greater(s[0], rest[k])
  {
    forall k | 0 <= k < |rest|
      ensures Greater(s[0], rest[k])
    {
      assert rest[k] in rest && s[0] in s;
      if rest[k] != x {
        var i :| 0 <= i < |s[1..]| && s[1..][i] == rest[k];
        assert Greater(s[0], s[i + 1]);
      }
    }
  }

  /** The pairs of degree and vertex, largest first. */
  function SortedNodes(adj: seq<seq<nat>>, n: nat): (r: seq<DegreeNode>)
    requires n <= |adj|
    ensures Falls(r) && |r| == n && forall y :: y in r <==> y.id < n && y.degree == |adj[y.id]|
  {
    if n == 0 then [] else InsertFalling(DegreeNode(|adj[n - 1]|, n - 1), SortedNodes(adj, n - 1))
  }

  /** `newIds` numbers the vertices, and vertex number x is `order[x]`. */
  ghost predicate Numbering(n: nat, newIds: seq<nat>, order: seq<nat>) {
    && |newIds| == |order| == n
    && (forall u: nat :: u < n ==> newIds[u] < n && order[newIds[u]] == u)
    && (forall x: nat :: x < n ==> order[x] < n && newIds[order[x]] == x)
  }

  /** What the two parallel loops write. */
  method ScatterNodes(pairs: seq<DegreeNode>) returns (degrees: array<nat>, newIds: array<nat>)
    requires forall x :: 0 <= x < |pairs| ==> pairs[x].id < |pairs|
    requires forall x, y :: 0 <= x < y < |pairs| ==> pairs[x].id != pairs[y].id
    ensures fresh(degrees) && fresh(newIds) && degrees.Length == newIds.Length == |pairs|
    ensures forall y :: 0 <= y < |pairs| ==> degrees[y] == pairs[y].degree && newIds[pairs[y].id] == y
  {
    degrees, newIds := new nat[|pairs|], new nat[|pairs|];
    for x := 0 to |pairs|
      invariant forall y :: 0 <= y < x ==> degrees[y] == pairs[y].degree && newIds[pairs[y].id] == y
    {
      degrees[x] := pairs[x].degree;
      newIds[pairs[x].id] := x;
    }
  }

  lemma NodesDiffer(adj: seq<seq<nat>>)
    ensures forall x :: 0 <= x < |adj| ==>
              var p := SortedNodes(adj, |adj|)[x]; p.id < |adj| && p.degree == |adj[p.id]|
    ensures forall x, y :: 0 <= x < y < |adj| ==>
              var pairs := SortedNodes(adj, |adj|); pairs[x].id != pairs[y].id && pairs[x].degree >= pairs[y].degree
  {
    hide SortedNodes;
    var pairs := SortedNodes(adj, |adj|);
    assert forall x :: 0 <= x < |adj| ==> pairs[x] in pairs;
    forall x, y | 0 <= x < y < |adj|
      ensures pairs[x].id != pairs[y].id && pairs[x].degree >= pairs[y].degree
    {
      assert Greater(pairs[x], pairs[y]);
    }
  }

  lemma EveryNode(adj: seq<seq<nat>>, newIds: seq<nat>, u: nat)
    requires u < |adj| == |newIds|
    requires forall y :: 0 <= y < |adj| ==> var p := SortedNodes(adj, |adj|)[y]; p.id < |adj| && newIds[p.id] == y
    ensures newIds[u] < |adj| && SortedNodes(adj, |adj|)[newIds[u]].id == u
  {
    hide SortedNodes;
    var pairs := SortedNodes(adj, |adj|);
    assert DegreeNode(|adj[u]|, u) in pairs;
    var x :| 0 <= x < |adj| && pairs[x] == DegreeNode(|adj[u]|, u);
    assert newIds[pairs[x].id] == x;
  }

  method NumberNodes(adj: seq<seq<nat>>) returns (degrees: array<nat>, newIds: array<nat>, ghost order: seq<nat>)
    ensures fresh(degrees) && fresh(newIds) && Numbering(|adj|, newIds[..], order) && degrees.Length == |adj|
    ensures forall x :: 0 <= x < |adj| ==> degrees[x] == |adj[order[x]]|
    ensures forall x, y :: 0 <= x < y < |adj| ==> degrees[x] >= degrees[y]
  {
    hide SortedNodes;
    var n := |adj|;
    var pairs := SortedNodes(adj, n);
    NodesDiffer(adj);
    degrees, newIds := ScatterNodes(pairs);
    order := seq(n, x requires 0 <= x < n => pairs[x].id);
    forall u: nat | u < n
      ensures newIds[u] < n && order[newIds[u]] == u
    {
      EveryNode(adj, newIds[..], u);
    }
  }

  // ----- The rows of the new graph -----

  /** A neighbour list under the new labels. */
  function Mapped(newIds: seq<nat>, list: seq<nat>): (r: seq<nat>)
    ensures |r| == |list|
    ensures forall k :: 0 <= k < |list| && list[k] < |newIds| ==> r[k] == newIds[list[k]]
  {
    seq(|list|, k requires 0 <= k < |list| => if list[k] < |newIds| then newIds[list[k]] else 0)
  }

  lemma MappedDifferent(adj: seq<seq<nat>>, newIds: seq<nat>, order: seq<nat>, u: nat)
    requires Simple(adj) && Numbering(|adj|, newIds, order) && u < |adj|
    ensures Different(Mapped(newIds, adj[u]))
    ensures forall v: nat :: v < |adj| ==> (newIds[v] in Mapped(newIds, adj[u]) <==> v in adj[u])
    ensures forall x: nat :: x in Mapped(newIds, adj[u]) ==> x < |adj|
  {
    var list, m := adj[u], Mapped(newIds, adj[u]);
    forall k | 0 <= k < |list|
      ensures list[k] < |adj| && m[k] == newIds[list[k]] && order[m[k]] == list[k]
    {
      assert list[k] in list;
      Neighbours(adj, u, list[k]);
    }
    Row(adj, u);
  }

  /** The new row of u. */
  ghost function NewRow(adj: seq<seq<nat>>, newIds: seq<nat>, u: nat): seq<nat>
    requires u < |adj| && Different(Mapped(newIds, adj[u]))
  {
    Arranged(Mapped(newIds, adj[u]))
  }

  /** One vertex's row: its neighbours' new labels, written through the offset of its new label, then sorted. */
  method PlaceRow(adj: seq<seq<nat>>, newIds: seq<nat>, neighs: array<nat>, offsets: array<nat>, index: seq<nat>,
                  u: nat)
    requires u < |adj| == |newIds| && newIds[u] < offsets.Length && newIds[u] + 1 < |index| && neighs != offsets
    requires index[newIds[u]] + |adj[u]| == index[newIds[u] + 1] <= neighs.Length
          && offsets[newIds[u]] == index[newIds[u]]
    requires Different(Mapped(newIds, adj[u])) && forall k :: 0 <= k < |adj[u]| ==> adj[u][k] < |adj|
    modifies neighs, offsets
    ensures neighs[index[newIds[u]]..index[newIds[u] + 1]] == NewRow(adj, newIds, u)
    ensures neighs[..index[newIds[u]]] == old(neighs[..index[newIds[u]]])
    ensures neighs[index[newIds[u] + 1]..] == old(neighs[index[newIds[u] + 1]..])
    ensures forall x :: 0 <= x < offsets.Length && x != newIds[u] ==> offsets[x] == old(offsets[x])
  {
    var x := newIds[u];
    var low, high := index[x], index[x + 1];
    for k := 0 to |adj[u]|
      invariant offsets[x] == low + k && neighs[low..low + k] == Mapped(newIds, adj[u])[..k]
      invariant neighs[..low] == old(neighs[..low]) && neighs[high..] == old(neighs[high..])
      invariant forall y :: 0 <= y < offsets.Length && y != x ==> offsets[y] == old(offsets[y])
    {
      neighs[offsets[x]] := newIds[adj[u][k]];
      offsets[x] := offsets[x] + 1;
    }
    assert neighs[low..high] == Mapped(newIds, adj[u]);
    SortSlice(neighs, low, high);
  }

  /** Row newIds[u] of the flat neighbour array is finished. */
  ghost predicate RowDone(adj: seq<seq<nat>>, newIds: seq<nat>, index: seq<nat>, neighs: seq<nat>, u: nat)
    requires u < |adj| == |newIds| && Different(Mapped(newIds, adj[u])) && newIds[u] + 1 < |index|
  {
    index[newIds[u]] <= index[newIds[u] + 1] <= |neighs|
    && neighs[index[newIds[u]]..index[newIds[u] + 1]] == NewRow(adj, newIds, u)
  }

  /** The index of the new graph: rows one after the other, each as long as its vertex's list. */
  ghost predicate IndexFor(adj: seq<seq<nat>>, newIds: seq<nat>, order: seq<nat>, index: seq<nat>) {
    && Simple(adj) && Numbering(|adj|, newIds, order) && |index| == |adj| + 1
    && (forall u: nat :: u < |adj| ==> RowLength(adj, newIds, index, u))
    && (forall x: nat, y: nat :: x <= y < |index| ==> index[x] <= index[y])
  }

  ghost predicate RowLength(adj: seq<seq<nat>>, newIds: seq<nat>, index: seq<nat>, u: nat)
    requires u < |adj|
  {
    u < |newIds| && newIds[u] + 1 < |index| && index[newIds[u]] + |adj[u]| == index[newIds[u] + 1]
  }

  lemma RowReady(adj: seq<seq<nat>>, newIds: seq<nat>, order: seq<nat>, index: seq<nat>, u: nat)
    requires IndexFor(adj, newIds, order, index) && u < |adj|
    ensures |newIds| == |adj| && newIds[u] < |adj| && newIds[u] + 1 < |index| && Different(Mapped(newIds, adj[u]))
    ensures index[newIds[u]] + |adj[u]| == index[newIds[u] + 1] <= index[|adj|]
    ensures forall k :: 0 <= k < |adj[u]| ==> adj[u][k] < |adj|
  {
    MappedDifferent(adj, newIds, order, u);
    assert RowLength(adj, newIds, index, u);
    forall k | 0 <= k < |adj[u]|
      ensures adj[u][k] < |adj|
    {
      Neighbours(adj, u, adj[u][k]);
    }
  }

  lemma RowStays(adj: seq<seq<nat>>, newIds: seq<nat>, order: seq<nat>, index: seq<nat>, before: seq<nat>,
                 after: seq<nat>, w: nat, u: nat)
    requires IndexFor(adj, newIds, order, index) && w < |adj| && u < |adj| && w != u && |after| == |before|
    requires Different(Mapped(newIds, adj[w])) && newIds[w] + 1 < |index| && newIds[u] + 1 < |index|
    requires index[newIds[u]] <= index[newIds[u] + 1] <= |before|
    requires after[..index[newIds[u]]] == before[..index[newIds[u]]]
          && after[index[newIds[u] + 1]..] == before[index[newIds[u] + 1]..]
    requires RowDone(adj, newIds, index, before, w)
    ensures RowDone(adj, newIds, index, after, w)
  {
    hide Simple, RowLength, NewRow, Mapped, Different;
    var x, y := newIds[w], newIds[u];
    assert order[x] == w && order[y] == u;
    if x < y {
      assert index[x + 1] <= index[y];
    } else {
      assert index[y + 1] <= index[x];
    }
    SliceStays(before, after, index[x], index[x + 1], index[y], index[y + 1]);
  }

  method PlaceRows(adj: seq<seq<nat>>, newIds: seq<nat>, ghost order: seq<nat>, neighs: array<nat>,
                   offsets: array<nat>, index: seq<nat>)
    requires IndexFor(adj, newIds, order, index) && offsets.Length == |adj| + 1 && offsets[..] == index
          && neighs != offsets
    requires neighs.Length == index[|adj|]
    modifies neighs, offsets
    ensures forall u: nat :: u < |adj| ==>
              newIds[u] + 1 < |index| && Different(Mapped(newIds, adj[u])) && RowDone(adj, newIds, index, neighs[..], u)
  {
    hide Simple, RowLength, Different, Mapped, RowDone;
    forall u: nat | u < |adj|
      ensures newIds[u] + 1 < |index| && Different(Mapped(newIds, adj[u]))
    {
      RowReady(adj, newIds, order, index, u);
    }
    for u := 0 to |adj|
      invariant forall w: nat :: w < u ==> RowDone(adj, newIds, index, neighs[..], w)
      invariant forall w: nat :: u <= w < |adj| ==> offsets[newIds[w]] == index[newIds[w]]
    {
      RowReady(adj, newIds, order, index, u);
      ghost var before := neighs[..];
      assert forall w: nat :: u < w < |adj| ==> newIds[w] != newIds[u];
      PlaceRow(adj, newIds, neighs, offsets, index, u);
      RowNow(adj, newIds, index, neighs[..], u);
      forall w: nat | w < u
        ensures RowDone(adj, newIds, index, neighs[..], w)
      {
        assert neighs[..][..index[newIds[u]]] == before[..index[newIds[u]]];
        assert neighs[..][index[newIds[u] + 1]..] == before[index[newIds[u] + 1]..];
        RowStays(adj, newIds, order, index, before, neighs[..], w, u);
      }
    }
  }

  lemma RowNow(adj: seq<seq<nat>>, newIds: seq<nat>, index: seq<nat>, neighs: seq<nat>, u: nat)
    requires u < |adj| == |newIds| && Different(Mapped(newIds, adj[u])) && newIds[u] + 1 < |index|
    requires index[newIds[u]] <= index[newIds[u] + 1] <= |neighs|
    requires neighs[index[newIds[u]]..index[newIds[u] + 1]] == NewRow(adj, newIds, u)
    ensures RowDone(adj, newIds, index, neighs, u)
  {
  }

  // ----- The relabelled graph -----

  /** The new graph is the old one with the vertices renamed, and its degrees never rise. */
  ghost predicate Renames(adj: seq<seq<nat>>, newAdj: seq<seq<nat>>, newIds: seq<nat>, order: seq<nat>) {
    && |newAdj| == |adj| && Numbering(|adj|, newIds, order)
    && (forall u: nat, v: nat :: u < |adj| && v < |adj| ==>
          (Linked(adj, u, v) <==> Linked(newAdj, newIds[u], newIds[v])))
  }

  lemma RowLinks(adj: seq<seq<nat>>, newIds: seq<nat>, order: seq<nat>, newAdj: seq<seq<nat>>, u: nat, v: nat)
    requires Simple(adj) && Numbering(|adj|, newIds, order) && u < |adj| == |newAdj| && v < |adj|
    requires Different(Mapped(newIds, adj[u])) && newAdj[newIds[u]] == NewRow(adj, newIds, u)
    ensures Linked(adj, u, v) <==> Linked(newAdj, newIds[u], newIds[v])
  {
    MappedDifferent(adj, newIds, order, u);
  }

  lemma NewIsSimple(adj: seq<seq<nat>>, newIds: seq<nat>, order: seq<nat>, newAdj: seq<seq<nat>>)
    requires Simple(adj) && Renames(adj, newAdj, newIds, order)
    requires forall u: nat :: u < |adj| ==>
               Different(Mapped(newIds, adj[u])) && newAdj[newIds[u]] == NewRow(adj, newIds, u)
    ensures Simple(newAdj)
  {
    hide Different, Mapped, Arranged;
    forall x: nat | x < |newAdj|
      ensures Climbs(newAdj[x]) && x !in newAdj[x]
    {
      var u := order[x];
      assert newAdj[newIds[u]] == NewRow(adj, newIds, u);
      Row(adj, u);
      assert !Linked(adj, u, u);
    }
    forall x: nat, y: nat | x < |newAdj| && y in newAdj[x]
      ensures Returned(newAdj, x, y)
    {
      var u := order[x];
      assert newAdj[newIds[u]] == NewRow(adj, newIds, u);
      MappedDifferent(adj, newIds, order, u);
      assert y < |adj|;
      var v := order[y];
      assert Linked(newAdj, newIds[u], newIds[v]);
      assert Linked(adj, u, v);
      Neighbours(adj, u, v);
      assert Linked(adj, v, u) && Linked(newAdj, newIds[v], newIds[u]);
    }
  }

  method RelabelByDegree(adj: seq<seq<nat>>, blockSize: nat)
    returns (newAdj: seq<seq<nat>>, newIds: array<nat>, ghost order: seq<nat>)
    requires Simple(adj) && blockSize > 0
    ensures Simple(newAdj) && Renames(adj, newAdj, newIds[..], order)
    ensures forall x: nat, y: nat :: x <= y < |newAdj| ==> |newAdj[x]| >= |newAdj[y]|
  {
    hide Simple, SumTo, NewRow, Mapped, Different, Linked, RowDone;
    var degrees;
    degrees, newIds, order := NumberNodes(adj);
    ghost var numbers := degrees[..];
    var offsets := ParallelPrefixSum(degrees, blockSize);
    var index := offsets[..];
    IndexIs(adj, newIds[..], order, degrees[..], index);
    var neighs := new nat[offsets[|adj|]];
    PlaceRows(adj, newIds[..], order, neighs, offsets, index);
    newAdj := seq(|adj|, x requires 0 <= x < |adj| reads neighs =>
      if index[x] <= index[x + 1] <= neighs.Length then neighs[index[x]..index[x + 1]] else []);
    GraphDone(adj, newIds[..], order, index, neighs[..], newAdj);
    DegreesFall(adj, newIds[..], order, numbers, newAdj);
  }

  lemma DegreesFall(adj: seq<seq<nat>>, newIds: seq<nat>, order: seq<nat>, degrees: seq<nat>, newAdj: seq<seq<nat>>)
    requires Numbering(|adj|, newIds, order) && |degrees| == |newAdj| == |adj|
    requires forall x :: 0 <= x < |adj| ==> degrees[x] == |adj[order[x]]|
    requires forall x, y :: 0 <= x < y < |adj| ==> degrees[x] >= degrees[y]
    requires forall u: nat :: u < |adj| ==> |newAdj[newIds[u]]| == |adj[u]|
    ensures forall x: nat, y: nat :: x <= y < |newAdj| ==> |newAdj[x]| >= |newAdj[y]|
  {
    forall x: nat | x < |newAdj|
      ensures |newAdj[x]| == degrees[x]
    {
      assert newIds[order[x]] == x;
    }
  }

  lemma IndexIs(adj: seq<seq<nat>>, newIds: seq<nat>, order: seq<nat>, degrees: seq<nat>, index: seq<nat>)
    requires Simple(adj) && Numbering(|adj|, newIds, order) && |degrees| == |adj| && |index| == |adj| + 1
    requires forall x :: 0 <= x < |adj| ==> degrees[x] == |adj[order[x]]|
    requires forall i :: 0 <= i <= |adj| ==> index[i] == SumTo(degrees, i)
    ensures IndexFor(adj, newIds, order, index)
  {
    hide Simple, SumTo;
    forall u: nat | u < |adj|
      ensures RowLength(adj, newIds, index, u)
    {
      SumNext(degrees, newIds[u]);
    }
    forall x: nat, y: nat | x <= y < |index|
      ensures index[x] <= index[y]
    {
      if x < y {
        SumGrows(degrees, x, y);
      }
    }
  }

  lemma GraphDone(adj: seq<seq<nat>>, newIds: seq<nat>, order: seq<nat>, index: seq<nat>, neighs: seq<nat>,
                  newAdj: seq<seq<nat>>)
    requires IndexFor(adj, newIds, order, index) && |newAdj| == |adj|
    requires forall u: nat :: u < |adj| ==>
               newIds[u] + 1 < |index| && Different(Mapped(newIds, adj[u])) && RowDone(adj, newIds, index, neighs, u)
    requires forall x: nat :: x < |adj| && index[x] <= index[x + 1] <= |neighs| ==>
          newAdj[x] == neighs[index[x]..index[x + 1]]
    ensures Simple(newAdj) && Renames(adj, newAdj, newIds, order)
    ensures forall u: nat :: u < |adj| ==> |newAdj[newIds[u]]| == |adj[u]|
  {
    hide Simple, Mapped, Different, Linked, RowLength, Arranged;
    forall u: nat | u < |adj|
      ensures newAdj[newIds[u]] == NewRow(adj, newIds, u)
    {
      assert RowDone(adj, newIds, index, neighs, u);
    }
    forall u: nat, v: nat | u < |adj| && v < |adj|
      ensures Linked(adj, u, v) <==> Linked(newAdj, newIds[u], newIds[v])
    {
      RowLinks(adj, newIds, order, newAdj, u, v);
    }
    NewIsSimple(adj, newIds, order, newAdj);
  }

  // ----- Triangles -----

  function Rename(newIds: seq<nat>, t: Triple): Triple {
    if t.0 < |newIds| && t.1 < |newIds| && t.2 < |newIds| then (newIds[t.0], newIds[t.1], newIds[t.2]) else t
  }

  /** Renaming the vertices keeps the number of triangles. */
  lemma SameTriangles(adj: seq<seq<nat>>, newAdj: seq<seq<nat>>, newIds: seq<nat>, order: seq<nat>)
    requires Simple(adj) && Simple(newAdj) && Renames(adj, newAdj, newIds, order)
    ensures |Cliques(newAdj)| == |Cliques(adj)|
  {
    hide Simple, Cliques, Triangles, Linked;
    var f := t => Rename(newIds, t);
    forall t, t' | t in Triangles(adj) && t' in Triangles(adj) && f(t) == f(t')
      ensures t == t'
    {
      InRange(adj, t);
      InRange(adj, t');
      assert order[f(t).0] == t.0 && order[f(t).1] == t.1 && order[f(t).2] == t.2;
      assert order[f(t').0] == t'.0 && order[f(t').1] == t'.1 && order[f(t').2] == t'.2;
    }
    ImageSize(f, Triangles(adj));
    forall t | t in Triangles(adj)
      ensures f(t) in Triangles(newAdj)
    {
      InRange(adj, t);
    }
    forall t | t in Triangles(newAdj)
      ensures t in Image(f, Triangles(adj))
    {
      InRange(newAdj, t);
      var back := (order[t.0], order[t.1], order[t.2]);
      assert f(back) == t && back in Triangles(adj);
    }
    assert Image(f, Triangles(adj)) == Triangles(newAdj);
    SixTimes(adj);
    SixTimes(newAdj);
  }

  lemma InRange(adj: seq<seq<nat>>, t: Triple)
    requires Triangle(adj, t)
    ensures t.0 < |adj| && t.1 < |adj| && t.2 < |adj|
  {
  }

  /** The kernel: whether or not the heuristic has it relabel first, it counts the cliques of the given graph. */
  method Hybrid(adj: seq<seq<nat>>, worthRelabelling: bool, blockSize: nat) returns (total: nat)
    requires Simple(adj) && blockSize > 0
    ensures total == |Cliques(adj)|
  {
    hide Simple, Cliques, Renames;
    if worthRelabelling {
      ghost var order;
      var newAdj, newIds;
      newAdj, newIds, order := RelabelByDegree(adj, blockSize);
      total := OrderedCount(newAdj);
      SameTriangles(adj, newAdj, newIds[..], order);
    } else {
      total := OrderedCount(adj);
    }
  }
}
