/** What the builder delivers is what the kernels ask for. */
module KernelInput {
  import opened SliceSort
  import opened CsrBuild
  import opened BuiltGraph
  import opened Sums
  import Graphs
  import ShortestPaths
  import PageRank
  import TriangleCount
  import EdgeLists
  import InPlaceBuild

  /** A row without its weights. */
  ghost function Vertices(row: seq<NodeWeight>): (r: seq<nat>)
    ensures |r| == |row| && forall i :: 0 <= i < |row| ==> r[i] == row[i].v
  {
    seq(|row|, i requires 0 <= i < |row| => row[i].v)
  }

  ghost function Lists(n: nat, index: seq<nat>, neighs: seq<NodeWeight>): (r: seq<seq<nat>>)
    requires |index| == n + 1 && Indexes(index, |neighs|)
    ensures |r| == n && forall u: nat :: u < n ==> r[u] == Vertices(RowAt(index, neighs, u))
  {
    seq(n, u requires 0 <= u < n => Vertices(RowAt(index, neighs, u)))
  }

  /** The row of r without weights: ascending, and exactly the vertices joined to r. */
  lemma RowVertices(el: seq<WeightedEdge>, symmetrize: bool, transpose: bool, r: nat, row: seq<NodeWeight>)
    requires BuiltRow(el, symmetrize, transpose, r, row)
    ensures Climbs(Vertices(row))
    ensures forall v: nat :: v in Vertices(row) <==> v != r && exists w :: Joins(el, symmetrize, transpose, r, v, w)
  {
    hide Joins;
    forall v: nat | v in Vertices(row)
      ensures v != r && exists w :: Joins(el, symmetrize, transpose, r, v, w)
    {
      var i :| 0 <= i < |row| && Vertices(row)[i] == v;
      assert row[i] in row;
    }
    forall v: nat | v != r && exists w :: Joins(el, symmetrize, transpose, r, v, w)
      ensures v in Vertices(row)
    {
      var w :| Joins(el, symmetrize, transpose, r, v, w);
      var least := LeastWeight(el, symmetrize, transpose, r, v, w);
      assert NodeWeight(v, least) in row;
      var i :| 0 <= i < |row| && row[i] == NodeWeight(v, least);
      assert Vertices(row)[i] == v;
    }
  }

  /** Of the finitely many joining edges one is the lightest. */
  lemma {:induction false} LeastWeight(el: seq<WeightedEdge>, symmetrize: bool, transpose: bool, r: nat, v: nat, w: int)
    returns (least: int)
    requires r != v && Joins(el, symmetrize, transpose, r, v, w)
    ensures LeastJoin(el, symmetrize, transpose, r, v, least)
    decreases |el|
  {
    var m := |el| - 1;
    var e := el[m];
    assert el == el[..m] + [e];
    assert forall x :: Joins(el, symmetrize, transpose, r, v, x) <==>
             Joins(el[..m], symmetrize, transpose, r, v, x) || Joins([e], symmetrize, transpose, r, v, x);
    if x :| Joins(el[..m], symmetrize, transpose, r, v, x) {
      least := LeastWeight(el[..m], symmetrize, transpose, r, v, x);
      if Joins([e], symmetrize, transpose, r, v, e.d.w) && e.d.w < least {
        least := e.d.w;
      }
    } else {
      least := w;
    }
  }

  /** Both sides together make a graph with its transpose. */
  lemma BuiltIsGraph(el: seq<WeightedEdge>, n: nat, symmetrize: bool, outIndex: seq<nat>, out: seq<NodeWeight>,
                     inIndex: seq<nat>, inn: seq<NodeWeight>)
    requires InBounds(el, n) && n > 0
    requires Side(el, n, symmetrize, false, outIndex, out) && Side(el, n, symmetrize, true, inIndex, inn)
    ensures PageRank.Transposed(Graphs.Graph(Lists(n, outIndex, out), Lists(n, inIndex, inn)))
  {
    hide Joins;
    var g := Graphs.Graph(Lists(n, outIndex, out), Lists(n, inIndex, inn));
    forall u: nat | u < n
      ensures Climbs(g.out[u]) && Climbs(g.inn[u]) && g.InRange(g.out[u]) && g.InRange(g.inn[u])
    {
      SideRow(el, n, symmetrize, false, outIndex, out, u);
      SideRow(el, n, symmetrize, true, inIndex, inn, u);
    }
    forall u: nat, v: nat | u < n && v < n
      ensures v in g.out[u] <==> u in g.inn[v]
    {
      SideRow(el, n, symmetrize, false, outIndex, out, u);
      SideRow(el, n, symmetrize, true, inIndex, inn, v);
      JoinsTurn(el, symmetrize, u, v);
    }
    assert g.Ok();
    forall u, v | 0 <= u < n && 0 <= v < n
      ensures PageRank.SameCount(g, u, v)
    {
      SimpleCount(g, u, v);
      SimpleCount(PageRank.Reverse(g), v, u);
    }
  }

  lemma JoinsTurn(el: seq<WeightedEdge>, symmetrize: bool, u: nat, v: nat)
    ensures forall w :: Joins(el, symmetrize, false, u, v, w) <==> Joins(el, symmetrize, true, v, u, w)
  {
  }

  lemma SideRow(el: seq<WeightedEdge>, n: nat, symmetrize: bool, transpose: bool, index: seq<nat>,
                neighs: seq<NodeWeight>, u: nat)
    requires InBounds(el, n) && Side(el, n, symmetrize, transpose, index, neighs) && u < n
    ensures Climbs(Lists(n, index, neighs)[u]) && forall i :: 0 <= i < |Lists(n, index, neighs)[u]| ==>
          Lists(n, index, neighs)[u][i] < n
    ensures forall v: nat :: v in Lists(n, index, neighs)[u] <==>
          v != u && exists w :: Joins(el, symmetrize, transpose, u, v, w)
  {
    var row := RowAt(index, neighs, u);
    assert BuiltRow(el, symmetrize, transpose, u, row);
    RowVertices(el, symmetrize, transpose, u, row);
    forall i | 0 <= i < |Vertices(row)|
      ensures Vertices(row)[i] < n
    {
      var v := Vertices(row)[i];
      assert v in Vertices(row);
      var w :| Joins(el, symmetrize, transpose, u, v, w);
    }
  }

  /** In an ascending list every neighbour counts once. */
  lemma SimpleCount(g: Graphs.Graph, u: nat, v: nat)
    requires u < |g.out| && Climbs(g.out[u])
    ensures ShortestPaths.Adjacent(g, u, v) == if v in g.out[u] then 1.0 else 0.0
  {
    hide Total;
    var hits := k => ShortestPaths.Hit(g, u, k, v);
    if v in g.out[u] {
      var k :| 0 <= k < |g.out[u]| && g.out[u][k] == v;
      TotalOnly(ShortestPaths.Degree(g, u), k, hits);
    } else {
      TotalZero(ShortestPaths.Degree(g, u), hits);
    }
  }

  /** An undirected graph's lists are what the triangle count asks for. */
  lemma BuiltIsSimple(el: seq<WeightedEdge>, n: nat, index: seq<nat>, neighs: seq<NodeWeight>)
    requires InBounds(el, n) && Side(el, n, true, false, index, neighs)
    ensures TriangleCount.Simple(Lists(n, index, neighs))
  {
    hide Joins;
    var adj := Lists(n, index, neighs);
    forall u: nat | u < n
      ensures Climbs(adj[u]) && u !in adj[u]
    {
      SideRow(el, n, true, false, index, neighs, u);
    }
    forall u: nat, v: nat | u < n && v in adj[u]
      ensures TriangleCount.Returned(adj, u, v)
    {
      SideRow(el, n, true, false, index, neighs, u);
      assert v < n;
      SideRow(el, n, true, false, index, neighs, v);
      JoinsBack(el, u, v);
    }
  }

  lemma JoinsBack(el: seq<WeightedEdge>, u: nat, v: nat)
    ensures forall w :: Joins(el, true, false, u, v, w) <==> Joins(el, true, false, v, u, w)
  {
  }

  // ----- The two builders -----

  /** Ascending lists with the same members are the same list. */
  lemma {:induction false} ClimbsUnique(a: seq<nat>, b: seq<nat>)
    requires Climbs(a) && Climbs(b) && forall x: nat :: x in a <==> x in b
    ensures a == b
  {
    if a == [] {
      assert forall i :: 0 <= i < |b| ==> b[i] in b;
    } else {
      assert a[0] in b;
      SameLast(a, b);
      ClimbsUnique(a[..|a| - 1], b[..|b| - 1]);
      assert a == a[..|a| - 1] + [a[|a| - 1]] && b == b[..|b| - 1] + [b[|b| - 1]];
    }
  }

  lemma SameLast(a: seq<nat>, b: seq<nat>)
    requires Climbs(a) && Climbs(b) && a != [] && b != [] && forall x: nat :: x in a <==> x in b
    ensures a[|a| - 1] == b[|b| - 1]
    ensures Climbs(a[..|a| - 1]) && Climbs(b[..|b| - 1])
    ensures var front, front' := a[..|a| - 1], b[..|b| - 1]; forall x: nat :: x in front <==> x in front'
  {
    var m, n := |a| - 1, |b| - 1;
    assert a[m] in b && b[n] in a;
    LastIsGreatest(a, b[n]);
    LastIsGreatest(b, a[m]);
    forall x: nat
      ensures x in a[..m] <==> x in b[..n]
    {
      FrontOf(a, x);
      FrontOf(b, x);
    }
  }

  lemma LastIsGreatest(a: seq<nat>, x: nat)
    requires Climbs(a) && x in a
    ensures x <= a[|a| - 1]
  {
  }

  lemma FrontOf(a: seq<nat>, x: nat)
    requires Climbs(a) && a != []
    ensures x in a[..|a| - 1] <==> x in a && x != a[|a| - 1]
  {
    var m := |a| - 1;
    assert a == a[..m] + [a[m]];
    assert forall i :: 0 <= i < m ==> a[..m][i] == a[i] && a[i] < a[m];
  }

  /** The weighted edges carry the plain ones. */
  ghost predicate Carries(el: seq<WeightedEdge>, plain: seq<EdgeLists.Edge>) {
    |el| == |plain| && forall i :: 0 <= i < |el| ==> el[i].u == plain[i].u && el[i].d.v == plain[i].v
  }

  lemma CarriesJoins(el: seq<WeightedEdge>, plain: seq<EdgeLists.Edge>, u: nat, v: nat)
    requires Carries(el, plain)
    ensures (exists w :: Joins(el, true, false, u, v, w)) <==>
          EdgeLists.Edge(u, v) in plain || EdgeLists.Edge(v, u) in plain
  {
    if w :| Joins(el, true, false, u, v, w) {
      if WeightedEdge(u, NodeWeight(v, w)) in el {
        var i :| 0 <= i < |el| && el[i] == WeightedEdge(u, NodeWeight(v, w));
        assert plain[i] == EdgeLists.Edge(u, v);
      } else {
        var i :| 0 <= i < |el| && el[i] == WeightedEdge(v, NodeWeight(u, w));
        assert plain[i] == EdgeLists.Edge(v, u);
      }
    }
    if EdgeLists.Edge(u, v) in plain {
      var i :| 0 <= i < |plain| && plain[i] == EdgeLists.Edge(u, v);
      assert el[i] == WeightedEdge(u, NodeWeight(v, el[i].d.w));
      assert Joins(el, true, false, u, v, el[i].d.w);
    } else if EdgeLists.Edge(v, u) in plain {
      var i :| 0 <= i < |plain| && plain[i] == EdgeLists.Edge(v, u);
      assert el[i] == WeightedEdge(v, NodeWeight(u, el[i].d.w));
      assert Joins(el, true, false, u, v, el[i].d.w);
    }
  }

  /** Building a symmetric graph inside the edge list's own memory gives the same lists as building it beside it. */
  lemma BuildersAgree(el: seq<WeightedEdge>, plain: seq<EdgeLists.Edge>, n: nat, index: seq<nat>,
                      neighs: seq<NodeWeight>,
                      offsets: seq<nat>, memory: seq<nat>, v: nat)
    requires InBounds(el, n) && Carries(el, plain) && Side(el, n, true, false, index, neighs) && v < n
    requires InPlaceBuild.SymmetricRow(plain, offsets, memory, v)
    ensures memory[offsets[v]..offsets[v + 1]] == Lists(n, index, neighs)[v]
  {
    hide Joins;
    SideRow(el, n, true, false, index, neighs, v);
    forall w: nat
      ensures w in memory[offsets[v]..offsets[v + 1]] <==> w in Lists(n, index, neighs)[v]
    {
      CarriesJoins(el, plain, v, w);
    }
    ClimbsUnique(memory[offsets[v]..offsets[v + 1]], Lists(n, index, neighs)[v]);
  }
}
