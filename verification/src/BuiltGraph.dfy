/** The graph that the builder makes of an edge list, as a whole: what its rows hold, that the incoming rows are the
    transpose of the outgoing ones, and that an undirected graph's number of entries is even. */
module BuiltGraph {
  import opened CsrBuild

  /** The edge list joins r to v with weight w, as seen from the given side. */
  ghost predicate Joins(el: seq<WeightedEdge>, symmetrize: bool, transpose: bool, r: nat, v: nat, w: int) {
    || ((symmetrize || !transpose) && WeightedEdge(r, NodeWeight(v, w)) in el)
    || ((symmetrize || transpose) && WeightedEdge(v, NodeWeight(r, w)) in el)
  }

  ghost predicate LeastJoin(el: seq<WeightedEdge>, symmetrize: bool, transpose: bool, r: nat, v: nat, w: int) {
    && r != v && Joins(el, symmetrize, transpose, r, v, w)
    && forall x :: Joins(el, symmetrize, transpose, r, v, x) ==> w <= x
  }

  /** Row r: its neighbours in ascending order, each once, without r, with the least weight of the parallel edges. */
  ghost predicate BuiltRow(el: seq<WeightedEdge>, symmetrize: bool, transpose: bool, r: nat, row: seq<NodeWeight>) {
    Ascends(row) && forall d :: d in row <==> LeastJoin(el, symmetrize, transpose, r, d.v, d.w)
  }

  lemma SquishedRow(el: seq<WeightedEdge>, symmetrize: bool, transpose: bool, order: seq<Arc>, r: nat)
    requires multiset(order) == multiset(AllArcs(el, symmetrize, transpose))
    ensures BuiltRow(el, symmetrize, transpose, r, Squish(RowOf(order, r), r))
  {
    hide Squish, RowOf, AllArcs;
    SquishIs(RowOf(order, r), r);
    forall d: NodeWeight
      ensures d in RowOf(order, r) <==> Joins(el, symmetrize, transpose, r, d.v, d.w)
    {
      RowMembers(order, r, d);
      ArcsAre(el, symmetrize, transpose, r, d.v, d.w);
      assert d == NodeWeight(d.v, d.w);
      assert d in RowOf(order, r) <==> d in multiset(RowOf(order, r));
      assert Arc(r, d) in multiset(order) <==> Arc(r, d) in AllArcs(el, symmetrize, transpose);
    }
    forall d: NodeWeight
      ensures Lightest(RowOf(order, r), d) && d.v != r <==> LeastJoin(el, symmetrize, transpose, r, d.v, d.w)
    {
      LightestIsLeast(el, symmetrize, transpose, RowOf(order, r), r, d);
    }
  }

  lemma LightestIsLeast(el: seq<WeightedEdge>, symmetrize: bool, transpose: bool, row: seq<NodeWeight>, r: nat,
                        d: NodeWeight)
    requires forall e: NodeWeight :: e in row <==> Joins(el, symmetrize, transpose, r, e.v, e.w)
    ensures Lightest(row, d) && d.v != r <==> LeastJoin(el, symmetrize, transpose, r, d.v, d.w)
  {
    hide Joins;
    if LeastJoin(el, symmetrize, transpose, r, d.v, d.w) {
      assert Lightest(row, d);
    }
    if Lightest(row, d) && d.v != r {
      forall x | Joins(el, symmetrize, transpose, r, d.v, x)
        ensures d.w <= x
      {
        assert NodeWeight(d.v, x) in row;
      }
    }
  }

  /** Row r of a neighbour array. */
  ghost function RowAt(index: seq<nat>, neighs: seq<NodeWeight>, r: nat): seq<NodeWeight>
    requires r + 1 < |index| && Indexes(index, |neighs|)
  {
    neighs[index[r]..index[r + 1]]
  }

  ghost predicate Side(el: seq<WeightedEdge>, n: nat, symmetrize: bool, transpose: bool, index: seq<nat>,
                       neighs: seq<NodeWeight>) {
    && |index| == n + 1 && Indexes(index, |neighs|)
    && forall r: nat :: r < n ==> BuiltRow(el, symmetrize, transpose, r, RowAt(index, neighs, r))
  }

  /** One side of the graph, for any order of the parallel insertions. */
  method BuildSide(el: seq<WeightedEdge>, n: nat, symmetrize: bool, transpose: bool, order: seq<Arc>, blockSize: nat)
    returns (index: seq<nat>, neighs: array<NodeWeight>)
    requires InBounds(el, n) && blockSize > 0 && multiset(order) == multiset(AllArcs(el, symmetrize, transpose))
    ensures fresh(neighs) && Side(el, n, symmetrize, transpose, index, neighs[..])
  {
    hide Squish, RowOf, AllArcs, BuiltRow;
    var raw, first := MakeCSR(el, n, symmetrize, transpose, order, blockSize);
    ghost var rows := seq(n, r requires 0 <= r < n => RowOf(order, r));
    index, neighs := SquishCSR(raw, first, n, rows, blockSize);
    forall r: nat | r < n
      ensures BuiltRow(el, symmetrize, transpose, r, RowAt(index, neighs[..], r))
    {
      SquishedRow(el, symmetrize, transpose, order, r);
      assert HasRow(index, neighs[..], r, Squish(rows[r], r));
    }
  }

  /** An outgoing entry has its incoming counterpart, with the same weight. */
  lemma SidesTranspose(el: seq<WeightedEdge>, n: nat, symmetrize: bool, outIndex: seq<nat>, out: seq<NodeWeight>,
                       inIndex: seq<nat>, inn: seq<NodeWeight>, u: nat, v: nat, w: int)
    requires Side(el, n, symmetrize, false, outIndex, out) && Side(el, n, symmetrize, true, inIndex, inn) && u < n
          && v < n
    ensures NodeWeight(v, w) in RowAt(outIndex, out, u) <==> NodeWeight(u, w) in RowAt(inIndex, inn, v)
  {
    assert BuiltRow(el, symmetrize, false, u, RowAt(outIndex, out, u));
    assert BuiltRow(el, symmetrize, true, v, RowAt(inIndex, inn, v));
    assert forall x :: Joins(el, symmetrize, false, u, v, x) <==> Joins(el, symmetrize, true, v, u, x);
    assert LeastJoin(el, symmetrize, false, u, v, w) <==> LeastJoin(el, symmetrize, true, v, u, w);
  }

  /** Built symmetrically, either side serves as the other. */
  lemma SymmetricSides(el: seq<WeightedEdge>, n: nat, index: seq<nat>, neighs: seq<NodeWeight>)
    requires Side(el, n, true, false, index, neighs)
    ensures Side(el, n, true, true, index, neighs)
  {
    forall r: nat | r < n
      ensures BuiltRow(el, true, true, r, RowAt(index, neighs, r))
    {
      assert BuiltRow(el, true, false, r, RowAt(index, neighs, r));
      assert forall v: nat, x :: Joins(el, true, false, r, v, x) <==> Joins(el, true, true, r, v, x);
      forall d: NodeWeight
        ensures LeastJoin(el, true, false, r, d.v, d.w) <==> LeastJoin(el, true, true, r, d.v, d.w)
      {
      }
    }
  }

  // ----- An undirected graph has an even number of entries -----

  type Pair = (nat, nat)

  ghost predicate HasVertex(row: seq<NodeWeight>, v: nat) {
    exists i :: 0 <= i < |row| && row[i].v == v
  }

  lemma HasVertexStep(row: seq<NodeWeight>, v: nat)
    requires row != []
    ensures HasVertex(row, v) <==> HasVertex(row[..|row| - 1], v) || v == row[|row| - 1].v
  {
    var m := |row| - 1;
    if HasVertex(row[..m], v) {
      var i :| 0 <= i < m && row[..m][i].v == v;
      assert row[i].v == v;
    }
    if HasVertex(row, v) && v != row[m].v {
      var i :| 0 <= i < |row| && row[i].v == v;
      assert row[..m][i].v == v;
    }
  }

  /** The pairs of r with its neighbours. */
  ghost function RowPairs(r: nat, row: seq<NodeWeight>): set<Pair> {
    if row == [] then {} else RowPairs(r, row[..|row| - 1]) + {(r, row[|row| - 1].v)}
  }

  lemma {:induction false} RowPairsAre(r: nat, row: seq<NodeWeight>, p: Pair)
    ensures p in RowPairs(r, row) <==> p.0 == r && HasVertex(row, p.1)
  {
    if row != [] {
      RowPairsAre(r, row[..|row| - 1], p);
      HasVertexStep(row, p.1);
    }
  }

  lemma {:induction false} RowPairsSize(r: nat, row: seq<NodeWeight>)
    requires Ascends(row)
    ensures |RowPairs(r, row)| == |row|
  {
    if row != [] {
      var m := |row| - 1;
      RowPairsSize(r, row[..m]);
      RowPairsAre(r, row[..m], (r, row[m].v));
    }
  }

  ghost function PairsBelow(index: seq<nat>, neighs: seq<NodeWeight>, n: nat): set<Pair>
    requires n < |index| && Indexes(index, |neighs|)
  {
    if n == 0 then {} else PairsBelow(index, neighs, n - 1) + RowPairs(n - 1, RowAt(index, neighs, n - 1))
  }

  lemma {:induction false} PairsAre(index: seq<nat>, neighs: seq<NodeWeight>, n: nat, p: Pair)
    requires n < |index| && Indexes(index, |neighs|)
    ensures p in PairsBelow(index, neighs, n) <==> p.0 < n && HasVertex(RowAt(index, neighs, p.0), p.1)
  {
    hide RowPairs, HasVertex;
    if n > 0 {
      PairsAre(index, neighs, n - 1, p);
      RowPairsAre(n - 1, RowAt(index, neighs, n - 1), p);
    }
  }

  lemma {:induction false} PairsSize(index: seq<nat>, neighs: seq<NodeWeight>, n: nat)
    requires n < |index| && Indexes(index, |neighs|) && forall r: nat :: r < n ==> Ascends(RowAt(index, neighs, r))
    ensures |PairsBelow(index, neighs, n)| == index[n]
  {
    hide RowPairs, HasVertex, Ascends;
    if n > 0 {
      PairsSize(index, neighs, n - 1);
      var row, rest := RowPairs(n - 1, RowAt(index, neighs, n - 1)), PairsBelow(index, neighs, n - 1);
      RowPairsSize(n - 1, RowAt(index, neighs, n - 1));
      forall p | p in rest
        ensures p !in row
      {
        PairsAre(index, neighs, n - 1, p);
        RowPairsAre(n - 1, RowAt(index, neighs, n - 1), p);
      }
      assert rest !! row;
      assert |rest + row| == |rest| + |row|;
    }
  }

  ghost predicate Mirrored(s: set<Pair>) {
    forall p :: p in s ==> p.0 != p.1 && (p.1, p.0) in s
  }

  lemma {:induction false} MirroredIsEven(s: set<Pair>)
    requires Mirrored(s)
    ensures |s| % 2 == 0
  {
    if s != {} {
      var p :| p in s;
      var rest := s - {p, (p.1, p.0)};
      assert Mirrored(rest) by {
        forall q | q in rest
          ensures q.0 != q.1 && (q.1, q.0) in rest
        {
          assert q == (q.0, q.1) && p == (p.0, p.1);
        }
      }
      MirroredIsEven(rest);
      assert s == rest + {p} + {(p.1, p.0)};
      assert (p.1, p.0) != p;
    }
  }

  /** Halving the number of entries for the edge count and doubling it again loses nothing. */
  lemma EntriesEven(el: seq<WeightedEdge>, n: nat, index: seq<nat>, neighs: seq<NodeWeight>)
    requires InBounds(el, n) && Side(el, n, true, false, index, neighs)
    ensures |neighs| % 2 == 0
  {
    forall r: nat | r < n
      ensures Ascends(RowAt(index, neighs, r))
    {
      assert BuiltRow(el, true, false, r, RowAt(index, neighs, r));
    }
    PairsSize(index, neighs, n);
    var s := PairsBelow(index, neighs, n);
    forall p | p in s
      ensures p.0 != p.1 && (p.1, p.0) in s
    {
      PairsAre(index, neighs, n, p);
      PairMirrored(el, n, index, neighs, p.0, p.1);
      PairsAre(index, neighs, n, (p.1, p.0));
    }
    MirroredIsEven(s);
  }

  lemma PairMirrored(el: seq<WeightedEdge>, n: nat, index: seq<nat>, neighs: seq<NodeWeight>, u: nat, v: nat)
    requires InBounds(el, n) && Side(el, n, true, false, index, neighs) && u < n
          && HasVertex(RowAt(index, neighs, u), v)
    ensures u != v && v < n && HasVertex(RowAt(index, neighs, v), u)
  {
    var row := RowAt(index, neighs, u);
    assert BuiltRow(el, true, false, u, row);
    var i :| 0 <= i < |row| && row[i].v == v;
    var d := row[i];
    assert d in row && LeastJoin(el, true, false, u, v, d.w);
    assert v < n;
    SymmetricSides(el, n, index, neighs);
    SidesTranspose(el, n, true, index, neighs, index, neighs, u, v, d.w);
    var back := RowAt(index, neighs, v);
    assert d == NodeWeight(v, d.w);
    var j :| 0 <= j < |back| && back[j] == NodeWeight(u, d.w);
  }

  // ----- The whole graph -----

  /** The built graph; an undirected one shares its rows between the two sides. */
  datatype Csr = Csr(directed: bool, outIndex: seq<nat>, out: seq<NodeWeight>, inIndex: seq<nat>,
                     inn: seq<NodeWeight>) {
    function NumEdges(): nat {
      if directed then |out| else |out| / 2
    }

    function NumEdgesDirected(): nat {
      if directed then NumEdges() else 2 * NumEdges()
    }
  }

  method MakeGraph(el: seq<WeightedEdge>, n: nat, symmetrize: bool, outOrder: seq<Arc>, inOrder: seq<Arc>,
                   blockSize: nat) returns (g: Csr)
    requires InBounds(el, n) && blockSize > 0
    requires multiset(outOrder) == multiset(AllArcs(el, symmetrize, false))
    requires multiset(inOrder) == multiset(AllArcs(el, symmetrize, true))
    ensures g.directed == !symmetrize && g.NumEdgesDirected() == |g.out|
    ensures Side(el, n, symmetrize, false, g.outIndex, g.out) && Side(el, n, symmetrize, true, g.inIndex, g.inn)
    ensures forall u: nat, v: nat, w: int :: u < n && v < n ==>
              (NodeWeight(v, w) in RowAt(g.outIndex, g.out, u) <==> NodeWeight(u, w) in RowAt(g.inIndex, g.inn, v))
  {
    hide Side, AllArcs;
    var index, neighs := BuildSide(el, n, symmetrize, false, outOrder, blockSize);
    if symmetrize {
      g := Csr(false, index, neighs[..], index, neighs[..]);
      SymmetricSides(el, n, index, neighs[..]);
      EntriesEven(el, n, index, neighs[..]);
    } else {
      var inIndex, inNeighs := BuildSide(el, n, symmetrize, true, inOrder, blockSize);
      g := Csr(true, index, neighs[..], inIndex, inNeighs[..]);
    }
    SideIndexes(el, n, symmetrize, false, g.outIndex, g.out);
    SideIndexes(el, n, symmetrize, true, g.inIndex, g.inn);
    forall u: nat, v: nat, w: int | u < n && v < n
      ensures NodeWeight(v, w) in RowAt(g.outIndex, g.out, u) <==> NodeWeight(u, w) in RowAt(g.inIndex, g.inn, v)
    {
      SidesTranspose(el, n, symmetrize, g.outIndex, g.out, g.inIndex, g.inn, u, v, w);
    }
  }

  lemma SideIndexes(el: seq<WeightedEdge>, n: nat, symmetrize: bool, transpose: bool, index: seq<nat>,
                    neighs: seq<NodeWeight>)
    requires Side(el, n, symmetrize, transpose, index, neighs)
    ensures |index| == n + 1 && Indexes(index, |neighs|)
  {
  }
}
