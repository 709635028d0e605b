/** Counting walks and shortest paths, and the share of the shortest paths that runs through a vertex. */
module ShortestPaths {
  import opened Graphs
  import opened Sums

  function Degree(g: Graph, u: int): nat {
    if 0 <= u < |g.out| then |g.out[u]| else 0
  }

  /** The k-th neighbour of u. */
  function Target(g: Graph, u: int, k: int): int {
    if 0 <= u < |g.out| && 0 <= k < |g.out[u]| then g.out[u][k] else -1
  }

  ghost function Hit(g: Graph, u: int, k: int, v: int): real {
    if Target(g, u, k) == v && v >= 0 then 1.0 else 0.0
  }

  /** How many edges lead from u to v. */
  ghost function Adjacent(g: Graph, u: int, v: int): real {
    Total(Degree(g, u), k => Hit(g, u, k, v))
  }

  /** How many walks of e edges lead from u to t. */
  ghost function Walks(g: Graph, u: int, t: int, e: nat): real
    decreases e
  {
    if e == 0 then if u == t then 1.0 else 0.0
    else Total(Degree(g, u), k => Walks(g, Target(g, u, k), t, e - 1))
  }

  // ----- The numbers count sets of walks -----

  /** A walk by the positions of its edges in the neighbour lists. */
  predicate Leads(g: Graph, u: int, walk: seq<nat>, t: int)
    decreases walk
  {
    if walk == [] then u == t
    else walk[0] < Degree(g, u) && Leads(g, Target(g, u, walk[0]), walk[1..], t)
  }

  ghost function WalkSet(g: Graph, u: int, t: int, e: nat): set<seq<nat>>
    decreases e, 0
  {
    if e == 0 then if u == t then {[]} else {}
    else WalksBelow(g, u, t, e, Degree(g, u))
  }

  ghost function WalksBelow(g: Graph, u: int, t: int, e: nat, m: nat): set<seq<nat>>
    requires e > 0 && m <= Degree(g, u)
    decreases e - 1, m + 1
  {
    if m == 0 then {}
    else WalksBelow(g, u, t, e, m - 1) + Extended(m - 1, WalkSet(g, Target(g, u, m - 1), t, e - 1))
  }

  ghost function Extended(k: nat, s: set<seq<nat>>): set<seq<nat>> {
    set walk | walk in s :: [k] + walk
  }

  lemma ExtendedMember(k: nat, s: set<seq<nat>>, walk: seq<nat>)
    ensures walk in Extended(k, s) <==> walk != [] && walk[0] == k && walk[1..] in s
  {
    if walk != [] {
      assert walk == [walk[0]] + walk[1..];
    }
    if walk in Extended(k, s) {
      var tail :| tail in s && walk == [k] + tail;
      assert walk[1..] == tail;
    }
  }

  lemma {:induction false} ExtendedSize(k: nat, s: set<seq<nat>>)
    ensures |Extended(k, s)| == |s|
  {
    if s != {} {
      var walk :| walk in s;
      ExtendedSize(k, s - {walk});
      var rest := Extended(k, s - {walk});
      ExtendedMember(k, s - {walk}, [k] + walk);
      assert ([k] + walk)[1..] == walk;
      assert Extended(k, s) == rest + {[k] + walk};
    }
  }

  lemma {:induction false} WalkSetMember(g: Graph, u: int, t: int, e: nat, walk: seq<nat>)
    ensures walk in WalkSet(g, u, t, e) <==> |walk| == e && Leads(g, u, walk, t)
    decreases e, 0
  {
    if e > 0 {
      BelowMember(g, u, t, e, Degree(g, u), walk);
    }
  }

  lemma {:induction false} BelowMember(g: Graph, u: int, t: int, e: nat, m: nat, walk: seq<nat>)
    requires e > 0 && m <= Degree(g, u)
    ensures walk in WalksBelow(g, u, t, e, m) <==> |walk| == e && walk[0] < m && Leads(g, u, walk, t)
    decreases e - 1, m + 1
  {
    if m > 0 {
      BelowMember(g, u, t, e, m - 1, walk);
      var s := WalkSet(g, Target(g, u, m - 1), t, e - 1);
      ExtendedMember(m - 1, s, walk);
      if walk != [] {
        WalkSetMember(g, Target(g, u, m - 1), t, e - 1, walk[1..]);
      }
    }
  }

  lemma BelowSizes(g: Graph, u: int, t: int, e: nat, m: nat)
    requires e > 0 && 0 < m <= Degree(g, u)
    ensures |WalksBelow(g, u, t, e, m)| == |WalksBelow(g, u, t, e, m - 1)| + |WalkSet(g, Target(g, u, m - 1), t, e - 1)|
  {
    hide Target, Degree, WalkSet, Leads;
    var next := WalkSet(g, Target(g, u, m - 1), t, e - 1);
    ExtendedSize(m - 1, next);
    var below, more := WalksBelow(g, u, t, e, m - 1), Extended(m - 1, next);
    forall walk | walk in below
      ensures walk !in more
    {
      BelowMember(g, u, t, e, m - 1, walk);
      ExtendedMember(m - 1, next, walk);
    }
    assert below * more == {};
    assert |below + more| == |below| + |more|;
  }

  lemma {:induction false} BelowCount(g: Graph, u: int, t: int, e: nat, m: nat, sizes: int -> real)
    requires e > 0 && m <= Degree(g, u)
    requires forall k :: 0 <= k < m ==> sizes(k) == |WalkSet(g, Target(g, u, k), t, e - 1)| as real
    ensures |WalksBelow(g, u, t, e, m)| as real == Total(m, sizes)
  {
    hide Target, Degree, WalkSet;
    if m > 0 {
      BelowCount(g, u, t, e, m - 1, sizes);
      BelowSizes(g, u, t, e, m);
    }
  }

  /** `Walks` is the number of ways to follow e edges from u to t. */
  lemma {:induction false} WalksCount(g: Graph, u: int, t: int, e: nat)
    ensures Walks(g, u, t, e) == |WalkSet(g, u, t, e)| as real
    decreases e
  {
    hide Target, Degree, WalksBelow, Total;
    if e > 0 {
      var ways := k => Walks(g, Target(g, u, k), t, e - 1);
      forall k | 0 <= k < Degree(g, u)
        ensures ways(k) == |WalkSet(g, Target(g, u, k), t, e - 1)| as real
      {
        WalksCount(g, Target(g, u, k), t, e - 1);
      }
      BelowCount(g, u, t, e, Degree(g, u), ways);
    }
  }

  // ----- Walks step by step -----

  /** A sum over a vertex's edges is a sum over all vertices with multiplicity. */
  lemma EdgesToVertices(g: Graph, u: int, f: int -> real, edge: int -> real, vertex: int -> real)
    requires g.Ok() && 0 <= u < |g.out|
    requires forall k :: 0 <= k < Degree(g, u) ==> edge(k) == f(Target(g, u, k))
    requires forall v :: 0 <= v < |g.out| ==> vertex(v) == Adjacent(g, u, v) * f(v)
    ensures Total(Degree(g, u), edge) == Total(|g.out|, vertex)
  {
    hide Total, RowSum, ColumnSum;
    var F := (k, v) => Hit(g, u, k, v) * f(v);
    forall k | 0 <= k < Degree(g, u)
      ensures edge(k) == RowSum(|g.out|, F, k)
    {
      assert g.InRange(g.out[u]);
      RowOnly(|g.out|, F, k, Target(g, u, k));
    }
    forall v | 0 <= v < |g.out|
      ensures vertex(v) == ColumnSum(Degree(g, u), F, v)
    {
      ColumnScale(Degree(g, u), F, v, f(v), k => Hit(g, u, k, v));
    }
    RowsAndColumns(Degree(g, u), |g.out|, F, edge, vertex);
  }

  /** The first edge of a walk, by vertices. */
  lemma FirstEdge(g: Graph, u: int, t: int, e: nat, terms: int -> real)
    requires g.Ok() && 0 <= u < |g.out|
    requires forall v :: 0 <= v < |g.out| ==> terms(v) == Adjacent(g, u, v) * Walks(g, v, t, e)
    ensures Walks(g, u, t, e + 1) == Total(|g.out|, terms)
  {
    hide Total, Adjacent, Graph.Ok;
    EdgesToVertices(g, u, v => Walks(g, v, t, e), k => Walks(g, Target(g, u, k), t, e), terms);
  }

  /** The last edge of a walk, by vertices. */
  lemma {:induction false} LastEdge(g: Graph, u: int, t: int, e: nat, terms: int -> real)
    requires g.Ok() && 0 <= u < |g.out| && 0 <= t < |g.out|
    requires forall w :: 0 <= w < |g.out| ==> terms(w) == Walks(g, u, w, e) * Adjacent(g, w, t)
    ensures Walks(g, u, t, e + 1) == Total(|g.out|, terms)
    decreases e, 1
  {
    hide Total, Adjacent, Graph.Ok, RowSum, ColumnSum;
    var firsts := v => Adjacent(g, u, v) * Walks(g, v, t, e);
    FirstEdge(g, u, t, e, firsts);
    if e == 0 {
      TotalOnly(|g.out|, t, firsts);
      TotalOnly(|g.out|, u, terms);
    } else {
      MiddleSwap(g, u, t, e, firsts, terms);
    }
  }

  lemma {:induction false} MiddleSwap(g: Graph, u: int, t: int, e: nat, firsts: int -> real, lasts: int -> real)
    requires g.Ok() && 0 <= u < |g.out| && 0 <= t < |g.out| && e > 0
    requires forall v :: 0 <= v < |g.out| ==> firsts(v) == Adjacent(g, u, v) * Walks(g, v, t, e)
    requires forall w :: 0 <= w < |g.out| ==> lasts(w) == Walks(g, u, w, e) * Adjacent(g, w, t)
    ensures Total(|g.out|, firsts) == Total(|g.out|, lasts)
    decreases e, 0
  {
    hide Total, Adjacent, Graph.Ok, RowSum, ColumnSum, Walks;
    var f := (v, w) => Adjacent(g, u, v) * Walks(g, v, w, e - 1) * Adjacent(g, w, t);
    forall v | 0 <= v < |g.out|
      ensures firsts(v) == RowSum(|g.out|, f, v)
    {
      var inner := w => Walks(g, v, w, e - 1) * Adjacent(g, w, t);
      LastEdge(g, v, t, e - 1, inner);
      RowScale(|g.out|, f, v, Adjacent(g, u, v), inner);
    }
    forall w | 0 <= w < |g.out|
      ensures lasts(w) == ColumnSum(|g.out|, f, w)
    {
      var inner := v => Adjacent(g, u, v) * Walks(g, v, w, e - 1);
      FirstEdge(g, u, w, e - 1, inner);
      ColumnScale(|g.out|, f, w, Adjacent(g, w, t), inner);
    }
    RowsAndColumns(|g.out|, |g.out|, f, firsts, lasts);
  }

  // ----- Walks and depths -----

  lemma {:induction false} WalksNotNegative(g: Graph, u: int, t: int, e: nat)
    ensures Walks(g, u, t, e) >= 0.0
  {
    WalksCount(g, u, t, e);
  }

  lemma AdjacentIsEdge(g: Graph, u: nat, v: nat)
    requires u < |g.out|
    ensures if v in g.out[u] then Adjacent(g, u, v) >= 1.0 else Adjacent(g, u, v) == 0.0
  {
    if v in g.out[u] {
      var k :| 0 <= k < |g.out[u]| && g.out[u][k] == v;
      TotalHasTerm(Degree(g, u), k, i => Hit(g, u, i, v));
    } else {
      TotalZero(Degree(g, u), i => Hit(g, u, i, v));
    }
  }

  lemma EdgeWithin(g: Graph, source: nat, u: nat, v: nat, d: nat)
    requires g.Edge(u, v) && u in Within(g, source, d)
    ensures v in Within(g, source, d + 1)
  {
    assert HasSource(g, Within(g, source, d), v);
  }

  lemma TargetEdge(g: Graph, u: nat, k: nat)
    requires g.Ok() && k < Degree(g, u)
    ensures u < |g.out| && 0 <= Target(g, u, k) < |g.out| && g.Edge(u, Target(g, u, k))
  {
    assert g.InRange(g.out[u]);
  }

  lemma SomeFirstEdge(g: Graph, u: int, t: int, e: nat) returns (k: nat)
    requires e > 0 && Walks(g, u, t, e) != 0.0
    ensures k < Degree(g, u) && Walks(g, Target(g, u, k), t, e - 1) != 0.0
  {
    if forall k :: 0 <= k < Degree(g, u) ==> Walks(g, Target(g, u, k), t, e - 1) == 0.0 {
      TotalZero(Degree(g, u), k => Walks(g, Target(g, u, k), t, e - 1));
    }
    k :| 0 <= k < Degree(g, u) && Walks(g, Target(g, u, k), t, e - 1) != 0.0;
  }

  /** A walk of e edges goes at most e levels down. */
  lemma {:induction false} WalkStaysWithin(g: Graph, source: nat, u: nat, t: int, e: nat, d: nat)
    requires g.Ok() && u in Within(g, source, d) && Walks(g, u, t, e) != 0.0
    ensures t >= 0 && t in Within(g, source, d + e)
    decreases e
  {
    hide Within, Graph.Ok, Target, Graph.Edge;
    if e > 0 {
      var k := SomeFirstEdge(g, u, t, e);
      TargetEdge(g, u, k);
      EdgeWithin(g, source, u, Target(g, u, k), d);
      WalkStaysWithin(g, source, Target(g, u, k), t, e - 1, d + 1);
    }
  }

  /** The part of a walk count that arrives over an edge from level d. */
  ghost function Arrivals(g: Graph, source: nat, d: nat, u: int, v: int): real {
    if u >= 0 && u in Level(g, source, d) then Walks(g, source, u, d) * Adjacent(g, u, v) else 0.0
  }

  /** The walks of d + 1 edges to a vertex of level d + 1 all arrive from level d. */
  lemma LevelArrivals(g: Graph, source: nat, v: nat, d: nat, terms: int -> real)
    requires g.Ok() && source < |g.out| && v in Level(g, source, d + 1)
    requires forall u :: 0 <= u < |g.out| ==> terms(u) == Arrivals(g, source, d, u, v)
    ensures Walks(g, source, v, d + 1) == Total(|g.out|, terms)
  {
    hide Walks, Total, Adjacent, Graph.Ok, Within;
    WithinInRange(g, source, d + 1);
    forall u: nat | u < |g.out| && u !in Level(g, source, d)
      ensures Walks(g, source, u, d) * Adjacent(g, u, v) == 0.0
    {
      OffArrival(g, source, u, v, d);
    }
    LastEdge(g, source, v, d, terms);
  }

  lemma OffArrival(g: Graph, source: nat, u: nat, v: nat, d: nat)
    requires g.Ok() && v in Level(g, source, d + 1) && u < |g.out| && u !in Level(g, source, d)
    ensures Walks(g, source, u, d) * Adjacent(g, u, v) == 0.0
  {
    hide Walks, Adjacent, Graph.Ok, Within;
    AdjacentIsEdge(g, u, v);
    StartLevel(g, source, source);
    if Walks(g, source, u, d) != 0.0 && v in g.out[u] {
      WalkStaysWithin(g, source, source, u, d, 0);
      var k :| 0 <= k < |g.out[u]| && g.out[u][k] == v;
      TargetEdge(g, u, k);
      if d == 0 {
        StartLevel(g, source, u);
      } else {
        EdgeWithin(g, source, u, v, d - 1);
      }
    }
  }

  lemma StartLevel(g: Graph, source: nat, u: nat)
    ensures source in Within(g, source, 0) && (u in Within(g, source, 0) <==> u in Level(g, source, 0))
    ensures u in Level(g, source, 0) <==> u == source
  {
  }

  lemma {:induction false} LevelPositive(g: Graph, source: nat, v: nat, d: nat)
    requires g.Ok() && source < |g.out| && v in Level(g, source, d)
    ensures v < |g.out| && Walks(g, source, v, d) > 0.0
    decreases d
  {
    hide Adjacent, Arrivals, Total, Graph.Ok, Within;
    LevelMembers(g, source, v, d);
    WithinInRange(g, source, d);
    if d > 0 {
      hide Walks, Level;
      NextLevel(g, source, v, d - 1);
      var u :| u in Level(g, source, d - 1) && g.Edge(u, v);
      LevelPositive(g, source, u, d - 1);
      var terms := w => Arrivals(g, source, d - 1, w, v);
      LevelArrivals(g, source, v, d - 1, terms);
      forall w | 0 <= w < |g.out|
        ensures terms(w) >= 0.0
      {
        ArrivalSign(g, source, w, v, d - 1);
      }
      ArrivalSign(g, source, u, v, d - 1);
      TotalHasTerm(|g.out|, u, terms);
    }
  }

  lemma LevelMembers(g: Graph, source: nat, v: nat, d: nat)
    requires v in Level(g, source, d)
    ensures v in Within(g, source, d) && (d > 0 ==> v !in Within(g, source, d - 1)) && (d == 0 ==> v == source)
  {
  }

  lemma ArrivalSign(g: Graph, source: nat, u: nat, v: nat, d: nat)
    requires u < |g.out|
    ensures Arrivals(g, source, d, u, v) >= 0.0
    ensures u in Level(g, source, d) && Walks(g, source, u, d) > 0.0 && v in g.out[u] ==>
          Arrivals(g, source, d, u, v) > 0.0
  {
    hide Walks, Adjacent, Level;
    WalksNotNegative(g, source, u, d);
    AdjacentIsEdge(g, u, v);
  }
}
