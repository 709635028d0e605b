/** Dependencies of a source on the other vertices: which share of the shortest paths to every target runs through a
    vertex, and the recursion over the levels that computes it. */
module Dependencies {
  import opened Graphs
  import opened Sums
  import opened ShortestPaths

  // ----- Shortest paths through a vertex -----

  /** The walks of d + e edges from s to t that are at u after d edges. */
  ghost function Through(g: Graph, s: int, u: int, t: int, d: nat, e: nat): set<seq<nat>>
    decreases d, 0
  {
    if d == 0 then if s == u then WalkSet(g, u, t, e) else {}
    else ThroughBelow(g, s, u, t, d, e, Degree(g, s))
  }

  ghost function ThroughBelow(g: Graph, s: int, u: int, t: int, d: nat, e: nat, m: nat): set<seq<nat>>
    requires d > 0 && m <= Degree(g, s)
    decreases d - 1, m + 1
  {
    if m == 0 then {}
    else ThroughBelow(g, s, u, t, d, e, m - 1) + Extended(m - 1, Through(g, Target(g, s, m - 1), u, t, d - 1, e))
  }

  lemma {:induction false} ThroughMember(g: Graph, s: int, u: int, t: int, d: nat, e: nat, walk: seq<nat>)
    ensures walk in Through(g, s, u, t, d, e) <==>
              |walk| == d + e && Leads(g, s, walk[..d], u) && Leads(g, u, walk[d..], t)
    decreases d, 0
  {
    if d == 0 {
      WalkSetMember(g, u, t, e, walk);
      assert walk[0..] == walk;
    } else {
      ThroughBelowMember(g, s, u, t, d, e, Degree(g, s), walk);
    }
  }

  lemma {:induction false} ThroughBelowMember(g: Graph, s: int, u: int, t: int, d: nat, e: nat, m: nat, walk: seq<nat>)
    requires d > 0 && m <= Degree(g, s)
    ensures walk in ThroughBelow(g, s, u, t, d, e, m) <==>
              |walk| == d + e && walk[0] < m && Leads(g, s, walk[..d], u) && Leads(g, u, walk[d..], t)
    decreases d - 1, m + 1
  {
    hide Target, Degree;
    if m > 0 {
      ThroughBelowMember(g, s, u, t, d, e, m - 1, walk);
      var next := Target(g, s, m - 1);
      ExtendedMember(m - 1, Through(g, next, u, t, d - 1, e), walk);
      if walk != [] {
        ThroughMember(g, next, u, t, d - 1, e, walk[1..]);
        if |walk| == d + e {
          assert walk[..d][1..] == walk[1..][..d - 1] && walk[d..] == walk[1..][d - 1..];
        }
      }
    }
  }

  lemma ThroughSizes(g: Graph, s: int, u: int, t: int, d: nat, e: nat, m: nat)
    requires d > 0 && 0 < m <= Degree(g, s)
    ensures |ThroughBelow(g, s, u, t, d, e, m)| ==
            |ThroughBelow(g, s, u, t, d, e, m - 1)| + |Through(g, Target(g, s, m - 1), u, t, d - 1, e)|
  {
    hide Target, Degree, Through, Leads;
    var next := Through(g, Target(g, s, m - 1), u, t, d - 1, e);
    ExtendedSize(m - 1, next);
    var below, more := ThroughBelow(g, s, u, t, d, e, m - 1), Extended(m - 1, next);
    forall walk | walk in below
      ensures walk !in more
    {
      ThroughBelowMember(g, s, u, t, d, e, m - 1, walk);
      ExtendedMember(m - 1, next, walk);
    }
    assert below * more == {};
    assert |below + more| == |below| + |more|;
  }

  lemma {:induction false} ThroughBelowCount(g: Graph, s: int, u: int, t: int, d: nat, e: nat, m: nat,
                                             sizes: int -> real)
    requires d > 0 && m <= Degree(g, s)
    requires forall k :: 0 <= k < m ==> sizes(k) == |Through(g, Target(g, s, k), u, t, d - 1, e)| as real
    ensures |ThroughBelow(g, s, u, t, d, e, m)| as real == Total(m, sizes)
  {
    hide Target, Degree, Through;
    if m > 0 {
      ThroughBelowCount(g, s, u, t, d, e, m - 1, sizes);
      ThroughSizes(g, s, u, t, d, e, m);
    }
  }

  /** As many walks run through u as there are ways to get there times ways to go on. */
  lemma {:induction false} ThroughCount(g: Graph, s: int, u: int, t: int, d: nat, e: nat)
    ensures |Through(g, s, u, t, d, e)| as real == Walks(g, s, u, d) * Walks(g, u, t, e)
    decreases d
  {
    hide Target, Degree, Leads, WalkSet, ThroughBelow, Total;
    if d == 0 {
      WalksCount(g, u, t, e);
    } else {
      var ways := k => Walks(g, Target(g, s, k), u, d - 1);
      var sizes := k => |Through(g, Target(g, s, k), u, t, d - 1, e)| as real;
      forall k | 0 <= k < Degree(g, s)
        ensures sizes(k) == Walks(g, u, t, e) * ways(k)
      {
        ThroughCount(g, Target(g, s, k), u, t, d - 1, e);
      }
      ThroughBelowCount(g, s, u, t, d, e, Degree(g, s), sizes);
      TotalScale(Degree(g, s), Walks(g, u, t, e), ways, sizes);
    }
  }

  // ----- Dependencies -----

  /** The breadth-first depth of every vertex that can be reached, and -1 for the others. */
  ghost predicate Depths(g: Graph, source: nat, lev: seq<int>) {
    && g.Ok() && source < |g.out| == |lev|
    && (forall v :: 0 <= v < |lev| && lev[v] >= 0 ==> v in Level(g, source, lev[v]))
    && (forall v :: 0 <= v < |lev| && lev[v] < 0 ==> lev[v] == -1 && !Reachable(g, source, v))
  }

  /** The number of shortest paths to v. */
  ghost function Sigma(g: Graph, source: nat, lev: seq<int>, v: int): real {
    if 0 <= v < |lev| && lev[v] >= 0 then Walks(g, source, v, lev[v]) else 0.0
  }

  function Ratio(a: real, b: real): real {
    if b == 0.0 then 0.0 else a / b
  }

  /** The share of the shortest paths to t that run through u, for targets t deeper than u. */
  ghost function Share(g: Graph, source: nat, lev: seq<int>, u: int, t: int): real {
    if 0 <= u < |lev| && 0 <= t < |lev| && 0 <= lev[u] < lev[t] then
      Ratio(Sigma(g, source, lev, u) * Walks(g, u, t, lev[t] - lev[u]), Sigma(g, source, lev, t))
    else 0.0
  }

  ghost function Dependency(g: Graph, source: nat, lev: seq<int>, u: int): real {
    Total(|lev|, t => Share(g, source, lev, u, t))
  }

  /** A share is a fraction of path sets. */
  lemma ShareIsFraction(g: Graph, source: nat, lev: seq<int>, u: nat, t: nat)
    requires Depths(g, source, lev) && u < |lev| && t < |lev| && 0 <= lev[u] < lev[t]
    ensures |WalkSet(g, source, t, lev[t])| > 0
    ensures Share(g, source, lev, u, t) ==
            Ratio(|Through(g, source, u, t, lev[u], lev[t] - lev[u])| as real, |WalkSet(g, source, t, lev[t])| as real)
  {
    hide Walks, WalkSet, Through, Level, Graph.Ok, Reachable;
    LevelPositive(g, source, t, lev[t]);
    WalksCount(g, source, t, lev[t]);
    ThroughCount(g, source, u, t, lev[u], lev[t] - lev[u]);
    assert Sigma(g, source, lev, t) == |WalkSet(g, source, t, lev[t])| as real;
    assert Sigma(g, source, lev, u) * Walks(g, u, t, lev[t] - lev[u])
        == |Through(g, source, u, t, lev[u], lev[t] - lev[u])| as real;
  }

  lemma DepthOfEdge(g: Graph, source: nat, lev: seq<int>, u: nat, v: nat)
    requires Depths(g, source, lev) && u < |lev| && lev[u] >= 0 && g.Edge(u, v)
    ensures 0 <= lev[v] <= lev[u] + 1 && v in Within(g, source, lev[u] + 1)
    ensures lev[v] != lev[u] + 1 ==> v in Within(g, source, lev[u])
  {
    hide Within, Graph.Ok;
    LevelMembers(g, source, u, lev[u]);
    EdgeWithin(g, source, u, v, lev[u]);
    assert Reachable(g, source, v);
    assert lev[v] >= 0;
    LevelMembers(g, source, v, lev[v]);
    if lev[v] > lev[u] + 1 {
      WithinGrows(g, source, lev[u] + 1, lev[v] - 1);
    } else if lev[v] <= lev[u] {
      WithinGrows(g, source, lev[v], lev[u]);
    }
  }

  /** An edge that does not go one level down is on no shortest path. */
  lemma OffLevel(g: Graph, source: nat, lev: seq<int>, u: nat, v: nat, t: nat)
    requires Depths(g, source, lev) && u < |lev| && v < |lev| && t < |lev| && 0 <= lev[u] < lev[t]
    requires lev[v] != lev[u] + 1
    ensures Adjacent(g, u, v) * Walks(g, v, t, lev[t] - lev[u] - 1) == 0.0
  {
    hide Walks, Adjacent, Within, Graph.Ok, Level;
    AdjacentIsEdge(g, u, v);
    if v in g.out[u] && Walks(g, v, t, lev[t] - lev[u] - 1) != 0.0 {
      DepthOfEdge(g, source, lev, u, v);
      WalkStaysWithin(g, source, v, t, lev[t] - lev[u] - 1, lev[u]);
      LevelMembers(g, source, t, lev[t]);
    }
  }

  /** What the successor v contributes to the dependency of u. */
  ghost function Contribution(g: Graph, source: nat, lev: seq<int>, u: int, v: int): real {
    if 0 <= u < |lev| && 0 <= v < |lev| && 0 <= lev[u] && lev[v] == lev[u] + 1 then
      Ratio(Sigma(g, source, lev, u), Sigma(g, source, lev, v)) * (1.0 + Dependency(g, source, lev, v))
    else 0.0
  }

  /** The part of v's contribution that is about the target t. */
  ghost function Part(g: Graph, source: nat, lev: seq<int>, u: nat, v: int, t: int): real {
    if u < |lev| && 0 <= v < |lev| && 0 <= t < |lev| && 0 <= lev[u] < lev[t] && lev[v] == lev[u] + 1 then
      Ratio(Sigma(g, source, lev, u), Sigma(g, source, lev, t)) *
        (Adjacent(g, u, v) * Walks(g, v, t, lev[t] - lev[u] - 1))
    else 0.0
  }

  lemma PartsOfSuccessor(g: Graph, source: nat, lev: seq<int>, u: nat, v: nat, f: (int, int) -> real)
    requires Depths(g, source, lev) && u < |lev| && v < |lev| && 0 <= lev[u]
    requires forall t :: 0 <= t < |lev| ==> f(v, t) == Part(g, source, lev, u, v, t)
    ensures RowSum(|lev|, f, v) == Adjacent(g, u, v) * Contribution(g, source, lev, u, v)
  {
    hide Adjacent, Graph.Ok, Level, Total, RowSum, Reachable;
    if lev[v] == lev[u] + 1 {
      LevelPositive(g, source, v, lev[v]);
      var own := t => Share(g, source, lev, v, t);
      var all := t => if t == v then 1.0 else Share(g, source, lev, v, t);
      TotalBump(|lev|, v, own, all);
      var c := Adjacent(g, u, v) * Ratio(Sigma(g, source, lev, u), Sigma(g, source, lev, v));
      forall t | 0 <= t < |lev|
        ensures f(v, t) == c * all(t)
      {
        PartIsShare(g, source, lev, u, v, t);
      }
      RowScale(|lev|, f, v, c, all);
    } else {
      RowScale(|lev|, f, v, 0.0, t => 0.0);
    }
  }

  lemma PartIsShare(g: Graph, source: nat, lev: seq<int>, u: nat, v: nat, t: nat)
    requires Depths(g, source, lev) && u < |lev| && v < |lev| && t < |lev| && 0 <= lev[u] && lev[v] == lev[u] + 1
    ensures Part(g, source, lev, u, v, t) ==
            Adjacent(g, u, v) * Ratio(Sigma(g, source, lev, u), Sigma(g, source, lev, v))
              * (if t == v then 1.0 else Share(g, source, lev, v, t))
  {
    hide Adjacent, Graph.Ok, Level, Reachable;
    LevelPositive(g, source, v, lev[v]);
    if lev[t] > lev[u] {
      LevelPositive(g, source, t, lev[t]);
      var a, su, sv, st, w := Adjacent(g, u, v), Sigma(g, source, lev, u), Sigma(g, source, lev, v),
            Sigma(g, source, lev, t),
          Walks(g, v, t, lev[t] - lev[u] - 1);
      if lev[t] > lev[v] {
        Cancel(a, su, sv, st, w);
      }
    }
  }

  lemma Cancel(a: real, su: real, sv: real, st: real, w: real)
    requires sv > 0.0 && st > 0.0
    ensures su / st * (a * w) == a * (su / sv) * (sv * w / st)
  {
    var p, q := su / sv, 1.0 / st;
    assert su == p * sv;
    assert su / st == su * q && sv * w / st == sv * w * q;
    assert su * q * (a * w) == p * sv * q * a * w;
    assert a * p * (sv * w * q) == p * sv * q * a * w;
  }

  lemma PartsOfTarget(g: Graph, source: nat, lev: seq<int>, u: nat, t: nat, f: (int, int) -> real)
    requires Depths(g, source, lev) && u < |lev| && t < |lev| && 0 <= lev[u]
    requires forall v :: 0 <= v < |lev| ==> f(v, t) == Part(g, source, lev, u, v, t)
    ensures ColumnSum(|lev|, f, t) == Share(g, source, lev, u, t)
  {
    hide Adjacent, Graph.Ok, Level, Total, ColumnSum, Reachable, Walks;
    if lev[t] > lev[u] {
      LevelPositive(g, source, t, lev[t]);
      var terms := v => Adjacent(g, u, v) * Walks(g, v, t, lev[t] - lev[u] - 1);
      FirstEdge(g, u, t, lev[t] - lev[u] - 1, terms);
      var c := Ratio(Sigma(g, source, lev, u), Sigma(g, source, lev, t));
      forall v | 0 <= v < |lev|
        ensures f(v, t) == c * terms(v)
      {
        if lev[v] != lev[u] + 1 {
          OffLevel(g, source, lev, u, v, t);
        }
      }
      ColumnScale(|lev|, f, t, c, terms);
    } else {
      ColumnScale(|lev|, f, t, 0.0, v => 0.0);
    }
  }

  lemma DependencyByVertex(g: Graph, source: nat, lev: seq<int>, u: nat, terms: int -> real)
    requires Depths(g, source, lev) && u < |lev| && 0 <= lev[u]
    requires forall v :: 0 <= v < |lev| ==> terms(v) == Adjacent(g, u, v) * Contribution(g, source, lev, u, v)
    ensures Dependency(g, source, lev, u) == Total(|lev|, terms)
  {
    hide Adjacent, Level, Total, RowSum, ColumnSum, Contribution, Share, Reachable, Part;
    var f := (v, t) => Part(g, source, lev, u, v, t);
    var columns := t => Share(g, source, lev, u, t);
    forall v | 0 <= v < |lev|
      ensures terms(v) == RowSum(|lev|, f, v)
    {
      PartsOfSuccessor(g, source, lev, u, v, f);
    }
    forall t | 0 <= t < |lev|
      ensures columns(t) == ColumnSum(|lev|, f, t)
    {
      PartsOfTarget(g, source, lev, u, t, f);
    }
    RowsAndColumns(|lev|, |lev|, f, terms, columns);
  }

  /** Brandes' recursion: a vertex's dependency is the sum of its successors' contributions, edge by edge. */
  lemma DependencyRecursion(g: Graph, source: nat, lev: seq<int>, u: nat, edge: int -> real)
    requires Depths(g, source, lev) && u < |lev| && 0 <= lev[u]
    requires forall k :: 0 <= k < Degree(g, u) ==> edge(k) == Contribution(g, source, lev, u, Target(g, u, k))
    ensures Dependency(g, source, lev, u) == Total(Degree(g, u), edge)
  {
    hide Adjacent, Level, Total, Contribution, Reachable, Dependency;
    var terms := v => Adjacent(g, u, v) * Contribution(g, source, lev, u, v);
    DependencyByVertex(g, source, lev, u, terms);
    EdgesToVertices(g, u, v => Contribution(g, source, lev, u, v), edge, terms);
  }

  // ----- Conservation -----

  ghost function AtLevel(lev: seq<int>, d: nat, u: int, x: real): real {
    if 0 <= u < |lev| && lev[u] == d then x else 0.0
  }

  /** What flows from v up to u over the edges between them, if u is at level d. */
  ghost function Flow(g: Graph, source: nat, lev: seq<int>, d: nat, u: int, v: int): real {
    AtLevel(lev, d, u, Adjacent(g, u, v) * Contribution(g, source, lev, u, v))
  }

  /** What the vertices of a level depend on in all is what the next level passes up: one for each of its vertices and
      all of its dependencies. */
  lemma LevelConservation(g: Graph, source: nat, lev: seq<int>, d: nat, upper: int -> real, lower: int -> real)
    requires Depths(g, source, lev)
    requires forall u :: 0 <= u < |lev| ==> upper(u) == AtLevel(lev, d, u, Dependency(g, source, lev, u))
    requires forall v :: 0 <= v < |lev| ==> lower(v) == AtLevel(lev, d + 1, v, 1.0 + Dependency(g, source, lev, v))
    ensures Total(|lev|, upper) == Total(|lev|, lower)
  {
    hide Adjacent, Level, Total, RowSum, ColumnSum, Contribution, Reachable, Dependency, Graph.Ok;
    var f := (u, v) => Flow(g, source, lev, d, u, v);
    forall u | 0 <= u < |lev|
      ensures upper(u) == RowSum(|lev|, f, u)
    {
      if lev[u] == d {
        var terms := v => Adjacent(g, u, v) * Contribution(g, source, lev, u, v);
        DependencyByVertex(g, source, lev, u, terms);
        RowScale(|lev|, f, u, 1.0, terms);
      } else {
        RowScale(|lev|, f, u, 0.0, v => 0.0);
      }
    }
    forall v | 0 <= v < |lev|
      ensures lower(v) == ColumnSum(|lev|, f, v)
    {
      PassedUp(g, source, lev, d, v, f);
    }
    RowsAndColumns(|lev|, |lev|, f, upper, lower);
  }

  lemma PassedUp(g: Graph, source: nat, lev: seq<int>, d: nat, v: nat, f: (int, int) -> real)
    requires Depths(g, source, lev) && v < |lev|
    requires forall u :: 0 <= u < |lev| ==> f(u, v) == Flow(g, source, lev, d, u, v)
    ensures ColumnSum(|lev|, f, v) == AtLevel(lev, d + 1, v, 1.0 + Dependency(g, source, lev, v))
  {
    hide Adjacent, Total, ColumnSum, Reachable, Dependency, Graph.Ok, Walks, Level;
    if lev[v] == d + 1 {
      var arrivals := u => Arrivals(g, source, d, u, v);
      LevelArrivals(g, source, v, d, arrivals);
      LevelPositive(g, source, v, d + 1);
      var sigma, x := Sigma(g, source, lev, v), 1.0 + Dependency(g, source, lev, v);
      forall u | 0 <= u < |lev|
        ensures f(u, v) == x / sigma * arrivals(u)
      {
        SameLevel(g, source, lev, u, d);
        if lev[u] == d {
          Regroup(Adjacent(g, u, v), Sigma(g, source, lev, u), sigma, x);
        }
      }
      ColumnScale(|lev|, f, v, x / sigma, arrivals);
    } else {
      ColumnScale(|lev|, f, v, 0.0, u => 0.0);
    }
  }

  lemma Regroup(a: real, s: real, sigma: real, x: real)
    requires sigma > 0.0
    ensures a * (s / sigma * x) == x / sigma * (s * a)
  {
    var q := 1.0 / sigma;
    assert s / sigma == s * q && x / sigma == x * q;
    assert a * (s * q * x) == x * q * (s * a);
  }

  lemma SameLevel(g: Graph, source: nat, lev: seq<int>, u: nat, d: nat)
    requires Depths(g, source, lev) && u < |lev|
    ensures u in Level(g, source, d) <==> lev[u] == d
  {
    hide Within, Graph.Ok;
    if u in Level(g, source, d) {
      LevelMembers(g, source, u, d);
      assert Reachable(g, source, u);
      LevelMembers(g, source, u, lev[u]);
      DepthUnique(g, source, u, d, lev[u]);
    }
  }

  /** The vertices below n that are reached, without the source. */
  ghost function Others(lev: seq<int>, source: nat, n: nat): (r: set<int>)
    requires n <= |lev|
    ensures forall v :: v in r <==> 0 <= v < n && v != source && lev[v] >= 0
  {
    if n == 0 then {}
    else if n - 1 != source && lev[n - 1] >= 0 then Others(lev, source, n - 1) + {n - 1}
    else Others(lev, source, n - 1)
  }

  /** The source depends on every other vertex it reaches, once. */
  lemma SourceDependency(g: Graph, source: nat, lev: seq<int>)
    requires Depths(g, source, lev)
    ensures Dependency(g, source, lev, source) == |Others(lev, source, |lev|)| as real
    ensures forall v :: v in Others(lev, source, |lev|) <==> 0 <= v < |lev| && v != source && Reachable(g, source, v)
  {
    hide Total, Graph.Ok, Level, Reachable;
    StartLevel(g, source, source);
    SameLevel(g, source, lev, source, 0);
    var shares := t => Share(g, source, lev, source, t);
    forall t | 0 <= t < |lev|
      ensures shares(t) == if t != source && lev[t] >= 0 then 1.0 else 0.0
    {
      StartLevel(g, source, t);
      SameLevel(g, source, lev, t, 0);
      SourceShare(g, source, lev, t);
    }
    OthersCount(lev, source, |lev|, shares);
    forall v | 0 <= v < |lev|
      ensures lev[v] >= 0 ==> Reachable(g, source, v)
    {
      if lev[v] >= 0 {
        ReachedAtLevel(g, source, v, lev[v]);
      }
    }
  }

  lemma SourceShare(g: Graph, source: nat, lev: seq<int>, t: nat)
    requires Depths(g, source, lev) && t < |lev| && lev[source] == 0
    ensures Share(g, source, lev, source, t) == if lev[t] > 0 then 1.0 else 0.0
  {
    hide Graph.Ok, Level, Reachable;
    if lev[t] > 0 {
      LevelPositive(g, source, t, lev[t]);
      var w := Walks(g, source, t, lev[t]);
      assert Sigma(g, source, lev, source) == 1.0;
      assert Sigma(g, source, lev, t) == w;
      assert Share(g, source, lev, source, t) == Ratio(1.0 * w, w);
      assert w / w == 1.0;
    }
  }

  lemma ReachedAtLevel(g: Graph, source: nat, v: nat, d: nat)
    requires v in Level(g, source, d)
    ensures Reachable(g, source, v)
  {
    LevelMembers(g, source, v, d);
  }

  lemma {:induction false} OthersCount(lev: seq<int>, source: nat, n: nat, ones: int -> real)
    requires n <= |lev| && forall t :: 0 <= t < n ==> ones(t) == if t != source && lev[t] >= 0 then 1.0 else 0.0
    ensures Total(n, ones) == |Others(lev, source, n)| as real
  {
    if n > 0 {
      OthersCount(lev, source, n - 1, ones);
    }
  }
}
