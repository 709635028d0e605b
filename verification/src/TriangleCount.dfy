/** Counting triangles in a sorted, symmetric, simple graph: the ordered count that looks at each triangle once, and the
    checker that looks at each six times. */
module TriangleCount {
  import opened SliceSort
  import opened Graphs

  type Triple = (nat, nat, nat)

  ghost predicate Simple(adj: seq<seq<nat>>) {
    && (forall u: nat :: u < |adj| ==> Climbs(adj[u]) && u !in adj[u])
    && (forall u: nat, v: nat :: u < |adj| && v in adj[u] ==> Returned(adj, u, v))
  }

  /** The edge from u to v has its counterpart. */
  ghost predicate Returned(adj: seq<seq<nat>>, u: nat, v: nat) {
    v < |adj| && u in adj[v]
  }

  ghost predicate Linked(adj: seq<seq<nat>>, u: nat, v: nat) {
    u < |adj| && v < |adj| && v in adj[u]
  }

  /** Three vertices with all edges between them. */
  ghost predicate Triangle(adj: seq<seq<nat>>, t: Triple) {
    Linked(adj, t.0, t.1) && Linked(adj, t.0, t.2) && Linked(adj, t.1, t.2)
  }

  /** Every triangle, in each of its six orders. */
  ghost function Triangles(adj: seq<seq<nat>>): (r: set<Triple>)
    ensures forall t :: t in r <==> Triangle(adj, t)
  {
    set u, v, w | u in Range(|adj|) && v in Range(|adj|) && w in Range(|adj|) && Triangle(adj, (u, v, w)) :: (u, v, w)
  }

  ghost predicate Descends(t: Triple) {
    t.0 > t.1 > t.2
  }

  /** Every three-clique once: its vertices in descending order. */
  ghost function Cliques(adj: seq<seq<nat>>): (r: set<Triple>)
    ensures forall t :: t in r <==> Triangle(adj, t) && Descends(t)
  {
    set t | t in Triangles(adj) && Descends(t)
  }

  // ----- Six orders -----

  function Turn(k: nat, t: Triple): Triple {
    match k
    case 0 => t
    case 1 => (t.0, t.2, t.1)
    case 2 => (t.1, t.0, t.2)
    case 3 => (t.1, t.2, t.0)
    case 4 => (t.2, t.0, t.1)
    case _ => (t.2, t.1, t.0)
  }

  ghost function Image(f: Triple -> Triple, s: set<Triple>): set<Triple> {
    set t | t in s :: f(t)
  }

  lemma {:induction false} ImageSize(f: Triple -> Triple, s: set<Triple>)
    requires forall t, t' :: t in s && t' in s && f(t) == f(t') ==> t == t'
    ensures |Image(f, s)| == |s|
  {
    if s != {} {
      var t :| t in s;
      ImageSize(f, s - {t});
      assert Image(f, s) == Image(f, s - {t}) + {f(t)};
    }
  }

  /** The triangles whose k-th turn descends. */
  ghost function Kind(adj: seq<seq<nat>>, k: nat): set<Triple> {
    set t | t in Triangles(adj) && Descends(Turn(k, t))
  }

  lemma TriangleTurns(adj: seq<seq<nat>>, k: nat, t: Triple)
    requires Simple(adj) && Triangle(adj, t)
    ensures Triangle(adj, Turn(k, t)) && t.0 != t.1 && t.0 != t.2 && t.1 != t.2
  {
    assert Returned(adj, t.0, t.1) && Returned(adj, t.0, t.2) && Returned(adj, t.1, t.2);
  }

  /** The turn that undoes turn k. */
  function Undo(k: nat): nat {
    if k == 3 then 4 else if k == 4 then 3 else k
  }

  lemma UndoTurn(k: nat, t: Triple)
    requires k < 6
    ensures Turn(k, Turn(Undo(k), t)) == t && Turn(Undo(k), Turn(k, t)) == t
  {
  }

  lemma KindSize(adj: seq<seq<nat>>, k: nat)
    requires Simple(adj) && k < 6
    ensures |Kind(adj, k)| == |Cliques(adj)|
  {
    hide Turn, Triangle, Descends, Triangles, Cliques, Simple;
    var f := t => Turn(k, t);
    forall t, t' | t in Kind(adj, k) && t' in Kind(adj, k) && f(t) == f(t')
      ensures t == t'
    {
      UndoTurn(k, t);
      UndoTurn(k, t');
    }
    ImageSize(f, Kind(adj, k));
    forall t | t in Kind(adj, k)
      ensures f(t) in Cliques(adj)
    {
      TriangleTurns(adj, k, t);
    }
    forall t | t in Cliques(adj)
      ensures t in Image(f, Kind(adj, k))
    {
      UndoTurn(k, t);
      TriangleTurns(adj, Undo(k), t);
      assert f(Turn(Undo(k), t)) == t && Turn(Undo(k), t) in Kind(adj, k);
    }
    assert Image(f, Kind(adj, k)) == Cliques(adj);
  }

  /** Each clique appears six times. */
  lemma SixTimes(adj: seq<seq<nat>>)
    requires Simple(adj)
    ensures |Triangles(adj)| == 6 * |Cliques(adj)|
  {
    hide Triangles, Cliques, Kind;
    KindsCover(adj);
    var a, b, c, d, e, f := Kind(adj, 0), Kind(adj, 1), Kind(adj, 2), Kind(adj, 3), Kind(adj, 4), Kind(adj, 5);
    KindSize(adj, 0);
    KindSize(adj, 1);
    KindSize(adj, 2);
    KindSize(adj, 3);
    KindSize(adj, 4);
    KindSize(adj, 5);
    assert |a + b| == |a| + |b|;
    assert |a + b + c| == |a + b| + |c|;
    assert |a + b + c + d| == |a + b + c| + |d|;
    assert |a + b + c + d + e| == |a + b + c + d| + |e|;
    assert |a + b + c + d + e + f| == |a + b + c + d + e| + |f|;
  }

  lemma KindsCover(adj: seq<seq<nat>>)
    requires Simple(adj)
    ensures Triangles(adj) == Kind(adj, 0) + Kind(adj, 1) + Kind(adj, 2) + Kind(adj, 3) + Kind(adj, 4) + Kind(adj, 5)
    ensures forall j: nat, k: nat :: j < k < 6 ==> Kind(adj, j) !! Kind(adj, k)
  {
    forall t | t in Triangles(adj)
      ensures exists k: nat :: k < 6 && Descends(Turn(k, t))
    {
      TriangleTurns(adj, 0, t);
      assert Descends(Turn(0, t)) || Descends(Turn(1, t)) || Descends(Turn(2, t)) || Descends(Turn(3, t))
          || Descends(Turn(4, t)) || Descends(Turn(5, t));
    }
    forall j: nat, k: nat, t | j < k < 6 && t in Kind(adj, j)
      ensures t !in Kind(adj, k)
    {
      OneKind(j, k, t);
    }
  }

  lemma OneKind(j: nat, k: nat, t: Triple)
    requires j < k < 6 && Descends(Turn(j, t))
    ensures !Descends(Turn(k, t))
  {
  }

  // ----- The ordered count -----

  ghost function Common(a: seq<nat>, b: seq<nat>): (r: set<nat>)
    ensures forall w :: w in r <==> w in a && w in b
  {
    set w | w in a && w in b
  }

  ghost function CommonTo(a: seq<nat>, b: seq<nat>, v: nat): (r: set<nat>)
    ensures forall w :: w in r <==> w in a && w in b && w <= v
  {
    set w | w in Common(a, b) && w <= v
  }

  /** The walk along `b` has no bound of its own: some element that is not below w stops it. */
  method Advance(b: seq<nat>, from: nat, w: nat, ghost stop: nat) returns (it: nat)
    requires from <= stop < |b| && b[stop] >= w
    ensures from <= it <= stop && b[it] >= w && forall y :: from <= y < it ==> b[y] < w
  {
    it := from;
    while b[it] < w
      invariant from <= it <= stop && forall y :: from <= y < it ==> b[y] < w
      decreases stop - it
    {
      it := it + 1;
    }
  }

  /** Walks along `a` up to v and along `b` beside it; `u`, which is in b and above v, is the stop. */
  method CountCommon(a: seq<nat>, b: seq<nat>, v: nat, ghost u: nat) returns (count: nat)
    requires Climbs(a) && Climbs(b) && u in b && v < u
    ensures count == |CommonTo(a, b, v)|
  {
    var it := 0;
    ghost var s: nat :| s < |b| && b[s] == u;
    ghost var found: set<nat> := {};
    count := 0;
    var j := 0;
    while j < |a| && a[j] <= v
      invariant j <= |a| && it <= s && forall x :: 0 <= x < j ==> a[x] <= v
      invariant forall x, y :: j <= x < |a| && 0 <= y < it ==> b[y] < a[x]
      invariant count == |found| && forall w :: w in found <==> w in a[..j] && w in b
    {
      var w := a[j];
      it := Advance(b, it, w, s);
      assert a[..j + 1] == a[..j] + [w];
      FoundNow(a, b, j, it);
      if w == b[it] {
        count := count + 1;
        found := found + {w};
      }
      j := j + 1;
    }
    ReachedAll(a, j, v);
    assert found == CommonTo(a, b, v);
  }

  lemma FoundNow(a: seq<nat>, b: seq<nat>, j: nat, it: nat)
    requires Climbs(a) && Climbs(b) && j < |a| && it < |b| && b[it] >= a[j] && forall y :: 0 <= y < it ==> b[y] < a[j]
    ensures a[j] in b <==> a[j] == b[it]
    ensures a[j] !in a[..j]
  {
    if a[j] in b {
      var y :| 0 <= y < |b| && b[y] == a[j];
      assert y == it;
    }
  }

  lemma ReachedAll(a: seq<nat>, j: nat, v: nat)
    requires Climbs(a) && j <= |a| && (j < |a| ==> a[j] > v) && forall x :: 0 <= x < j ==> a[x] <= v
    ensures forall w :: w in a[..j] <==> w in a && w <= v
  {
    forall w | w in a && w <= v
      ensures w in a[..j]
    {
      var x :| 0 <= x < |a| && a[x] == w;
      assert x < j;
      assert a[..j][x] == w;
    }
  }

  /** The cliques with given first and second vertex. */
  ghost function CliquesAt(adj: seq<seq<nat>>, u: nat, v: nat): (r: set<Triple>)
    ensures forall t :: t in r <==> t in Cliques(adj) && t.0 == u && t.1 == v
  {
    set t | t in Cliques(adj) && t.0 == u && t.1 == v
  }

  ghost function CliquesFrom(adj: seq<seq<nat>>, u: nat): (r: set<Triple>)
    ensures forall t :: t in r <==> t in Cliques(adj) && t.0 == u
  {
    set t | t in Cliques(adj) && t.0 == u
  }

  ghost function With(u: nat, v: nat, s: set<nat>): (r: set<Triple>)
    ensures forall t :: t in r <==> t.0 == u && t.1 == v && t.2 in s
  {
    set w | w in s :: (u, v, w)
  }

  lemma {:induction false} WithSize(u: nat, v: nat, s: set<nat>)
    ensures |With(u, v, s)| == |s|
  {
    if s != {} {
      var w :| w in s;
      WithSize(u, v, s - {w});
      assert With(u, v, s) == With(u, v, s - {w}) + {(u, v, w)};
    }
  }

  lemma Neighbours(adj: seq<seq<nat>>, u: nat, v: nat)
    requires Simple(adj) && u < |adj| && v in adj[u]
    ensures v < |adj| && v != u && u in adj[v] && v !in adj[v] && Climbs(adj[u]) && Climbs(adj[v])
  {
    assert Returned(adj, u, v);
  }

  lemma ThirdVertex(adj: seq<seq<nat>>, u: nat, v: nat, w: nat)
    requires Simple(adj) && u < |adj| && v in adj[u] && v < |adj|
    ensures Triangle(adj, (u, v, w)) <==> w in Common(adj[u], adj[v])
  {
    var t: Triple := (u, v, w);
    assert t.0 == u && t.1 == v && t.2 == w;
    if w in adj[u] {
      assert Returned(adj, u, w);
    }
  }

  lemma ListStep(a: seq<nat>, i: nat)
    requires Climbs(a) && i < |a|
    ensures a[..i + 1] == a[..i] + [a[i]] && a[i] in a && a[i] !in a[..i]
  {
  }

  lemma CliquesAtSize(adj: seq<seq<nat>>, u: nat, v: nat)
    requires Simple(adj) && u < |adj| && v in adj[u] && v < u
    ensures v < |adj| && |CliquesAt(adj, u, v)| == |CommonTo(adj[u], adj[v], v)|
  {
    hide Simple, Triangle;
    Neighbours(adj, u, v);
    WithSize(u, v, CommonTo(adj[u], adj[v], v));
    forall t
      ensures t in CliquesAt(adj, u, v) <==> t in With(u, v, CommonTo(adj[u], adj[v], v))
    {
      assert t.0 == u && t.1 == v ==> t == (u, v, t.2);
      ThirdVertex(adj, u, v, t.2);
    }
    assert CliquesAt(adj, u, v) == With(u, v, CommonTo(adj[u], adj[v], v));
  }

  lemma Row(adj: seq<seq<nat>>, u: nat)
    requires Simple(adj) && u < |adj|
    ensures Climbs(adj[u]) && u !in adj[u]
  {
  }

  /** The cliques from u whose second vertex is in the list. */
  ghost function CliquesAmong(adj: seq<seq<nat>>, u: nat, list: seq<nat>): (r: set<Triple>)
    ensures forall t :: t in r <==> t in Cliques(adj) && t.0 == u && t.1 in list
  {
    set t | t in Cliques(adj) && t.0 == u && t.1 in list
  }

  lemma OneMore(adj: seq<seq<nat>>, u: nat, list: seq<nat>, v: nat)
    requires v !in list
    ensures |CliquesAmong(adj, u, list + [v])| == |CliquesAmong(adj, u, list)| + |CliquesAt(adj, u, v)|
  {
    hide Cliques;
    var a, b := CliquesAmong(adj, u, list), CliquesAt(adj, u, v);
    assert CliquesAmong(adj, u, list + [v]) == a + b;
    assert a !! b;
  }

  lemma AllAmong(adj: seq<seq<nat>>, u: nat, list: seq<nat>)
    requires u < |adj| && forall w :: w in list <==> w in adj[u] && w <= u
    ensures CliquesAmong(adj, u, list) == CliquesFrom(adj, u)
  {
  }

  lemma NoneAmong(adj: seq<seq<nat>>, u: nat)
    requires u < |adj|
    ensures |CliquesAmong(adj, u, adj[u][..0])| == |TrianglesAmong(adj, u, adj[u][..0])| == 0
  {
    assert CliquesAmong(adj, u, adj[u][..0]) == {};
    assert TrianglesAmong(adj, u, adj[u][..0]) == {};
  }

  /** One vertex's share: its neighbours up to itself, each with their common neighbours. */
  method CountFrom(adj: seq<seq<nat>>, u: nat) returns (count: nat)
    requires Simple(adj) && u < |adj|
    ensures count == |CliquesFrom(adj, u)|
  {
    hide *;
    count := 0;
    Row(adj, u);
    NoneAmong(adj, u);
    var i := 0;
    while i < |adj[u]| && adj[u][i] <= u
      invariant i <= |adj[u]| && forall x :: 0 <= x < i ==> adj[u][x] <= u
      invariant count == |CliquesAmong(adj, u, adj[u][..i])|
    {
      var v := adj[u][i];
      ListStep(adj[u], i);
      Neighbours(adj, u, v);
      OneMore(adj, u, adj[u][..i], v);
      CliquesAtSize(adj, u, v);
      var more := CountCommon(adj[u], adj[v], v, u);
      count := count + more;
      i := i + 1;
    }
    ReachedAll(adj[u], i, u);
    AllAmong(adj, u, adj[u][..i]);
  }

  /** The number of three-cliques, each counted once. */
  method OrderedCount(adj: seq<seq<nat>>) returns (total: nat)
    requires Simple(adj)
    ensures total == |Cliques(adj)|
  {
    hide Simple, CliquesFrom, Cliques;
    total := 0;
    ghost var found: set<Triple> := {};
    for u := 0 to |adj|
      invariant total == |found| && forall t :: t in found <==> t in Cliques(adj) && t.0 < u
    {
      var more := CountFrom(adj, u);
      total := total + more;
      assert found !! CliquesFrom(adj, u);
      found := found + CliquesFrom(adj, u);
    }
    assert found == Cliques(adj);
  }

  // ----- The checker -----

  /** The standard merge of two ascending lists. */
  method SetIntersection(a: seq<nat>, b: seq<nat>) returns (c: seq<nat>)
    requires Climbs(a) && Climbs(b)
    ensures Climbs(c) && forall w :: w in c <==> w in a && w in b
  {
    var i, j := 0, 0;
    c := [];
    while i < |a| && j < |b|
      invariant i <= |a| && j <= |b| && Climbs(c)
      invariant forall x, y :: 0 <= x < |c| && i <= y < |a| ==> c[x] < a[y]
      invariant forall x, y :: i <= x < |a| && 0 <= y < j ==> b[y] < a[x]
      invariant forall x, y :: 0 <= x < i && j <= y < |b| ==> a[x] < b[y]
      invariant forall w :: w in c <==> w in a[..i] && w in b[..j]
    {
      MergeStep(a, b, i, j);
      if a[i] < b[j] {
        i := i + 1;
      } else if b[j] < a[i] {
        j := j + 1;
      } else {
        c := c + [a[i]];
        i, j := i + 1, j + 1;
      }
    }
    MergeDone(a, b, i, j);
  }

  lemma MergeStep(a: seq<nat>, b: seq<nat>, i: nat, j: nat)
    requires Climbs(a) && Climbs(b) && i < |a| && j < |b|
    requires forall y :: 0 <= y < j ==> b[y] < a[i]
    requires forall x :: 0 <= x < i ==> a[x] < b[j]
    ensures a[..i + 1] == a[..i] + [a[i]] && b[..j + 1] == b[..j] + [b[j]]
    ensures a[i] !in b[..j] && b[j] !in a[..i]
  {
  }

  lemma MergeDone(a: seq<nat>, b: seq<nat>, i: nat, j: nat)
    requires Climbs(a) && Climbs(b) && i <= |a| && j <= |b| && (i == |a| || j == |b|)
    requires forall x, y :: i <= x < |a| && 0 <= y < j ==> b[y] < a[x]
    requires forall x, y :: 0 <= x < i && j <= y < |b| ==> a[x] < b[y]
    ensures forall w :: w in a[..i] && w in b[..j] <==> w in a && w in b
  {
    forall w | w in a && w in b
      ensures w in a[..i] && w in b[..j]
    {
      var x :| 0 <= x < |a| && a[x] == w;
      var y :| 0 <= y < |b| && b[y] == w;
      assert x < i && y < j;
      assert a[..i][x] == w && b[..j][y] == w;
    }
  }

  lemma {:induction false} ListSize(c: seq<nat>, s: set<nat>)
    requires Climbs(c) && forall w :: w in s <==> w in c
    ensures |s| == |c|
  {
    if c == [] {
      assert s == {};
    } else {
      var m := |c| - 1;
      assert c == c[..m] + [c[m]];
      assert c[m] !in c[..m];
      ListSize(c[..m], s - {c[m]});
    }
  }

  ghost function TrianglesAt(adj: seq<seq<nat>>, u: nat, v: nat): (r: set<Triple>)
    ensures forall t :: t in r <==> t in Triangles(adj) && t.0 == u && t.1 == v
  {
    set t | t in Triangles(adj) && t.0 == u && t.1 == v
  }

  ghost function TrianglesFrom(adj: seq<seq<nat>>, u: nat): (r: set<Triple>)
    ensures forall t :: t in r <==> t in Triangles(adj) && t.0 == u
  {
    set t | t in Triangles(adj) && t.0 == u
  }

  ghost function TrianglesAmong(adj: seq<seq<nat>>, u: nat, list: seq<nat>): (r: set<Triple>)
    ensures forall t :: t in r <==> t in Triangles(adj) && t.0 == u && t.1 in list
  {
    set t | t in Triangles(adj) && t.0 == u && t.1 in list
  }

  lemma OneMoreTriangle(adj: seq<seq<nat>>, u: nat, list: seq<nat>, v: nat)
    requires v !in list
    ensures |TrianglesAmong(adj, u, list + [v])| == |TrianglesAmong(adj, u, list)| + |TrianglesAt(adj, u, v)|
  {
    hide Triangles;
    var a, b := TrianglesAmong(adj, u, list), TrianglesAt(adj, u, v);
    assert TrianglesAmong(adj, u, list + [v]) == a + b;
    assert a !! b;
  }

  lemma AllTrianglesAmong(adj: seq<seq<nat>>, u: nat)
    requires u < |adj|
    ensures TrianglesAmong(adj, u, adj[u]) == TrianglesFrom(adj, u)
  {
  }

  method CheckFrom(adj: seq<seq<nat>>, u: nat) returns (count: nat)
    requires Simple(adj) && u < |adj|
    ensures count == |TrianglesFrom(adj, u)|
  {
    hide *;
    count := 0;
    Row(adj, u);
    NoneAmong(adj, u);
    for i := 0 to |adj[u]|
      invariant count == |TrianglesAmong(adj, u, adj[u][..i])|
    {
      var v := adj[u][i];
      ListStep(adj[u], i);
      Neighbours(adj, u, v);
      OneMoreTriangle(adj, u, adj[u][..i], v);
      var both := SetIntersection(adj[u], adj[v]);
      TrianglesAtSize(adj, u, v, both);
      count := count + |both|;
    }
    assert adj[u][..|adj[u]|] == adj[u];
    AllTrianglesAmong(adj, u);
  }

  lemma TrianglesAtSize(adj: seq<seq<nat>>, u: nat, v: nat, both: seq<nat>)
    requires Simple(adj) && u < |adj| && v in adj[u] && v < |adj|
    requires Climbs(both) && forall w :: w in both <==> w in adj[u] && w in adj[v]
    ensures |TrianglesAt(adj, u, v)| == |both|
  {
    hide Simple, Triangle;
    Neighbours(adj, u, v);
    WithSize(u, v, Common(adj[u], adj[v]));
    ListSize(both, Common(adj[u], adj[v]));
    forall t
      ensures t in TrianglesAt(adj, u, v) <==> t in With(u, v, Common(adj[u], adj[v]))
    {
      assert t.0 == u && t.1 == v ==> t == (u, v, t.2);
      ThirdVertex(adj, u, v, t.2);
    }
    assert TrianglesAt(adj, u, v) == With(u, v, Common(adj[u], adj[v]));
  }

  /** The checker's total, before and after it divides. */
  method CheckTotal(adj: seq<seq<nat>>) returns (total: nat)
    requires Simple(adj)
    ensures total == |Triangles(adj)|
  {
    hide Simple, TrianglesFrom, Triangles;
    total := 0;
    ghost var found: set<Triple> := {};
    for u := 0 to |adj|
      invariant total == |found| && forall t :: t in found <==> t in Triangles(adj) && t.0 < u
    {
      var more := CheckFrom(adj, u);
      total := total + more;
      assert found !! TrianglesFrom(adj, u);
      found := found + TrianglesFrom(adj, u);
    }
    assert found == Triangles(adj);
  }

  /** The checker accepts exactly the number of cliques. */
  method TCVerifier(adj: seq<seq<nat>>, testTotal: nat) returns (ok: bool)
    requires Simple(adj)
    ensures ok <==> testTotal == |Cliques(adj)|
  {
    var total := CheckTotal(adj);
    SixTimes(adj);
    total := total / 6;
    ok := total == testTotal;
  }
}
