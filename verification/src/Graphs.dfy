/** Directed graphs by out- and in-neighbour lists, and reachability from a source level by level. */
module Graphs {

  datatype Graph = Graph(out: seq<seq<nat>>, inn: seq<seq<nat>>) {
    /** Neighbour lists stay in range and the in-lists are the transpose of the out-lists. */
    ghost predicate Ok() {
      && |out| == |inn|
      && (forall u :: 0 <= u < |out| ==> InRange(out[u]) && InRange(inn[u]))
      && (forall u, v :: 0 <= u < |out| && 0 <= v < |out| ==> (v in out[u] <==> u in inn[v]))
    }

    ghost predicate InRange(list: seq<nat>) {
      forall k :: 0 <= k < |list| ==> list[k] < |out|
    }

    ghost predicate Edge(u: nat, v: nat) {
      u < |out| && v < |out| && v in out[u]
    }
  }

  /** The vertices at most d edges away from the source. */
  ghost function Within(g: Graph, source: nat, d: nat): set<nat> {
    if d == 0 then {source} else Within(g, source, d - 1) + After(g, Within(g, source, d - 1))
  }

  ghost function After(g: Graph, s: set<nat>): set<nat> {
    set v | v in Range(|g.out|) && HasSource(g, s, v)
  }

  ghost predicate HasSource(g: Graph, s: set<nat>, v: nat) {
    exists u :: u in s && g.Edge(u, v)
  }

  lemma {:induction false} WithinGrows(g: Graph, source: nat, d: nat, e: nat)
    requires d <= e
    ensures Within(g, source, d) <= Within(g, source, e)
  {
    hide After;
    if d < e {
      WithinGrows(g, source, d, e - 1);
    }
  }

  lemma {:induction false} WithinInRange(g: Graph, source: nat, d: nat)
    requires source < |g.out|
    ensures forall v :: v in Within(g, source, d) ==> v < |g.out|
  {
    if d > 0 {
      WithinInRange(g, source, d - 1);
    }
  }

  /** Once a level adds nothing, no later level does. */
  lemma {:induction false} Saturated(g: Graph, source: nat, d: nat, e: nat)
    requires Within(g, source, d + 1) == Within(g, source, d) && d <= e
    ensures Within(g, source, e) == Within(g, source, d)
  {
    hide After;
    if d < e {
      Saturated(g, source, d, e - 1);
    }
  }

  ghost predicate Reachable(g: Graph, source: nat, v: nat) {
    exists d :: v in Within(g, source, d)
  }

  /** v is exactly d edges away. */
  ghost predicate AtDepth(g: Graph, source: nat, v: nat, d: nat) {
    v in Within(g, source, d) && (d > 0 ==> v !in Within(g, source, d - 1))
  }

  lemma DepthUnique(g: Graph, source: nat, v: nat, d: nat, e: nat)
    requires AtDepth(g, source, v, d) && AtDepth(g, source, v, e)
    ensures d == e
  {
    hide Within;
    if d < e {
      WithinGrows(g, source, d, e - 1);
    } else if e < d {
      WithinGrows(g, source, e, d - 1);
    }
  }

  /** Distinct numbers below n are at most n many. */
  lemma Pigeonhole(s: seq<nat>, n: nat)
    requires forall i, j :: 0 <= i < j < |s| ==> s[i] != s[j]
    requires forall i :: 0 <= i < |s| ==> s[i] < n
    ensures |s| <= n
  {
    var members := set i | 0 <= i < |s| :: s[i];
    SetOfDistinct(s);
    assert members <= Range(n);
    SubsetSize(members, Range(n));
  }

  lemma {:induction false} SetOfDistinct(s: seq<nat>)
    requires forall i, j :: 0 <= i < j < |s| ==> s[i] != s[j]
    ensures |set i | 0 <= i < |s| :: s[i]| == |s|
  {
    if s != [] {
      var m := |s| - 1;
      SetOfDistinct(s[..m]);
      var rest := set i | 0 <= i < |s[..m]| :: s[..m][i];
      assert (set i | 0 <= i < |s| :: s[i]) == rest + {s[m]} by {
        forall x | x in rest + {s[m]}
          ensures x in set i | 0 <= i < |s| :: s[i]
        {
          if x in rest {
            var i :| 0 <= i < |s[..m]| && s[..m][i] == x;
            assert s[i] == x;
          }
        }
        forall i | 0 <= i < |s|
          ensures s[i] in rest + {s[m]}
        {
          assert i < m ==> s[..m][i] == s[i];
        }
      }
    }
  }

  ghost function Range(n: nat): (r: set<nat>)
    ensures |r| == n && forall i :: i in r <==> 0 <= i < n
  {
    if n == 0 then {} else Range(n - 1) + {n - 1}
  }

  lemma SubsetSize(a: set<nat>, b: set<nat>)
    requires a <= b
    ensures |a| <= |b|
  {
    assert b == a + (b - a);
  }

  /** The vertices exactly d edges away. */
  ghost function Level(g: Graph, source: nat, d: nat): set<nat> {
    if d == 0 then {source} else Within(g, source, d) - Within(g, source, d - 1)
  }

  lemma LevelIsDepth(g: Graph, source: nat, d: nat)
    ensures forall v :: v in Level(g, source, d) <==> AtDepth(g, source, v, d)
  {
  }

  /** An edge of the breadth-first tree: from some depth to the next. */
  ghost predicate TreeEdge(g: Graph, source: nat, u: nat, v: nat) {
    g.Edge(u, v) && exists d :: OneDeeper(g, source, u, v, d)
  }

  ghost predicate OneDeeper(g: Graph, source: nat, u: nat, v: nat, d: nat) {
    AtDepth(g, source, u, d) && AtDepth(g, source, v, d + 1)
  }

  /** An edge from anywhere within d to a vertex that is not within d starts in level d. */
  lemma NewVertex(g: Graph, source: nat, u: nat, v: nat, d: nat)
    requires u in Within(g, source, d) && g.Edge(u, v) && v !in Within(g, source, d)
    ensures u in Level(g, source, d) && v in Level(g, source, d + 1) && TreeEdge(g, source, u, v)
  {
    assert d > 0 && u in Within(g, source, d - 1) ==> HasSource(g, Within(g, source, d - 1), v);
    assert HasSource(g, Within(g, source, d), v);
    assert OneDeeper(g, source, u, v, d);
  }

  lemma NextLevel(g: Graph, source: nat, v: nat, d: nat)
    requires v in Within(g, source, d + 1) && v !in Within(g, source, d)
    ensures v < |g.out| && exists u :: u in Level(g, source, d) && g.Edge(u, v)
  {
    assert HasSource(g, Within(g, source, d), v);
    var u :| u in Within(g, source, d) && g.Edge(u, v);
    NewVertex(g, source, u, v, d);
  }

  /** Vertices not yet reached. */
  ghost function Unreached(g: Graph, source: nat, d: nat): nat
  {
    |Range(|g.out|) - Within(g, source, d)|
  }

  lemma FewerUnreached(g: Graph, source: nat, d: nat)
    requires source < |g.out|
    ensures Level(g, source, d + 1) != {} ==> Unreached(g, source, d + 1) < Unreached(g, source, d)
    ensures Level(g, source, d + 1) == {} ==> Unreached(g, source, d + 1) == Unreached(g, source, d)
  {
    WithinInRange(g, source, d + 1);
    var a, b := Range(|g.out|) - Within(g, source, d), Range(|g.out|) - Within(g, source, d + 1);
    assert a == b + Level(g, source, d + 1);
  }

  lemma LevelAddsNothing(g: Graph, source: nat, d: nat)
    requires Level(g, source, d) == {}
    ensures d > 0 && Within(g, source, d) == Within(g, source, d - 1)
  {
    WithinGrows(g, source, if d > 0 then d - 1 else 0, d);
  }

  lemma ReachedBy(g: Graph, source: nat, d: nat, e: nat)
    requires d > 0 && Within(g, source, d) == Within(g, source, d - 1)
    ensures Within(g, source, e) <= Within(g, source, d)
  {
    hide Within;
    if e <= d {
      WithinGrows(g, source, e, d);
    } else {
      Saturated(g, source, d - 1, e);
    }
  }

  /** When a level is empty, everything reachable is within it. */
  lemma EmptyLevel(g: Graph, source: nat, d: nat)
    requires Level(g, source, d) == {}
    ensures forall v :: Reachable(g, source, v) <==> v in Within(g, source, d)
  {
    LevelAddsNothing(g, source, d);
    hide Within, Level;
    forall v | Reachable(g, source, v)
      ensures v in Within(g, source, d)
    {
      var e :| v in Within(g, source, e);
      ReachedBy(g, source, d, e);
    }
  }
}
