/** The whole betweenness kernel: the dependency sums over all sources, scaled by the largest, and exactly when there is
    something to scale by. */
module Betweenness {
  import opened Graphs
  import opened Sums
  import opened ShortestPaths
  import opened Dependencies
  import opened Brandes

  // ----- When some score is positive -----

  /** Some source has an edge to another vertex. */
  ghost predicate SomeSourceLeads(g: Graph, sources: seq<nat>) {
    exists i, v :: 0 <= i < |sources| && v != sources[i] && g.Edge(sources[i], v)
  }

  lemma DependencyNotNegative(g: Graph, source: nat, lev: seq<int>, u: int)
    ensures Dependency(g, source, lev, u) >= 0.0
  {
    hide Total, Walks;
    var shares := t => Share(g, source, lev, u, t);
    forall t | 0 <= t < |lev|
      ensures shares(t) >= 0.0
    {
      ShareNotNegative(g, source, lev, u, t);
    }
    TotalNotNegative(|lev|, shares);
  }

  lemma ShareNotNegative(g: Graph, source: nat, lev: seq<int>, u: int, t: int)
    ensures Share(g, source, lev, u, t) >= 0.0
  {
    hide Walks;
    if 0 <= u < |lev| && 0 <= t < |lev| && 0 <= lev[u] < lev[t] {
      WalksNotNegative(g, source, u, lev[u]);
      WalksNotNegative(g, source, t, lev[t]);
      WalksNotNegative(g, u, t, lev[t] - lev[u]);
      var a, b, c := Sigma(g, source, lev, u), Walks(g, u, t, lev[t] - lev[u]), Sigma(g, source, lev, t);
      assert a * b >= 0.0;
      assert c > 0.0 ==> a * b / c >= 0.0;
    }
  }

  /** A source that leads to another vertex depends on it. */
  lemma LeadingSource(g: Graph, source: nat, lev: seq<int>, v: nat)
    requires Depths(g, source, lev) && v != source && g.Edge(source, v)
    ensures Dependency(g, source, lev, source) >= 1.0
  {
    hide Dependency, Level;
    EdgeWithin(g, source, source, v, 0);
    assert Reachable(g, source, v);
    SourceDependency(g, source, lev);
    assert v in Others(lev, source, |lev|);
    assert |Others(lev, source, |lev|)| != 0;
  }

  lemma {:induction false} StaysHome(g: Graph, source: nat, d: nat)
    requires forall v: nat :: g.Edge(source, v) ==> v == source
    ensures Within(g, source, d) == {source}
  {
    if d > 0 {
      StaysHome(g, source, d - 1);
    }
  }

  /** A source without an edge to another vertex adds nothing to any score. */
  lemma LonelySource(g: Graph, source: nat, lev: seq<int>, u: int)
    requires Depths(g, source, lev) && forall v: nat :: g.Edge(source, v) ==> v == source
    ensures Dependency(g, source, lev, u) == 0.0
  {
    hide Total, Within, Walks;
    var shares := t => Share(g, source, lev, u, t);
    forall t | 0 <= t < |lev|
      ensures shares(t) == 0.0
    {
      assert lev[t] >= 0 ==> t in Level(g, source, lev[t]);
      if lev[t] > 0 {
        StaysHome(g, source, lev[t]);
        StaysHome(g, source, lev[t] - 1);
      }
    }
    TotalZero(|lev|, shares);
  }

  lemma ScoreNotNegative(g: Graph, sources: seq<nat>, levs: seq<seq<int>>, v: int, added: int -> real)
    requires forall i :: added(i) == Added(g, sources, levs, i, v)
    ensures forall i :: 0 <= i < |levs| ==> added(i) >= 0.0
  {
    hide Dependency;
    forall i | 0 <= i < |levs|
      ensures added(i) >= 0.0
    {
      if i < |sources| {
        DependencyNotNegative(g, sources[i], levs[i], v);
      }
    }
  }

  lemma PositiveScore(g: Graph, sources: seq<nat>, levs: seq<seq<int>>, i: nat, v: nat)
    requires AllDepths(g, sources, levs, |sources|) && i < |sources| && v != sources[i] && g.Edge(sources[i], v)
    ensures Score(g, sources, levs, sources[i]) >= 1.0
  {
    hide Dependency, Total, Depths;
    var added := j => Added(g, sources, levs, j, sources[i]);
    ScoreNotNegative(g, sources, levs, sources[i], added);
    LeadingSource(g, sources[i], levs[i], v);
    TotalHasTerm(|levs|, i, added);
  }

  lemma ZeroScore(g: Graph, sources: seq<nat>, levs: seq<seq<int>>, v: int)
    requires AllDepths(g, sources, levs, |sources|) && !SomeSourceLeads(g, sources)
    ensures Score(g, sources, levs, v) == 0.0
  {
    hide Dependency, Total, Depths;
    var added := i => Added(g, sources, levs, i, v);
    forall i | 0 <= i < |levs|
      ensures added(i) == 0.0
    {
      LonelySource(g, sources[i], levs[i], v);
    }
    TotalZero(|levs|, added);
  }

  /** Zero or the largest entry. */
  ghost predicate Biggest(scores: seq<real>, b: real) {
    b >= 0.0 && (b == 0.0 || b in scores) && forall v :: 0 <= v < |scores| ==> scores[v] <= b
  }

  /** The largest score is positive exactly if some source has an edge to another vertex. */
  lemma PositiveExactly(g: Graph, sources: seq<nat>, levs: seq<seq<int>>, raw: seq<real>, b: real)
    requires AllDepths(g, sources, levs, |sources|) && Scored(g, sources, levs, raw) && Biggest(raw, b)
    ensures b > 0.0 <==> SomeSourceLeads(g, sources)
  {
    hide Score, Depths;
    if i, v :| 0 <= i < |sources| && v != sources[i] && g.Edge(sources[i], v) {
      PositiveScore(g, sources, levs, i, v);
      assert raw[sources[i]] <= b;
    } else if b > 0.0 {
      var v :| 0 <= v < |raw| && raw[v] == b;
      ZeroScore(g, sources, levs, v);
    }
  }

  /** Sources that are not given but picked have an out-edge, and a built graph has no loops. */
  lemma PickedSourcesLead(g: Graph, sources: seq<nat>)
    requires g.Ok() && sources != [] && sources[0] < |g.out| && g.out[sources[0]] != []
          && sources[0] !in g.out[sources[0]]
    ensures SomeSourceLeads(g, sources)
  {
    assert g.InRange(g.out[sources[0]]);
    assert g.Edge(sources[0], g.out[sources[0]][0]);
  }

  /** A given start vertex without out-edges: every score is zero, and the kernel divides zero by zero. */
  lemma NothingToScaleBy(levs: seq<seq<int>>, raw: seq<real>, b: real)
    requires AllDepths(Graph([[], [0]], [[1], []]), [0], levs, 1) && Scored(Graph([[], [0]], [[1], []]), [0], levs, raw)
    requires Biggest(raw, b)
    ensures raw == [0.0, 0.0] && b == 0.0
  {
    hide Score, Depths;
    var g := Graph([[], [0]], [[1], []]);
    assert !SomeSourceLeads(g, [0]);
    PositiveExactly(g, [0], levs, raw, b);
    ZeroScore(g, [0], levs, 0);
    ZeroScore(g, [0], levs, 1);
  }

  // ----- Scaling -----

  ghost predicate ScaledBy(raw: seq<real>, b: real, scaled: seq<real>) {
    |scaled| == |raw| && forall v :: 0 <= v < |raw| ==> scaled[v] * b == raw[v]
  }

  /** Divides every score by the largest. Where none is positive the program divides by zero, and the model stops. */
  method Scale(scores: array<real>) returns (biggest: real)
    modifies scores
    ensures Biggest(old(scores[..]), biggest)
    ensures biggest > 0.0 <==> exists v :: 0 <= v < scores.Length && old(scores[..])[v] > 0.0
    ensures if biggest > 0.0 then ScaledBy(old(scores[..]), biggest, scores[..]) && Biggest(scores[..], 1.0)
          && 1.0 in scores[..]
            else scores[..] == old(scores[..])
  {
    biggest := 0.0;
    for n := 0 to scores.Length
      invariant Biggest(scores[..n], biggest) && scores[..] == old(scores[..])
    {
      assert scores[..n + 1] == scores[..n] + [scores[n]];
      biggest := if scores[n] > biggest then scores[n] else biggest;
    }
    ghost var raw := scores[..];
    assert scores[..scores.Length] == raw;
    if biggest > 0.0 {
      for n := 0 to scores.Length
        invariant forall v :: 0 <= v < n ==> scores[v] == Quotient(raw[v], biggest)
        invariant forall v :: n <= v < scores.Length ==> scores[v] == raw[v]
      {
        scores[n] := Quotient(scores[n], biggest);
      }
      TopIsOne(raw, biggest, scores[..]);
    }
  }

  function Quotient(x: real, y: real): (q: real)
    requires y > 0.0
    ensures q * y == x && (x <= y ==> q <= 1.0) && (x == y ==> q == 1.0)
  {
    x / y
  }

  lemma TopIsOne(raw: seq<real>, b: real, scaled: seq<real>)
    requires b > 0.0 && Biggest(raw, b) && |scaled| == |raw|
    requires forall v :: 0 <= v < |raw| ==> scaled[v] == Quotient(raw[v], b)
    ensures ScaledBy(raw, b, scaled) && Biggest(scaled, 1.0) && 1.0 in scaled
  {
    var top :| 0 <= top < |raw| && raw[top] == b;
    assert scaled[top] == 1.0;
  }

  /** The whole kernel: the scores are scaled so that the largest is one, exactly if a source leads anywhere. */
  method BetweennessKernel(g: Graph, sources: seq<nat>, threads: seq<Threads>)
    returns (scores: array<real>, biggest: real)
    requires g.Ok() && |g.out| > 0 && |threads| == |sources|
    requires forall i :: 0 <= i < |sources| ==> sources[i] < |g.out| && threads[i].Run(g)
    ensures biggest > 0.0 <==> SomeSourceLeads(g, sources)
    ensures exists levs, raw ::
              && AllDepths(g, sources, levs, |sources|) && Scored(g, sources, levs, raw) && Biggest(raw, biggest)
              && if SomeSourceLeads(g, sources) then
                   ScaledBy(raw, biggest, scores[..]) && Biggest(scores[..], 1.0) && 1.0 in scores[..]
                 else scores[..] == raw
  {
    hide AllDepths, Biggest, Scored, SomeSourceLeads;
    scores := Centrality(g, sources, threads);
    ghost var raw := scores[..];
    ghost var levs :| AllDepths(g, sources, levs, |sources|) && Scored(g, sources, levs, raw);
    biggest := Scale(scores);
    PositiveExactly(g, sources, levs, raw, biggest);
  }
}
