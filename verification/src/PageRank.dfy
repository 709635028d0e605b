/** Jacobi-style PageRank: a damped matrix-vector product repeated until the total change is small, pulled over incoming
    edges; and the checker that pushes over outgoing edges. */
module PageRank {
  import opened Graphs
  import opened Sums
  import opened ShortestPaths

  /** The damping factor that the kernel and the checker use. */
  const DAMP: real := 0.85

  ghost function Reverse(g: Graph): Graph {
    Graph(g.inn, g.out)
  }

  /** The in-lists are the transpose of the out-lists, parallel edges included. */
  ghost predicate Transposed(g: Graph) {
    && g.Ok() && |g.out| > 0
    && forall u, v :: 0 <= u < |g.out| && 0 <= v < |g.out| ==> SameCount(g, u, v)
  }

  ghost predicate SameCount(g: Graph, u: int, v: int) {
    Adjacent(g, u, v) == Adjacent(Reverse(g), v, u)
  }

  function X(x: seq<real>, v: int): real {
    if 0 <= v < |x| then x[v] else 0.0
  }

  /** What v passes along each of its out-edges. */
  ghost function Passed(g: Graph, x: seq<real>, v: int): real {
    if Degree(g, v) == 0 then 0.0 else X(x, v) / Degree(g, v) as real
  }

  ghost function Arriving(g: Graph, x: seq<real>, u: int, v: int): real {
    Adjacent(Reverse(g), u, v) * Passed(g, x, v)
  }

  /** What u receives. */
  ghost function Incoming(g: Graph, x: seq<real>, u: int): real {
    Total(|g.out|, v => Arriving(g, x, u, v))
  }

  /** What u collects along its in-edges: the score of each neighbour divided by that one's out-degree. */
  ghost function Collected(g: Graph, x: seq<real>, u: nat): real
    requires g.Ok() && |x| == |g.out| && u < |g.inn|
  {
    Total(|g.inn[u]|, k => Share(g, x, u, k))
  }

  ghost function Share(g: Graph, x: seq<real>, u: nat, k: int): real
    requires u < |g.inn|
  {
    if 0 <= k < |g.inn[u]| && g.inn[u][k] < |x| && g.inn[u][k] < |g.out| && |g.out[g.inn[u][k]]| > 0 then
      x[g.inn[u][k]] / |g.out[g.inn[u][k]]| as real
    else 0.0
  }

  /** One iteration. */
  ghost function Next(g: Graph, x: seq<real>): (r: seq<real>)
    requires |g.out| > 0
    ensures |r| == |g.out|
    ensures forall u :: 0 <= u < |r| ==> r[u] == 0.15 / |g.out| as real + 0.85 * Incoming(g, x, u)
  {
    seq(|g.out|, u => 0.15 / |g.out| as real + 0.85 * Incoming(g, x, u))
  }

  /** y is what one iteration makes of x: every vertex has 0.15 divided by the number of vertices, and 0.85 of what it
      collects. */
  ghost predicate IsNext(g: Graph, x: seq<real>, y: seq<real>)
    requires g.Ok()
  {
    && |x| == |y| == |g.out| == |g.inn| > 0
    && forall u :: 0 <= u < |y| ==> y[u] == 0.15 / |y| as real + 0.85 * Collected(g, x, u)
  }

  ghost function Mass(x: seq<real>): real {
    Total(|x|, v => X(x, v))
  }

  function Abs(x: real): real {
    if x < 0.0 then -x else x
  }

  /** The total change between two score vectors. */
  ghost function Distance(x: seq<real>, y: seq<real>): real {
    Total(|x|, v => Abs(X(y, v) - X(x, v)))
  }

  // ----- What arrives is what was passed -----

  lemma EdgesOut(g: Graph, v: int, ones: int -> real)
    requires g.Ok() && 0 <= v < |g.out| && forall u :: 0 <= u < |g.out| ==> ones(u) == Adjacent(g, v, u)
    ensures Total(|g.out|, ones) == Degree(g, v) as real
  {
    hide Total, Adjacent, Graph.Ok;
    EdgesToVertices(g, v, _ => 1.0, _ => 1.0, ones);
    TotalOnes(Degree(g, v));
  }

  /** Summed over all receivers, v's edges carry what v has, unless it has no edges. */
  lemma CarriedBy(g: Graph, x: seq<real>, v: int, f: (int, int) -> real, c: real)
    requires Transposed(g) && 0 <= v < |g.out|
    requires forall u :: 0 <= u < |g.out| ==> f(u, v) == Adjacent(Reverse(g), u, v) * c
    ensures ColumnSum(|g.out|, f, v) == c * Degree(g, v) as real
  {
    hide Total, Adjacent, Graph.Ok, ColumnSum, Reverse;
    var ones := u => Adjacent(g, v, u);
    EdgesOut(g, v, ones);
    forall u | 0 <= u < |g.out|
      ensures f(u, v) == c * ones(u)
    {
      assert SameCount(g, v, u);
    }
    ColumnScale(|g.out|, f, v, c, ones);
  }

  ghost function Kept(g: Graph, x: seq<real>, v: int): real {
    if Degree(g, v) == 0 then 0.0 else X(x, v)
  }

  lemma IncomingTotal(g: Graph, x: seq<real>, incoming: int -> real, kept: int -> real)
    requires Transposed(g) && forall u :: 0 <= u < |g.out| ==> incoming(u) == Incoming(g, x, u)
    requires forall v :: 0 <= v < |g.out| ==> kept(v) == Kept(g, x, v)
    ensures Total(|g.out|, incoming) == Total(|g.out|, kept)
  {
    hide Total, Adjacent, Graph.Ok, ColumnSum, RowSum;
    var f := (u, v) => Arriving(g, x, u, v);
    forall u | 0 <= u < |g.out|
      ensures incoming(u) == RowSum(|g.out|, f, u)
    {
      RowScale(|g.out|, f, u, 1.0, v => Arriving(g, x, u, v));
    }
    forall v | 0 <= v < |g.out|
      ensures kept(v) == ColumnSum(|g.out|, f, v)
    {
      CarriedBy(g, x, v, f, Passed(g, x, v));
      PassedTimesDegree(X(x, v), Degree(g, v));
    }
    RowsAndColumns(|g.out|, |g.out|, f, incoming, kept);
  }

  lemma PassedTimesDegree(x: real, d: nat)
    ensures (if d == 0 then 0.0 else x / d as real) * d as real == if d == 0 then 0.0 else x
  {
  }

  /** The mass after an iteration. */
  lemma NextMass(g: Graph, x: seq<real>, kept: int -> real)
    requires Transposed(g) && forall v :: 0 <= v < |g.out| ==> kept(v) == Kept(g, x, v)
    ensures Mass(Next(g, x)) == 0.15 + 0.85 * Total(|g.out|, kept)
  {
    hide Total, Graph.Ok, Incoming, SameCount;
    var n := |g.out|;
    var incoming := u => Incoming(g, x, u);
    IncomingTotal(g, x, incoming, kept);
    var damped, base := u => 0.85 * incoming(u), _ => 0.15 / n as real;
    TotalScale(n, 0.85, incoming, damped);
    TotalScale(n, 0.15 / n as real, _ => 1.0, base);
    TotalOnes(n);
    BaseTimes(n);
    var next := Next(g, x);
    TotalPlus(n, base, damped, v => X(next, v));
  }

  lemma BaseTimes(n: nat)
    requires n > 0
    ensures 0.15 / n as real * n as real == 0.15
  {
  }

  ghost predicate Positive(x: seq<real>) {
    forall v :: 0 <= v < |x| ==> x[v] > 0.0
  }

  ghost predicate NoSinks(g: Graph) {
    forall v :: 0 <= v < |g.out| ==> Degree(g, v) > 0
  }

  /** Scores stay positive with total at most one; the total is exactly one for ever if and only if every vertex has an
      out-edge. */
  lemma NextIsRanking(g: Graph, x: seq<real>)
    requires Transposed(g) && |x| == |g.out| && Positive(x) && Mass(x) <= 1.0
    ensures Positive(Next(g, x)) && Mass(Next(g, x)) <= 1.0
    ensures Mass(x) == 1.0 ==> (Mass(Next(g, x)) == 1.0 <==> NoSinks(g))
  {
    hide Total, Graph.Ok, Adjacent;
    var kept := v => Kept(g, x, v);
    NextMass(g, x, kept);
    TotalAtLeast(|g.out|, kept, v => X(x, v));
    forall u | 0 <= u < |g.out|
      ensures Next(g, x)[u] > 0.0
    {
      IncomingNotNegative(g, x, u);
    }
    if NoSinks(g) {
      TotalEqual(|g.out|, kept, v => X(x, v));
    } else {
      var s :| 0 <= s < |g.out| && Degree(g, s) == 0;
      SinkLoses(g, x, s, kept);
    }
  }

  lemma SinkLoses(g: Graph, x: seq<real>, s: int, kept: int -> real)
    requires |x| == |g.out| && Positive(x) && 0 <= s < |g.out| && Degree(g, s) == 0
    requires forall v :: 0 <= v < |g.out| ==> kept(v) == Kept(g, x, v)
    ensures Total(|g.out|, kept) < Mass(x)
  {
    hide Total;
    var but := v => if v == s then 0.0 else X(x, v);
    TotalBump(|g.out|, s, but, v => X(x, v));
    TotalAtLeast(|g.out|, kept, but);
  }

  lemma IncomingNotNegative(g: Graph, x: seq<real>, u: int)
    requires g.Ok() && |x| == |g.out| && Positive(x) && 0 <= u < |g.out|
    ensures Incoming(g, x, u) >= 0.0
  {
    hide Total, Adjacent;
    forall v | 0 <= v < |g.out|
      ensures Arriving(g, x, u, v) >= 0.0
    {
      AdjacentIsEdge(Reverse(g), u, v);
      NotNegativeProduct(Adjacent(Reverse(g), u, v), Passed(g, x, v));
    }
    TotalZero(|g.out|, _ => 0.0);
    TotalAtLeast(|g.out|, _ => 0.0, v => Arriving(g, x, u, v));
  }

  lemma NotNegativeProduct(x: real, y: real)
    requires x >= 0.0 && y >= 0.0
    ensures x * y >= 0.0
  {
  }

  // ----- Contraction -----

  lemma {:induction false} TotalAbs(n: nat, f: int -> real, g: int -> real)
    requires forall i :: 0 <= i < n ==> Abs(f(i)) <= g(i)
    ensures Abs(Total(n, f)) <= Total(n, g)
  {
    if n > 0 {
      TotalAbs(n - 1, f, g);
    }
  }

  /** The change of what v passes along an edge. */
  ghost function PassedChange(g: Graph, x: seq<real>, y: seq<real>, v: int): real {
    Abs(Passed(g, y, v) - Passed(g, x, v))
  }

  ghost function ArrivingChange(g: Graph, x: seq<real>, y: seq<real>, u: int, v: int): real {
    Adjacent(Reverse(g), u, v) * PassedChange(g, x, y, v)
  }

  lemma ArrivingChanges(g: Graph, x: seq<real>, y: seq<real>, u: nat, v: nat)
    requires g.Ok() && u < |g.out|
    ensures Abs(Arriving(g, y, u, v) - Arriving(g, x, u, v)) == ArrivingChange(g, x, y, u, v)
  {
    hide Adjacent;
    AdjacentIsEdge(Reverse(g), u, v);
    AbsProduct(Adjacent(Reverse(g), u, v), Passed(g, x, v), Passed(g, y, v));
  }

  lemma IncomingChange(g: Graph, x: seq<real>, y: seq<real>, u: int, changes: int -> real)
    requires g.Ok() && 0 <= u < |g.out| && forall v :: 0 <= v < |g.out| ==> changes(v) == ArrivingChange(g, x, y, u, v)
    ensures Abs(Incoming(g, y, u) - Incoming(g, x, u)) <= Total(|g.out|, changes)
  {
    hide Total, Arriving, ArrivingChange, Abs;
    var xs, ys := v => Arriving(g, x, u, v), v => Arriving(g, y, u, v);
    var diffs := v => Arriving(g, y, u, v) - Arriving(g, x, u, v);
    TotalPlus(|g.out|, xs, diffs, ys);
    forall v | 0 <= v < |g.out|
      ensures Abs(diffs(v)) <= changes(v)
    {
      ArrivingChanges(g, x, y, u, v);
    }
    TotalAbs(|g.out|, diffs, changes);
  }

  lemma AbsProduct(a: real, x: real, y: real)
    requires a >= 0.0
    ensures Abs(a * y - a * x) == a * Abs(y - x)
  {
    assert a * y - a * x == a * (y - x);
    if y - x < 0.0 {
      NotNegativeProduct(a, x - y);
    } else {
      NotNegativeProduct(a, y - x);
    }
  }

  lemma PassedChangeTimesDegree(g: Graph, x: seq<real>, y: seq<real>, v: int)
    ensures PassedChange(g, x, y, v) * Degree(g, v) as real <= Abs(X(y, v) - X(x, v))
  {
    var d := Degree(g, v);
    if d > 0 {
      ScaledAbs(X(x, v), X(y, v), d as real);
    }
  }

  lemma ScaledAbs(x: real, y: real, d: real)
    requires d > 0.0
    ensures Abs(y / d - x / d) * d == Abs(y - x)
  {
    var p, q := x / d, y / d;
    assert p * d == x && q * d == y;
    AbsProduct(d, p, q);
    assert d * q - d * p == y - x;
    assert d * Abs(q - p) == Abs(q - p) * d;
  }

  /** An iteration brings two score vectors closer by the damping factor. */
  lemma Contracts(g: Graph, x: seq<real>, y: seq<real>)
    requires Transposed(g) && |x| == |y| == |g.out|
    ensures Distance(Next(g, x), Next(g, y)) <= 0.85 * Distance(x, y)
  {
    hide Total, Adjacent, Graph.Ok, RowSum, ColumnSum, PassedChange, Incoming, Abs;
    var n := |g.out|;
    var f := (u, v) => ArrivingChange(g, x, y, u, v);
    var rows, columns := u => RowSum(n, f, u), v => PassedChange(g, x, y, v) * Degree(g, v) as real;
    forall v | 0 <= v < n
      ensures columns(v) == ColumnSum(n, f, v)
    {
      CarriedBy(g, x, v, f, PassedChange(g, x, y, v));
    }
    RowsAndColumns(n, n, f, rows, columns);
    var before := v => Abs(X(y, v) - X(x, v));
    forall v | 0 <= v < n
      ensures columns(v) <= before(v)
    {
      PassedChangeTimesDegree(g, x, y, v);
    }
    TotalAtLeast(n, columns, before);
    AfterChange(g, x, y, f, rows);
  }

  lemma AfterChange(g: Graph, x: seq<real>, y: seq<real>, f: (int, int) -> real, rows: int -> real)
    requires Transposed(g) && |x| == |y| == |g.out|
    requires forall u, v :: f(u, v) == ArrivingChange(g, x, y, u, v)
    requires forall u :: 0 <= u < |g.out| ==> rows(u) == RowSum(|g.out|, f, u)
    ensures Distance(Next(g, x), Next(g, y)) <= 0.85 * Total(|g.out|, rows)
  {
    hide Total, Adjacent, Incoming, ArrivingChange, SameCount;
    var n, x', y' := |g.out|, Next(g, x), Next(g, y);
    var after, damped := u => Abs(X(y', u) - X(x', u)), u => 0.85 * rows(u);
    TotalScale(n, 0.85, rows, damped);
    forall u | 0 <= u < n
      ensures after(u) <= damped(u)
    {
      var changes := v => ArrivingChange(g, x, y, u, v);
      IncomingChange(g, x, y, u, changes);
      RowScale(n, f, u, 1.0, changes);
      DampedChange(0.15 / n as real, Incoming(g, x, u), Incoming(g, y, u), rows(u));
    }
    TotalAtLeast(n, after, damped);
  }

  lemma DampedChange(base: real, x: real, y: real, r: real)
    requires Abs(y - x) <= r
    ensures Abs(base + 0.85 * y - (base + 0.85 * x)) <= 0.85 * r
  {
  }

  // ----- The kernel -----

  ghost function Uniform(n: nat): (x: seq<real>)
    requires n > 0
    ensures |x| == n && forall v :: 0 <= v < n ==> x[v] == 1.0 / n as real
  {
    var share := 1.0 / n as real;
    seq(n, _ => share)
  }

  /** The scores after i iterations from the uniform start. */
  ghost function Iterate(g: Graph, i: nat): (x: seq<real>)
    requires |g.out| > 0
    ensures |x| == |g.out|
  {
    if i == 0 then Uniform(|g.out|) else Next(g, Iterate(g, i - 1))
  }

  lemma UniformIsRanking(n: nat)
    requires n > 0
    ensures Positive(Uniform(n)) && Mass(Uniform(n)) == 1.0
  {
    hide Total;
    var x, share := Uniform(n), 1.0 / n as real;
    TotalScale(n, share, _ => 1.0, v => X(x, v));
    TotalOnes(n);
  }

  lemma {:induction false} IterateIsRanking(g: Graph, i: nat)
    requires Transposed(g)
    ensures Positive(Iterate(g, i)) && Mass(Iterate(g, i)) <= 1.0
    ensures NoSinks(g) ==> Mass(Iterate(g, i)) == 1.0
  {
    hide Mass, NoSinks, Positive, Transposed;
    SomeVertex(g);
    if i == 0 {
      UniformIsRanking(|g.out|);
    } else {
      IterateIsRanking(g, i - 1);
      NextIsRanking(g, Iterate(g, i - 1));
    }
  }

  lemma SomeVertex(g: Graph)
    requires Transposed(g)
    ensures |g.out| > 0
  {
  }

  /** The change made by the i-th iteration shrinks by the damping factor every time. */
  lemma ErrorShrinks(g: Graph, i: nat)
    requires Transposed(g)
    ensures Distance(Iterate(g, i + 1), Iterate(g, i + 2)) <= 0.85 * Distance(Iterate(g, i), Iterate(g, i + 1))
  {
    hide Distance;
    Contracts(g, Iterate(g, i), Iterate(g, i + 1));
  }

  /** The first loop of an iteration.  What a vertex without out-edges would pass is some value nobody specified. */
  method Contributions(g: Graph, scores: array<real>, contrib: array<real>, junk: nat -> real)
    requires scores.Length == contrib.Length == |g.out| && scores != contrib
    modifies contrib
    ensures forall v :: 0 <= v < |g.out| && Degree(g, v) > 0 ==> contrib[v] == Passed(g, scores[..], v)
  {
    for n := 0 to |g.out|
      invariant forall v :: 0 <= v < n && Degree(g, v) > 0 ==> contrib[v] == Passed(g, scores[..], v)
    {
      contrib[n] := if |g.out[n]| == 0 then junk(n) else scores[n] / |g.out[n]| as real;
    }
  }

  lemma CollectedIsIncoming(g: Graph, x: seq<real>, u: nat)
    requires Transposed(g) && |x| == |g.out| && u < |g.out|
    ensures Collected(g, x, u) == Incoming(g, x, u)
  {
    hide Total, Adjacent, SameCount;
    var back := Reverse(g);
    var edge, share := k => Passed(g, x, Target(back, u, k)), k => Share(g, x, u, k);
    forall k | 0 <= k < |g.inn[u]|
      ensures edge(k) == share(k)
    {
      InNeighbour(g, u, k);
    }
    TotalEqual(|g.inn[u]|, edge, share);
    EdgesToVertices(back, u, v => Passed(g, x, v), edge, v => Arriving(g, x, u, v));
  }

  /** The iteration in terms of what is summed up along the in-edges of every vertex. */
  lemma NextIs(g: Graph, x: seq<real>)
    requires Transposed(g) && |x| == |g.out|
    ensures IsNext(g, x, Next(g, x))
  {
    hide SameCount, Incoming, Collected;
    forall u | 0 <= u < |g.out|
      ensures Collected(g, x, u) == Incoming(g, x, u)
    {
      CollectedIsIncoming(g, x, u);
    }
  }

  /** What u pulls in over its in-edges: only from vertices that have an out-edge. */
  method PullInto(g: Graph, contrib: array<real>, u: nat, ghost x: seq<real>) returns (total: real)
    requires Transposed(g) && u < |g.out| == contrib.Length
    requires forall v :: 0 <= v < |g.out| && Degree(g, v) > 0 ==> contrib[v] == Passed(g, x, v)
    ensures total == Incoming(g, x, u)
  {
    hide Total, Adjacent, Passed, SameCount;
    total := 0.0;
    ghost var back := Reverse(g);
    ghost var edge := k => Passed(g, x, Target(back, u, k));
    TotalSteps(edge, 0);
    for k := 0 to |g.inn[u]|
      invariant total == Total(k, edge)
    {
      TotalSteps(edge, k);
      InNeighbour(g, u, k);
      total := total + contrib[g.inn[u][k]];
    }
    EdgesToVertices(back, u, v => Passed(g, x, v), edge, v => Arriving(g, x, u, v));
  }

  lemma InNeighbour(g: Graph, u: nat, k: nat)
    requires g.Ok() && u < |g.out| && k < |g.inn[u]|
    ensures g.inn[u][k] < |g.out| && Degree(g, g.inn[u][k]) > 0
  {
    assert g.InRange(g.inn[u]);
    assert g.inn[u][k] in g.inn[u];
    assert u in g.out[g.inn[u][k]];
  }

  /** The second loop: new scores and the total change. */
  method PullAll(g: Graph, scores: array<real>, contrib: array<real>, base: real) returns (error: real)
    requires Transposed(g) && scores.Length == contrib.Length == |g.out| && scores != contrib
    requires base == 0.15 / |g.out| as real
    requires forall v :: 0 <= v < |g.out| && Degree(g, v) > 0 ==> contrib[v] == Passed(g, scores[..], v)
    modifies scores
    ensures scores[..] == Next(g, old(scores[..])) && error == Distance(old(scores[..]), scores[..])
  {
    hide Total, Adjacent, Passed, Transposed, Incoming, Abs;
    SomeVertex(g);
    ghost var x := scores[..];
    ghost var next := Next(g, x);
    ghost var change := v => Abs(X(next, v) - X(x, v));
    error := 0.0;
    TotalSteps(change, 0);
    for u := 0 to |g.out|
      invariant forall v :: 0 <= v < u ==> scores[v] == next[v]
      invariant forall v :: u <= v < |g.out| ==> scores[v] == x[v]
      invariant error == Total(u, change)
    {
      var total := PullInto(g, contrib, u, x);
      var oldScore := scores[u];
      scores[u] := base + DAMP * total;
      TotalSteps(change, u);
      error := error + Abs(scores[u] - oldScore);
    }
    assert scores[..] == next;
  }

  /** The iteration stops early after the first round whose change is below the tolerance, and only then. */
  ghost predicate StopsAt(g: Graph, epsilon: real, iterations: nat, early: bool)
    requires |g.out| > 0
  {
    && (early ==> iterations > 0 && Distance(Iterate(g, iterations - 1), Iterate(g, iterations)) < epsilon)
    && forall j: nat :: j < (if early then iterations - 1 else iterations) ==>
          Distance(Iterate(g, j), Iterate(g, j + 1)) >= epsilon
  }

  lemma StopsHere(g: Graph, epsilon: real, iterations: nat, early: bool)
    requires |g.out| > 0
    requires early ==> iterations > 0 && Distance(Iterate(g, iterations - 1), Iterate(g, iterations)) < epsilon
    requires forall j: nat :: j < (if early then iterations - 1 else iterations) ==>
      Distance(Iterate(g, j), Iterate(g, j + 1)) >= epsilon
    ensures StopsAt(g, epsilon, iterations, early)
  {
  }

  /** Every vertex starts with an equal share, and every iteration makes the next one of the last. */
  ghost predicate IteratesFromUniform(g: Graph) {
    && g.Ok() && |g.out| > 0
    && (forall u :: 0 <= u < |g.out| ==> Iterate(g, 0)[u] == 1.0 / |g.out| as real)
    && forall i: nat :: IsNext(g, Iterate(g, i), Iterate(g, i + 1))
  }

  lemma IteratesAre(g: Graph)
    requires Transposed(g)
    ensures IteratesFromUniform(g)
  {
    hide Next, IsNext, SameCount;
    forall i: nat
      ensures IsNext(g, Iterate(g, i), Iterate(g, i + 1))
    {
      NextIs(g, Iterate(g, i));
    }
  }

  /** The kernel.  It returns the scores after some number of iterations; if it stopped early, one more iteration
      would change them by less than the damping factor times the tolerance. */
  method PageRankPull(g: Graph, maxIterations: nat, epsilon: real, junk: nat -> real)
    returns (scores: array<real>, ghost iterations: nat, early: bool)
    requires Transposed(g)
    ensures scores.Length == |g.out| && iterations <= maxIterations && scores[..] == Iterate(g, iterations)
    ensures IteratesFromUniform(g)
    ensures StopsAt(g, epsilon, iterations, early) && (!early ==> iterations == maxIterations)
    ensures early ==> Distance(scores[..], Next(g, scores[..])) < 0.85 * epsilon
  {
    hide Adjacent, Transposed, Distance, Passed, IsNext, IteratesFromUniform, Next, StopsAt;
    SomeVertex(g);
    IteratesAre(g);
    var n := |g.out|;
    var share, base := 1.0 / n as real, (1.0 - DAMP) / n as real;
    scores := new real[n](_ => share);
    var contrib := new real[n];
    assert scores[..] == Iterate(g, 0);
    iterations, early := 0, false;
    for i := 0 to maxIterations
      invariant iterations == i && fresh(scores) && fresh(contrib) && scores != contrib
      invariant scores.Length == contrib.Length == n && scores[..] == Iterate(g, i)
      invariant forall j: nat :: j < i ==> Distance(Iterate(g, j), Iterate(g, j + 1)) >= epsilon
    {
      Contributions(g, scores, contrib, junk);
      var error := PullAll(g, scores, contrib, base);
      iterations := i + 1;
      assert scores[..] == Iterate(g, i + 1);
      if error < epsilon {
        ErrorShrinks(g, i);
        assert Iterate(g, i + 2) == Next(g, scores[..]);
        early := true;
        StopsHere(g, epsilon, iterations, early);
        return;
      }
    }
    StopsHere(g, epsilon, iterations, early);
  }

  /** Near a fixed point: where an iteration changes little, every fixed point is close. */
  lemma FixedPointNear(g: Graph, x: seq<real>, fixed: seq<real>)
    requires Transposed(g) && |x| == |fixed| == |g.out| && Next(g, fixed) == fixed
    ensures 0.15 * Distance(x, fixed) <= Distance(x, Next(g, x))
  {
    hide Distance;
    Contracts(g, x, fixed);
    Triangle(x, Next(g, x), fixed);
  }

  lemma Triangle(x: seq<real>, y: seq<real>, z: seq<real>)
    requires |x| == |y| == |z|
    ensures Distance(x, z) <= Distance(x, y) + Distance(y, z)
  {
    hide Total;
    var xy, yz, xz := v => Abs(X(y, v) - X(x, v)), v => Abs(X(z, v) - X(y, v)), v => Abs(X(z, v) - X(x, v));
    var sum := v => xy(v) + yz(v);
    TotalPlus(|x|, xy, yz, sum);
    TotalAtLeast(|x|, xz, sum);
  }

  // ----- The checker -----

  ghost function Pushed(g: Graph, x: seq<real>, u: int, v: int): real {
    Passed(g, x, u) * Adjacent(g, u, v)
  }

  /** Pushing along out-edges delivers what pulling along in-edges collects. */
  lemma PushIsPull(g: Graph, x: seq<real>, v: int, pushed: int -> real)
    requires Transposed(g) && 0 <= v < |g.out| && forall u :: 0 <= u < |g.out| ==> pushed(u) == Pushed(g, x, u, v)
    ensures Total(|g.out|, pushed) == Incoming(g, x, v)
  {
    hide Total, Adjacent, Passed, Graph.Ok;
    forall u | 0 <= u < |g.out|
      ensures pushed(u) == Arriving(g, x, v, u)
    {
      assert SameCount(g, u, v);
    }
    TotalEqual(|g.out|, pushed, u => Arriving(g, x, v, u));
  }

  /** What has been pushed to v after the first u vertices and k edges of the next one. */
  ghost function PushedTo(g: Graph, x: seq<real>, v: int, u: nat, k: nat): real {
    Total(u, w => Pushed(g, x, w, v)) + Passed(g, x, u) * Total(k, i => Hit(g, u, i, v))
  }

  lemma PushEdge(g: Graph, x: seq<real>, v: int, u: nat, k: nat)
    requires u < |g.out| && k < |g.out[u]|
    ensures PushedTo(g, x, v, u, k + 1) == PushedTo(g, x, v, u, k) + if g.out[u][k] == v then Passed(g, x, u) else 0.0
  {
    hide Passed;
    var hits := i => Hit(g, u, i, v);
    var p, t := Passed(g, x, u), Total(k, hits);
    assert p * (t + hits(k)) == p * t + p * hits(k);
  }

  lemma PushVertex(g: Graph, x: seq<real>, v: int, u: nat)
    requires u < |g.out|
    ensures PushedTo(g, x, v, u + 1, 0) == PushedTo(g, x, v, u, |g.out[u]|)
  {
    hide Passed;
    var pushed := w => Pushed(g, x, w, v);
    TotalSteps(pushed, u);
    assert Total(0, i => Hit(g, u + 1, i, v)) == 0.0;
  }

  method PushFrom(g: Graph, sums: array<real>, contrib: real, u: nat, ghost x: seq<real>)
    requires g.Ok() && u < |g.out| == sums.Length && (|g.out[u]| > 0 ==> contrib == Passed(g, x, u))
    requires forall v :: 0 <= v < |g.out| ==> sums[v] == PushedTo(g, x, v, u, 0)
    modifies sums
    ensures forall v :: 0 <= v < |g.out| ==> sums[v] == PushedTo(g, x, v, u + 1, 0)
  {
    hide Passed, PushedTo;
    for k := 0 to |g.out[u]|
      invariant forall v :: 0 <= v < |g.out| ==> sums[v] == PushedTo(g, x, v, u, k)
    {
      assert g.InRange(g.out[u]);
      forall v | 0 <= v < |g.out|
        ensures PushedTo(g, x, v, u, k + 1) == PushedTo(g, x, v, u, k) + if g.out[u][k] == v then Passed(g, x, u)
              else 0.0
      {
        PushEdge(g, x, v, u, k);
      }
      sums[g.out[u][k]] := sums[g.out[u][k]] + contrib;
    }
    forall v | 0 <= v < |g.out|
      ensures PushedTo(g, x, v, u + 1, 0) == PushedTo(g, x, v, u, |g.out[u]|)
    {
      PushVertex(g, x, v, u);
    }
  }

  /** The checker's total error is the change that one more iteration would make. */
  method PRVerifier(g: Graph, scores: seq<real>, target: real, junk: nat -> real) returns (ok: bool, error: real)
    requires Transposed(g) && |scores| == |g.out|
    ensures error == Distance(scores, Next(g, scores)) && ok == (error < target)
    ensures IsNext(g, scores, Next(g, scores))
  {
    hide Adjacent, Passed, SameCount, PushedTo, Incoming, Abs, Total, IsNext;
    var n := |g.out|;
    NextIs(g, scores);
    var base := (1.0 - DAMP) / n as real;
    var sums := new real[n](_ => 0.0);
    NothingPushed(g, scores);
    for u := 0 to n
      invariant forall v :: 0 <= v < n ==> sums[v] == PushedTo(g, scores, v, u, 0)
    {
      var contrib := OutgoingContrib(g, scores, u, junk);
      PushFrom(g, sums, contrib, u, scores);
    }
    ghost var next := Next(g, scores);
    ghost var change := v => Abs(X(next, v) - X(scores, v));
    error := 0.0;
    TotalSteps(change, 0);
    for v := 0 to n
      invariant error == Total(v, change)
      invariant forall w :: v <= w < n ==> sums[w] == PushedTo(g, scores, w, n, 0)
    {
      AllPushed(g, scores, v);
      TotalSteps(change, v);
      error := error + Abs(base + DAMP * sums[v] - scores[v]);
      sums[v] := 0.0;
    }
    ok := error < target;
  }

  method OutgoingContrib(g: Graph, scores: seq<real>, u: nat, junk: nat -> real) returns (contrib: real)
    requires u < |g.out| == |scores|
    ensures |g.out[u]| > 0 ==> contrib == Passed(g, scores, u)
  {
    contrib := if |g.out[u]| == 0 then junk(u) else scores[u] / |g.out[u]| as real;
  }

  lemma NothingPushed(g: Graph, x: seq<real>)
    ensures forall v :: 0 <= v < |g.out| ==> PushedTo(g, x, v, 0, 0) == 0.0
  {
  }

  lemma AllPushed(g: Graph, x: seq<real>, v: nat)
    requires Transposed(g) && v < |g.out|
    ensures PushedTo(g, x, v, |g.out|, 0) == Incoming(g, x, v)
  {
    hide Incoming;
    PushIsPull(g, x, v, w => Pushed(g, x, w, v));
  }

  /** What the kernel returns after stopping early, the checker accepts. */
  method RankAndCheck(g: Graph, maxIterations: nat, epsilon: real, junk: nat -> real, junk': nat -> real)
    returns (scores: array<real>, early: bool, ok: bool)
    requires Transposed(g) && epsilon > 0.0
    ensures early ==> ok
    ensures scores.Length == |g.out| && Positive(scores[..]) && Mass(scores[..]) <= 1.0
    ensures NoSinks(g) ==> Mass(scores[..]) == 1.0
  {
    hide Distance, Transposed, Positive, Mass, NoSinks, Next, IsNext, StopsAt;
    ghost var iterations;
    scores, iterations, early := PageRankPull(g, maxIterations, epsilon, junk);
    var error;
    ok, error := PRVerifier(g, scores[..], epsilon, junk');
    IterateIsRanking(g, iterations);
  }
}
