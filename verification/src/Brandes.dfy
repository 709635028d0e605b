/** One source of the betweenness kernel: a parallel breadth-first search that counts shortest paths and marks the
    edges on them, and the back-propagation of dependencies over its levels. */
module Brandes {
  import opened Graphs
  import opened Sums
  import opened ShortestPaths
  import opened Dependencies
  import opened DirectionBfs

  // ----- Edge positions in the flat neighbour array -----

  ghost function Offset(g: Graph, u: nat): nat {
    if u == 0 then 0 else Offset(g, u - 1) + Degree(g, u - 1)
  }

  lemma {:induction false} OffsetGrows(g: Graph, u: nat, v: nat)
    requires u < v
    ensures Offset(g, u) + Degree(g, u) <= Offset(g, v)
  {
    if u < v - 1 {
      OffsetGrows(g, u, v - 1);
    }
  }

  ghost predicate IsEdgePosition(g: Graph, u: nat, k: nat) {
    u < |g.out| && k < Degree(g, u)
  }

  lemma PositionsDiffer(g: Graph, u: nat, k: nat, u': nat, k': nat)
    requires IsEdgePosition(g, u, k) && IsEdgePosition(g, u', k') && (u, k) != (u', k')
    ensures Offset(g, u) + k != Offset(g, u') + k'
  {
    if u < u' {
      OffsetGrows(g, u, u');
    } else if u' < u {
      OffsetGrows(g, u', u);
    }
  }

  lemma PositionInRange(g: Graph, u: nat, k: nat)
    requires IsEdgePosition(g, u, k)
    ensures Offset(g, u) + k < Offset(g, |g.out|)
  {
    OffsetGrows(g, u, |g.out|);
  }

  /** Where the out-neighbours start, as the graph's index holds it. */
  method Offsets(g: Graph) returns (index: seq<nat>)
    ensures |index| == |g.out| + 1 && forall u :: 0 <= u <= |g.out| ==> index[u] == Offset(g, u)
  {
    index := [0];
    for u := 0 to |g.out|
      invariant |index| == u + 1 && forall w :: 0 <= w <= u ==> index[w] == Offset(g, w)
    {
      index := index + [index[u] + |g.out[u]|];
    }
  }

  // ----- One level of the search -----

  /** What a thread does for one edge: try to claim its target, then count it if the target is on the new level.
      Another thread's steps may come in between. */
  datatype Move = Claim(u: nat, k: nat) | Count(u: nat, k: nat)

  ghost predicate Schedule(g: Graph, window: seq<nat>, moves: seq<Move>) {
    && (forall q :: 0 <= q < |moves| ==> moves[q].u in window && IsEdgePosition(g, moves[q].u, moves[q].k))
    && (forall q :: 0 <= q < |moves| && moves[q].Count? ==> Claim(moves[q].u, moves[q].k) in moves[..q])
    && (forall p, q :: 0 <= p < q < |moves| && moves[p].Count? ==> moves[p] != moves[q])
    && (forall u: nat, k: nat :: u in window && IsEdgePosition(g, u, k) ==> Count(u, k) in moves)
  }

  /** The paths that reach v over the edges counted so far. */
  ghost function Gathered(g: Graph, source: nat, d: nat, done: set<(nat, nat)>, v: int): real {
    Total(|g.out|, u => GatheredFrom(g, source, d, done, u, v))
  }

  ghost function GatheredFrom(g: Graph, source: nat, d: nat, done: set<(nat, nat)>, u: int, v: int): real {
    Walks(g, source, u, d) * Total(Degree(g, u), k => CountedHit(g, done, u, k, v))
  }

  ghost function CountedHit(g: Graph, done: set<(nat, nat)>, u: int, k: int, v: int): real {
    if u >= 0 && k >= 0 && (u, k) in done then Hit(g, u, k, v) else 0.0
  }

  lemma GatherStep(g: Graph, source: nat, d: nat, done: set<(nat, nat)>, u: nat, k: nat, v: int)
    requires IsEdgePosition(g, u, k) && (u, k) !in done
    ensures Gathered(g, source, d, done + {(u, k)}, v) ==
            Gathered(g, source, d, done, v) + Walks(g, source, u, d) * Hit(g, u, k, v)
  {
    hide Walks, Total, Hit;
    var more := done + {(u, k)};
    var before, after := i => CountedHit(g, done, u, i, v), i => CountedHit(g, more, u, i, v);
    TotalBump(Degree(g, u), k, before, after);
    var w, x := Walks(g, source, u, d), Total(Degree(g, u), before);
    assert w * (x + Hit(g, u, k, v)) == w * x + w * Hit(g, u, k, v);
    assert GatheredFrom(g, source, d, more, u, v) == GatheredFrom(g, source, d, done, u, v) + w * Hit(g, u, k, v);
    forall i | 0 <= i < |g.out| && i != u
      ensures GatheredFrom(g, source, d, done, i, v) == GatheredFrom(g, source, d, more, i, v)
    {
      TotalEqual(Degree(g, i), j => CountedHit(g, done, i, j, v), j => CountedHit(g, more, i, j, v));
    }
    TotalBump(|g.out|, u, i => GatheredFrom(g, source, d, done, i, v), i => GatheredFrom(g, source, d, more, i, v));
  }

  lemma GatherNothing(g: Graph, source: nat, d: nat, v: int)
    ensures Gathered(g, source, d, {}, v) == 0.0
  {
    hide Walks, Total;
    forall u | 0 <= u < |g.out|
      ensures GatheredFrom(g, source, d, {}, u, v) == 0.0
    {
      TotalZero(Degree(g, u), k => CountedHit(g, {}, u, k, v));
    }
    TotalZero(|g.out|, u => GatheredFrom(g, source, d, {}, u, v));
  }

  ghost predicate CountsLevel(g: Graph, source: nat, d: nat, done: set<(nat, nat)>) {
    forall u: nat, k: nat :: (u, k) in done <==> u in Level(g, source, d) && IsEdgePosition(g, u, k)
  }

  /** When every edge of the level is counted, the gathered number is the number of shortest paths. */
  lemma GatheredAll(g: Graph, source: nat, d: nat, done: set<(nat, nat)>, v: nat)
    requires g.Ok() && source < |g.out| && v in Level(g, source, d + 1) && CountsLevel(g, source, d, done)
    ensures Gathered(g, source, d, done, v) == Walks(g, source, v, d + 1)
  {
    hide Walks, Total, Level, Graph.Ok, Hit;
    var terms := u => GatheredFrom(g, source, d, done, u, v);
    forall u | 0 <= u < |g.out|
      ensures terms(u) == Arrivals(g, source, d, u, v)
    {
      if u in Level(g, source, d) {
        TotalEqual(Degree(g, u), k => CountedHit(g, done, u, k, v), k => Hit(g, u, k, v));
      } else {
        TotalZero(Degree(g, u), k => CountedHit(g, done, u, k, v));
      }
    }
    LevelArrivals(g, source, v, d, terms);
  }

  // ----- States between and within levels -----

  /** Everything within d has its depth, nothing else has one. */
  ghost predicate DepthsTo(g: Graph, source: nat, d: nat, depths: seq<int>) {
    && |depths| == |g.out|
    && (forall v: nat, e: nat :: v < |depths| && e <= d && v in Level(g, source, e) ==> depths[v] == e)
    && (forall v: nat :: v < |depths| && v !in Within(g, source, d) ==> depths[v] == -1)
  }

  /** Everything within d has its number of shortest paths, everything else zero. */
  ghost predicate CountsTo(g: Graph, source: nat, d: nat, counts: seq<real>) {
    && |counts| == |g.out|
    && (forall v: nat, e: nat :: v < |counts| && e <= d && v in Level(g, source, e) ==>
          counts[v] == Walks(g, source, v, e))
    && (forall v: nat :: v < |counts| && v !in Within(g, source, d) ==> counts[v] == 0.0)
  }

  /** An edge of the shortest-path graph that leaves one of the first d levels. */
  ghost predicate PathEdge(g: Graph, source: nat, d: nat, u: nat, k: nat)
    requires IsEdgePosition(g, u, k)
  {
    d > 0 && u in Within(g, source, d - 1) && TreeEdge(g, source, u, g.out[u][k])
  }

  /** The bitmap marks exactly the shortest-path edges that leave one of the first d levels. */
  ghost predicate MarksTo(g: Graph, source: nat, d: nat, succ: seq<bool>) {
    && |succ| == Offset(g, |g.out|)
    && forall u: nat, k: nat :: IsEdgePosition(g, u, k) ==> MarkedAs(g, succ, u, k, PathEdge(g, source, d, u, k))
  }

  ghost predicate MarkedAs(g: Graph, succ: seq<bool>, u: nat, k: nat, b: bool)
    requires IsEdgePosition(g, u, k)
  {
    Offset(g, u) + k < |succ| && succ[Offset(g, u) + k] == b
  }

  /** While level d is worked on: the claimed vertices have the next depth, the others what they had before. */
  ghost predicate DepthsMid(g: Graph, source: nat, d: nat, before: seq<int>, depths: seq<int>, claimed: seq<nat>) {
    && |depths| == |before| == |g.out| && Distinct(claimed)
    && (forall v: nat :: v in claimed ==> v < |g.out| && v in Level(g, source, d + 1))
    && (forall v: nat :: v < |depths| ==> depths[v] == if v in claimed then d + 1 else before[v])
  }

  ghost predicate CountsMid(g: Graph, source: nat, d: nat, before: seq<real>, counts: seq<real>,
                            done: set<(nat, nat)>) {
    && |counts| == |before| == |g.out|
    && (forall v: nat :: v < |counts| ==>
          counts[v] == if v in Level(g, source, d + 1) then Gathered(g, source, d, done, v) else before[v])
  }

  ghost predicate MarksMid(g: Graph, source: nat, d: nat, before: seq<bool>, succ: seq<bool>, done: set<(nat, nat)>) {
    && |succ| == |before| == Offset(g, |g.out|)
    && (forall u: nat, k: nat :: IsEdgePosition(g, u, k) ==>
          MarkedAs(g, succ, u, k, Marked(g, before, u, k) || CountedEdge(g, source, d, u, k, done)))
  }

  ghost predicate Marked(g: Graph, succ: seq<bool>, u: nat, k: nat) {
    Offset(g, u) + k < |succ| && succ[Offset(g, u) + k]
  }

  ghost predicate CountedEdge(g: Graph, source: nat, d: nat, u: nat, k: nat, done: set<(nat, nat)>)
    requires IsEdgePosition(g, u, k)
  {
    (u, k) in done && g.out[u][k] in Level(g, source, d + 1)
  }

  /** The targets that somebody has tried to claim have a depth. */
  ghost predicate Tried(g: Graph, depths: seq<int>, moves: seq<Move>) {
    forall q :: 0 <= q < |moves| ==> TriedOne(g, depths, moves[q])
  }

  ghost predicate TriedOne(g: Graph, depths: seq<int>, m: Move) {
    IsEdgePosition(g, m.u, m.k) && g.out[m.u][m.k] < |depths| && depths[g.out[m.u][m.k]] != -1
  }

  lemma ClaimMoves(g: Graph, source: nat, d: nat, before: seq<int>, depths: seq<int>, claimed: seq<nat>, u: nat, v: nat)
    requires DepthsTo(g, source, d, before) && DepthsMid(g, source, d, before, depths, claimed)
    requires u in Level(g, source, d) && g.Edge(u, v) && depths[v] == -1
    ensures DepthsMid(g, source, d, before, depths[v := d + 1], claimed + [v])
  {
    hide Within;
    LevelMembers(g, source, u, d);
    if v in Within(g, source, d) {
      DepthedWithin(g, source, d, before, v);
    }
    NewVertex(g, source, u, v, d);
    assert v !in claimed;
  }

  lemma {:induction false} DepthedWithin(g: Graph, source: nat, d: nat, depths: seq<int>, v: nat)
    requires DepthsTo(g, source, d, depths) && v < |depths| && v in Within(g, source, d)
    ensures 0 <= depths[v] <= d && v in Level(g, source, depths[v])
  {
    var e := DepthWithin(g, source, v, d);
  }

  lemma {:induction false} DepthWithin(g: Graph, source: nat, v: nat, d: nat) returns (e: nat)
    requires v in Within(g, source, d)
    ensures e <= d && v in Level(g, source, e)
  {
    if d == 0 || v !in Within(g, source, d - 1) {
      e := d;
    } else {
      e := DepthWithin(g, source, v, d - 1);
    }
  }

  /** After its claim has been tried, an edge's target has the new depth exactly if it is on the new level. */
  lemma OnNewLevel(g: Graph, source: nat, d: nat, before: seq<int>, depths: seq<int>, claimed: seq<nat>, v: nat)
    requires DepthsTo(g, source, d, before) && DepthsMid(g, source, d, before, depths, claimed)
    requires v < |depths| && depths[v] != -1
    ensures depths[v] == d + 1 <==> v in Level(g, source, d + 1)
    ensures v in Level(g, source, d + 1) <==> v in claimed
  {
    hide Within, Level;
    if v !in claimed {
      DepthedWithin(g, source, d, before, v);
      NotOnNext(g, source, v, d);
    }
  }

  lemma NotOnNext(g: Graph, source: nat, v: nat, d: nat)
    requires v in Within(g, source, d)
    ensures v !in Level(g, source, d + 1)
  {
  }

  lemma CountMoves(g: Graph, source: nat, d: nat, before: seq<real>, counts: seq<real>, done: set<(nat, nat)>, u: nat,
                   k: nat)
    requires CountsTo(g, source, d, before) && CountsMid(g, source, d, before, counts, done)
    requires IsEdgePosition(g, u, k) && u in Level(g, source, d) && (u, k) !in done && g.out[u][k] < |g.out|
    ensures var v := g.out[u][k];
            CountsMid(g, source, d, before,
              if v in Level(g, source, d + 1) then counts[v := counts[v] + counts[u]] else counts, done + {(u, k)})
  {
    hide Within, Level, Gathered, Walks;
    LevelMembers(g, source, u, d);
    NotOnNext(g, source, u, d);
    assert counts[u] == Walks(g, source, u, d);
    forall x: nat | x < |counts|
      ensures Gathered(g, source, d, done + {(u, k)}, x) ==
              Gathered(g, source, d, done, x) + if x == g.out[u][k] then counts[u] else 0.0
    {
      GatherStep(g, source, d, done, u, k, x);
    }
  }

  lemma MarkMoves(g: Graph, source: nat, d: nat, before: seq<bool>, succ: seq<bool>, done: set<(nat, nat)>, u: nat,
                  k: nat)
    requires MarksMid(g, source, d, before, succ, done) && IsEdgePosition(g, u, k)
    requires g.out[u][k] < |g.out|
    ensures Offset(g, u) + k < |succ|
    ensures MarksMid(g, source, d, before,
              if g.out[u][k] in Level(g, source, d + 1) then succ[Offset(g, u) + k := true] else succ, done + {(u, k)})
  {
    hide Level, Offset;
    PositionInRange(g, u, k);
    forall u': nat, k': nat | IsEdgePosition(g, u', k') && (u', k') != (u, k)
      ensures Offset(g, u') + k' != Offset(g, u) + k
    {
      PositionsDiffer(g, u, k, u', k');
    }
  }

  // ----- The end of a level -----

  ghost function DoneBy(moves: seq<Move>): set<(nat, nat)> {
    set q | 0 <= q < |moves| && moves[q].Count? :: (moves[q].u, moves[q].k)
  }

  lemma DoneStep(moves: seq<Move>, q: nat)
    requires q < |moves| && forall p :: 0 <= p < q && moves[p].Count? ==> moves[p] != moves[q]
    ensures moves[q].Count? ==> (moves[q].u, moves[q].k) !in DoneBy(moves[..q])
    ensures DoneBy(moves[..q + 1]) ==
            if moves[q].Count? then DoneBy(moves[..q]) + {(moves[q].u, moves[q].k)} else DoneBy(moves[..q])
  {
    var a, b := moves[..q], moves[..q + 1];
    assert b == a + [moves[q]];
    assert forall p :: 0 <= p < q ==> b[p] == a[p];
    forall x | x in DoneBy(b)
      ensures x in DoneBy(a) || (moves[q].Count? && x == (moves[q].u, moves[q].k))
    {
      var p :| 0 <= p < |b| && b[p].Count? && x == (b[p].u, b[p].k);
      assert p < q ==> a[p] == b[p];
    }
    forall x | x in DoneBy(a)
      ensures x in DoneBy(b)
    {
      var p :| 0 <= p < |a| && a[p].Count? && x == (a[p].u, a[p].k);
      assert b[p] == a[p];
    }
    assert b[q] == moves[q];
  }

  lemma DoneIsLevel(g: Graph, source: nat, d: nat, window: seq<nat>, moves: seq<Move>)
    requires Schedule(g, window, moves) && Lists(window, Level(g, source, d))
    ensures CountsLevel(g, source, d, DoneBy(moves))
  {
    hide Level;
    forall u: nat, k: nat | u in Level(g, source, d) && IsEdgePosition(g, u, k)
      ensures (u, k) in DoneBy(moves)
    {
      assert u in window && Count(u, k) in moves;
    }
  }

  lemma ClaimedLevel(g: Graph, source: nat, d: nat, window: seq<nat>, moves: seq<Move>,
                     before: seq<int>, depths: seq<int>, claimed: seq<nat>)
    requires g.Ok() && source < |g.out| && Schedule(g, window, moves) && Lists(window, Level(g, source, d))
    requires DepthsTo(g, source, d, before) && DepthsMid(g, source, d, before, depths, claimed)
          && Tried(g, depths, moves)
    ensures Lists(claimed, Level(g, source, d + 1))
  {
    hide Within, Level, Graph.Ok;
    forall v: nat | v in Level(g, source, d + 1)
      ensures v in claimed
    {
      LevelMembers(g, source, v, d + 1);
      NextLevel(g, source, v, d);
      var u :| u in Level(g, source, d) && g.Edge(u, v);
      var k :| 0 <= k < |g.out[u]| && g.out[u][k] == v;
      assert u in window && Count(u, k) in moves;
      var q :| 0 <= q < |moves| && moves[q] == Count(u, k);
      assert TriedOne(g, depths, moves[q]);
      OnNewLevel(g, source, d, before, depths, claimed, v);
    }
  }

  lemma DepthsDone(g: Graph, source: nat, d: nat, before: seq<int>, depths: seq<int>, claimed: seq<nat>)
    requires DepthsTo(g, source, d, before) && DepthsMid(g, source, d, before, depths, claimed)
    requires Lists(claimed, Level(g, source, d + 1))
    ensures DepthsTo(g, source, d + 1, depths)
  {
    hide Within, Level;
    forall v: nat, e: nat | v < |depths| && e <= d + 1 && v in Level(g, source, e)
      ensures depths[v] == e
    {
      LevelsApart(g, source, v, e, d + 1);
    }
    forall v: nat | v < |depths| && v !in Within(g, source, d + 1)
      ensures depths[v] == -1
    {
      OutsideNext(g, source, v, d);
    }
  }

  lemma CountsDone(g: Graph, source: nat, d: nat, before: seq<real>, counts: seq<real>, done: set<(nat, nat)>)
    requires g.Ok() && source < |g.out| && CountsTo(g, source, d, before)
          && CountsMid(g, source, d, before, counts, done)
    requires CountsLevel(g, source, d, done)
    ensures CountsTo(g, source, d + 1, counts)
  {
    hide Within, Level, Walks, Gathered, Graph.Ok;
    forall v: nat, e: nat | v < |counts| && e <= d + 1 && v in Level(g, source, e)
      ensures counts[v] == Walks(g, source, v, e)
    {
      LevelsApart(g, source, v, e, d + 1);
      if e == d + 1 {
        GatheredAll(g, source, d, done, v);
      }
    }
    forall v: nat | v < |counts| && v !in Within(g, source, d + 1)
      ensures counts[v] == 0.0
    {
      OutsideNext(g, source, v, d);
    }
  }

  lemma LevelsApart(g: Graph, source: nat, v: nat, e: nat, d: nat)
    requires v in Level(g, source, e)
    ensures v in Level(g, source, d) <==> d == e
  {
    hide Within;
    LevelMembers(g, source, v, e);
    if v in Level(g, source, d) {
      LevelMembers(g, source, v, d);
      DepthUnique(g, source, v, d, e);
    }
  }

  lemma OutsideNext(g: Graph, source: nat, v: nat, d: nat)
    requires v !in Within(g, source, d + 1)
    ensures v !in Within(g, source, d) && v !in Level(g, source, d + 1)
  {
    hide Within;
    WithinGrows(g, source, d, d + 1);
  }

  lemma MarksDone(g: Graph, source: nat, d: nat, before: seq<bool>, succ: seq<bool>, done: set<(nat, nat)>)
    requires MarksTo(g, source, d, before) && MarksMid(g, source, d, before, succ, done)
          && CountsLevel(g, source, d, done)
    requires g.Ok()
    ensures MarksTo(g, source, d + 1, succ)
  {
    hide Within, Level, Offset, TreeEdge, Graph.Ok;
    forall u: nat, k: nat | IsEdgePosition(g, u, k)
      ensures MarkedAs(g, succ, u, k, PathEdge(g, source, d + 1, u, k))
    {
      assert MarkedAs(g, before, u, k, PathEdge(g, source, d, u, k));
      TargetEdge(g, u, k);
      NewPathEdge(g, source, d, u, k, g.out[u][k]);
    }
  }

  /** The shortest-path edges out of the first d + 1 levels are those out of the first d and those from level d down. */
  lemma NewPathEdge(g: Graph, source: nat, d: nat, u: nat, k: nat, v: nat)
    requires IsEdgePosition(g, u, k) && g.out[u][k] == v && g.Edge(u, v)
    ensures PathEdge(g, source, d + 1, u, k) <==>
              PathEdge(g, source, d, u, k) || (u in Level(g, source, d) && v in Level(g, source, d + 1))
  {
    hide Within;
    if d > 0 {
      WithinGrows(g, source, d - 1, d);
    } else {
      StartLevel(g, source, u);
    }
    if u in Level(g, source, d) {
      LevelMembers(g, source, u, d);
      if v in Level(g, source, d + 1) {
        LevelMembers(g, source, v, d + 1);
        assert OneDeeper(g, source, u, v, d);
      } else if TreeEdge(g, source, u, v) {
        var e :| OneDeeper(g, source, u, v, e);
        DepthUnique(g, source, u, e, d);
      }
    }
  }

  // ----- The search -----

  lemma ScheduleAt(g: Graph, window: seq<nat>, moves: seq<Move>, q: nat, depths: seq<int>)
    requires Schedule(g, window, moves) && q < |moves| && Tried(g, depths, moves[..q])
    ensures moves[q].u in window && IsEdgePosition(g, moves[q].u, moves[q].k)
    ensures moves[q].Count? ==> TriedOne(g, depths, moves[q])
    ensures forall p :: 0 <= p < q && moves[p].Count? ==> moves[p] != moves[q]
  {
    if moves[q].Count? {
      var u, k := moves[q].u, moves[q].k;
      var p :| 0 <= p < |moves[..q]| && moves[..q][p] == Claim(u, k);
      assert TriedOne(g, depths, moves[..q][p]);
    }
  }

  method TryClaim(g: Graph, ghost source: nat, depth: nat, depths: array<int>, ghost before: seq<int>,
                  claimed0: seq<nat>,
                  ghost u: nat, v: nat)
    returns (claimed: seq<nat>)
    requires depth > 0 && DepthsTo(g, source, depth - 1, before) && depths.Length == |g.out|
    requires DepthsMid(g, source, depth - 1, before, depths[..], claimed0)
    requires u in Level(g, source, depth - 1) && g.Edge(u, v)
    modifies depths
    ensures DepthsMid(g, source, depth - 1, before, depths[..], claimed) && depths[v] != -1
    ensures forall w :: 0 <= w < depths.Length && old(depths[w]) != -1 ==> depths[w] != -1
  {
    hide Level, DepthsMid, DepthsTo;
    claimed := claimed0;
    if depths[v] == -1 {
      ClaimMoves(g, source, depth - 1, before, depths[..], claimed, u, v);
      depths[v] := depth;
      assert depths[..] == old(depths[..])[v := depth];
      claimed := claimed + [v];
    }
  }

  method CountEdge(g: Graph, ghost source: nat, index: seq<nat>, depth: nat, depths: array<int>, counts: array<real>,
                   succ: array<bool>, ghost before: seq<real>, ghost marks: seq<bool>, ghost done: set<(nat, nat)>,
                   u: nat, k: nat)
    requires depth > 0 && depths.Length == counts.Length == |g.out|
    requires |index| == |g.out| + 1 && forall u :: 0 <= u <= |g.out| ==> index[u] == Offset(g, u)
    requires IsEdgePosition(g, u, k) && u in Level(g, source, depth - 1) && (u, k) !in done && g.out[u][k] < |g.out|
    requires depths[g.out[u][k]] == depth <==> g.out[u][k] in Level(g, source, depth)
    requires CountsTo(g, source, depth - 1, before) && CountsMid(g, source, depth - 1, before, counts[..], done)
    requires MarksMid(g, source, depth - 1, marks, succ[..], done)
    modifies counts, succ
    ensures CountsMid(g, source, depth - 1, before, counts[..], done + {(u, k)})
    ensures MarksMid(g, source, depth - 1, marks, succ[..], done + {(u, k)})
  {
    hide Level, Offset, CountsMid, MarksMid, CountsTo;
    var v := g.out[u][k];
    CountMoves(g, source, depth - 1, before, counts[..], done, u, k);
    MarkMoves(g, source, depth - 1, marks, succ[..], done, u, k);
    if depths[v] == depth {
      succ[index[u] + k] := true;
      assert succ[..] == old(succ[..])[Offset(g, u) + k := true];
      counts[v] := counts[v] + counts[u];
      assert counts[..] == old(counts[..])[v := old(counts[v] + counts[u])];
    }
  }

  lemma TriedStays(g: Graph, before: seq<int>, after: seq<int>, moves: seq<Move>)
    requires Tried(g, before, moves) && |after| == |before|
    requires forall w :: 0 <= w < |before| && before[w] != -1 ==> after[w] != -1
    ensures Tried(g, after, moves)
  {
  }

  /** The parallel loop over the edges of the window. */
  method CountLevel(g: Graph, ghost source: nat, index: seq<nat>, ghost window: seq<nat>, moves: seq<Move>, depth: nat,
                    depths: array<int>, counts: array<real>, succ: array<bool>)
    returns (claimed: seq<nat>)
    requires g.Ok() && depth > 0 && depths.Length == counts.Length == |g.out|
    requires |index| == |g.out| + 1 && forall u :: 0 <= u <= |g.out| ==> index[u] == Offset(g, u)
    requires Schedule(g, window, moves) && Lists(window, Level(g, source, depth - 1))
    requires DepthsTo(g, source, depth - 1, depths[..]) && CountsTo(g, source, depth - 1, counts[..])
    requires MarksTo(g, source, depth - 1, succ[..])
    modifies depths, counts, succ
    ensures DepthsMid(g, source, depth - 1, old(depths[..]), depths[..], claimed) && Tried(g, depths[..], moves)
    ensures CountsMid(g, source, depth - 1, old(counts[..]), counts[..], DoneBy(moves))
    ensures MarksMid(g, source, depth - 1, old(succ[..]), succ[..], DoneBy(moves))
  {
    hide Graph.Ok, Level, Offset, CountsMid, MarksMid, DepthsMid, DepthsTo, CountsTo, MarksTo, Schedule, DoneBy;
    hide TriedOne;
    claimed := [];
    ghost var d := depth - 1;
    MidStart(g, source, d, depths[..], counts[..], succ[..]);
    assert moves[..0] == [];
    for q := 0 to |moves|
      invariant DepthsMid(g, source, d, old(depths[..]), depths[..], claimed) && Tried(g, depths[..], moves[..q])
      invariant CountsMid(g, source, d, old(counts[..]), counts[..], DoneBy(moves[..q]))
      invariant MarksMid(g, source, d, old(succ[..]), succ[..], DoneBy(moves[..q]))
    {
      ghost var now := depths[..];
      ScheduleAt(g, window, moves, q, now);
      var u, k := moves[q].u, moves[q].k;
      var v := g.out[u][k];
      TargetEdge(g, u, k);
      DoneStep(moves, q);
      match moves[q] {
        case Claim(_, _) =>
          claimed := TryClaim(g, source, depth, depths, old(depths[..]), claimed, u, v);
          TriedStays(g, now, depths[..], moves[..q]);
          TriedNow(g, depths[..], moves[q]);
        case Count(_, _) =>
          TriedNow(g, depths[..], moves[q]);
          OnNewLevel(g, source, d, old(depths[..]), depths[..], claimed, v);
          CountEdge(g, source, index, depth, depths, counts, succ, old(counts[..]), old(succ[..]),
                DoneBy(moves[..q]), u, k);
      }
      assert moves[..q + 1] == moves[..q] + [moves[q]];
    }
    assert moves[..|moves|] == moves;
  }

  lemma TriedNow(g: Graph, depths: seq<int>, m: Move)
    requires IsEdgePosition(g, m.u, m.k) && g.out[m.u][m.k] < |depths|
    ensures TriedOne(g, depths, m) <==> depths[g.out[m.u][m.k]] != -1
  {
  }

  lemma MidStart(g: Graph, source: nat, d: nat, depths: seq<int>, counts: seq<real>, succ: seq<bool>)
    requires DepthsTo(g, source, d, depths) && CountsTo(g, source, d, counts) && MarksTo(g, source, d, succ)
    ensures DepthsMid(g, source, d, depths, depths, []) && CountsMid(g, source, d, counts, counts, DoneBy([]))
    ensures MarksMid(g, source, d, succ, succ, DoneBy([]))
  {
    hide Within, Offset, TreeEdge, Gathered, Walks;
    assert DoneBy([]) == {};
    forall v: nat | v < |counts| && v in Level(g, source, d + 1)
      ensures counts[v] == Gathered(g, source, d, {}, v)
    {
      GatherNothing(g, source, d, v);
      LevelMembers(g, source, v, d + 1);
    }
    forall u: nat, k: nat | IsEdgePosition(g, u, k)
      ensures MarkedAs(g, succ, u, k, Marked(g, succ, u, k))
    {
      assert MarkedAs(g, succ, u, k, PathEdge(g, source, d, u, k));
    }
  }

  /** The choices of the parallel runtime. */
  datatype Threads = Threads(moves: (nat, seq<nat>) -> seq<Move>, arrange: (nat, seq<nat>) -> seq<nat>) {
    ghost predicate Run(g: Graph) {
      && (forall r, w :: Schedule(g, w, moves(r, w)))
      && (forall r, s :: Rearranges(s, arrange(r, s)))
    }
  }

  /** The depth index: a zero, then where each of the first d levels starts in the queue, then where they end. */
  ghost predicate Segments(g: Graph, source: nat, items: seq<nat>, index: seq<nat>, d: nat) {
    && |index| == d + 2 && index[0] == index[1] == 0
    && forall j: nat :: j < d ==> SegmentAt(g, source, items, index, j)
  }

  ghost predicate SegmentAt(g: Graph, source: nat, items: seq<nat>, index: seq<nat>, j: nat) {
    j + 2 < |index| && Segment(g, source, items, index[j + 1], index[j + 2], j)
  }

  ghost predicate Segment(g: Graph, source: nat, items: seq<nat>, low: nat, high: nat, d: nat) {
    low <= high <= |items| && Lists(items[low..high], Level(g, source, d))
  }

  lemma SegmentsGrow(g: Graph, source: nat, items: seq<nat>, more: seq<nat>, index: seq<nat>, start: nat, end: nat,
                     d: nat)
    requires Segments(g, source, items, index + [start], d) && Segment(g, source, items, start, end, d)
    ensures Segments(g, source, items + more, index + [start] + [end], d + 1)
  {
    hide Level;
    var old', new' := index + [start], index + [start] + [end];
    forall j: nat | j < d + 1
      ensures SegmentAt(g, source, items + more, new', j)
    {
      var low, high := new'[j + 1], new'[j + 2];
      assert j < d ==> SegmentAt(g, source, items, old', j);
      assert (items + more)[low..high] == items[low..high];
    }
  }

  /** What the search hands over: depths of all vertices, path counts and the shortest-path edges. */
  ghost predicate Searched(g: Graph, source: nat, lev: seq<int>, counts: seq<real>, succ: seq<bool>) {
    && Depths(g, source, lev) && |counts| == |g.out| && |succ| == Offset(g, |g.out|)
    && (forall v: nat :: v < |counts| ==> counts[v] == Sigma(g, source, lev, v))
    && (forall u: nat, k: nat :: IsEdgePosition(g, u, k) ==> MarkedAs(g, succ, u, k, Successor(g, lev, u, k)))
  }

  ghost predicate Successor(g: Graph, lev: seq<int>, u: nat, k: nat)
    requires IsEdgePosition(g, u, k)
  {
    u < |lev| && g.out[u][k] < |lev| && lev[u] >= 0 && lev[g.out[u][k]] == lev[u] + 1
  }

  lemma SearchDone(g: Graph, source: nat, d: nat, depths: seq<int>, counts: seq<real>, succ: seq<bool>)
    requires g.Ok() && source < |g.out| && Level(g, source, d) == {}
    requires DepthsTo(g, source, d, depths) && CountsTo(g, source, d, counts) && MarksTo(g, source, d, succ)
    ensures Searched(g, source, depths, counts, succ)
  {
    hide Within, Offset, TreeEdge, Walks, Graph.Ok;
    EmptyLevel(g, source, d);
    hide Reachable, Level;
    forall v: nat | v < |depths| && depths[v] >= 0
      ensures v in Level(g, source, depths[v]) && depths[v] < d
    {
      DepthedWithin(g, source, d, depths, v);
    }
    forall v: nat | v < |depths| && depths[v] < 0
      ensures depths[v] == -1 && v !in Within(g, source, d)
    {
      if v in Within(g, source, d) {
        DepthedWithin(g, source, d, depths, v);
      }
    }
    assert Depths(g, source, depths);
    forall u: nat, k: nat | IsEdgePosition(g, u, k)
      ensures MarkedAs(g, succ, u, k, Successor(g, depths, u, k))
    {
      assert MarkedAs(g, succ, u, k, PathEdge(g, source, d, u, k));
      TargetEdge(g, u, k);
      PathEdgeIsSuccessor(g, source, d, depths, u, k, g.out[u][k]);
    }
  }

  lemma PathEdgeIsSuccessor(g: Graph, source: nat, d: nat, lev: seq<int>, u: nat, k: nat, v: nat)
    requires Depths(g, source, lev) && Level(g, source, d) == {}
    requires IsEdgePosition(g, u, k) && g.out[u][k] == v && g.Edge(u, v)
    ensures PathEdge(g, source, d, u, k) <==> Successor(g, lev, u, k)
  {
    hide Within, Graph.Ok;
    LevelAddsNothing(g, source, d);
    EmptyLevel(g, source, d);
    if PathEdge(g, source, d, u, k) {
      var e: nat :| OneDeeper(g, source, u, v, e);
      LevelIsDepth(g, source, e);
      LevelIsDepth(g, source, e + 1);
      SameLevel(g, source, lev, u, e);
      SameLevel(g, source, lev, v, e + 1);
    }
    if Successor(g, lev, u, k) {
      LevelMembers(g, source, u, lev[u]);
      LevelMembers(g, source, v, lev[v]);
      ReachedAtLevel(g, source, u, lev[u]);
      assert OneDeeper(g, source, u, v, lev[u]);
    }
  }

  /** One round of the search: count the level, put the claimed vertices on the queue, note where the window began and
      slide it. */
  method SearchLevel(g: Graph, ghost source: nat, index: seq<nat>, depths: array<int>, counts: array<real>,
                     succ: array<bool>,
                     queue: SlidingQueue, depthIndex0: seq<nat>, depth: nat, round: nat, threads: Threads)
    returns (depthIndex: seq<nat>)
    requires g.Ok() && source < |g.out| && depth > 0 && depths.Length == counts.Length == |g.out| && threads.Run(g)
    requires |index| == |g.out| + 1 && forall u :: 0 <= u <= |g.out| ==> index[u] == Offset(g, u)
    requires QueueAt(g, source, queue, depth - 1)
    requires DepthsTo(g, source, depth - 1, depths[..]) && CountsTo(g, source, depth - 1, counts[..])
    requires MarksTo(g, source, depth - 1, succ[..])
    requires Segments(g, source, queue.shared[..queue.input], depthIndex0 + [queue.start], depth - 1)
    modifies depths, counts, succ, queue, queue.shared
    ensures QueueAt(g, source, queue, depth)
    ensures DepthsTo(g, source, depth, depths[..]) && CountsTo(g, source, depth, counts[..])
          && MarksTo(g, source, depth, succ[..])
    ensures Segments(g, source, queue.shared[..queue.input], depthIndex + [queue.start], depth)
  {
    hide Graph.Ok, Level, Within, CountsMid, MarksMid, DepthsMid, DepthsTo, CountsTo, MarksTo, Schedule, Segments;
    hide Appended,
      Lists, Distinct, Tried, Offset;
    ghost var d := depth - 1;
    ghost var items := queue.shared[..queue.input];
    var window := queue.shared[queue.start..queue.end];
    assert window == items[queue.start..queue.end];
    var moves := threads.moves(round, window);
    var claimed := CountLevel(g, source, index, window, moves, depth, depths, counts, succ);
    LevelDone(g, source, d, window, moves, old(depths[..]), depths[..], old(counts[..]), counts[..],
              old(succ[..]), succ[..], claimed);
    var more := threads.arrange(round, claimed);
    ClaimedDistinct(g, source, d, old(depths[..]), depths[..], claimed);
    Rearranged(g, source, d + 1, claimed, more);
    AppendLevel(g, source, items, d, d + 1, more);
    queue.Flush(more);
    depthIndex := depthIndex0 + [queue.start];
    SegmentsGrow(g, source, items, more, depthIndex0, queue.start, queue.end, d);
    queue.SlideWindow();
    assert queue.shared[queue.start..queue.end] == queue.shared[..queue.input][queue.start..] == more;
  }

  lemma ClaimedDistinct(g: Graph, source: nat, d: nat, before: seq<int>, depths: seq<int>, claimed: seq<nat>)
    requires DepthsMid(g, source, d, before, depths, claimed)
    ensures Distinct(claimed)
  {
  }

  lemma Rearranged(g: Graph, source: nat, d: nat, claimed: seq<nat>, more: seq<nat>)
    requires Distinct(claimed) && Lists(claimed, Level(g, source, d)) && Rearranges(claimed, more)
    ensures Distinct(more) && Lists(more, Level(g, source, d))
  {
    hide Level, Distinct;
    SameMembers(claimed, more);
  }

  lemma LevelDone(g: Graph, source: nat, d: nat, window: seq<nat>, moves: seq<Move>, depths0: seq<int>,
                  depths: seq<int>,
                  counts0: seq<real>, counts: seq<real>, succ0: seq<bool>, succ: seq<bool>, claimed: seq<nat>)
    requires g.Ok() && source < |g.out| && Schedule(g, window, moves) && Lists(window, Level(g, source, d))
    requires DepthsTo(g, source, d, depths0) && CountsTo(g, source, d, counts0) && MarksTo(g, source, d, succ0)
    requires DepthsMid(g, source, d, depths0, depths, claimed) && Tried(g, depths, moves)
    requires CountsMid(g, source, d, counts0, counts, DoneBy(moves))
          && MarksMid(g, source, d, succ0, succ, DoneBy(moves))
    ensures DepthsTo(g, source, d + 1, depths) && CountsTo(g, source, d + 1, counts) && MarksTo(g, source, d + 1, succ)
    ensures Lists(claimed, Level(g, source, d + 1))
  {
    hide *;
    DoneIsLevel(g, source, d, window, moves);
    ClaimedLevel(g, source, d, window, moves, depths0, depths, claimed);
    DepthsDone(g, source, d, depths0, depths, claimed);
    CountsDone(g, source, d, counts0, counts, DoneBy(moves));
    MarksDone(g, source, d, succ0, succ, DoneBy(moves));
  }

  /** The parallel search.  `depthIndex` comes out as a zero followed by the start of every level and the end of the
      last, so its first segment is empty and segment j + 1 is level j. */
  method PBFS(g: Graph, source: nat, index: seq<nat>, counts: array<real>, succ: array<bool>, queue: SlidingQueue,
              threads: Threads)
    returns (depthIndex: seq<nat>, ghost lev: seq<int>, ghost levels: nat)
    requires g.Ok() && source < |g.out| && threads.Run(g)
    requires |index| == |g.out| + 1 && forall u :: 0 <= u <= |g.out| ==> index[u] == Offset(g, u)
    requires counts.Length == |g.out| && forall v :: 0 <= v < |g.out| ==> counts[v] == 0.0
    requires succ.Length == Offset(g, |g.out|) && forall i :: 0 <= i < succ.Length ==> !succ[i]
    requires queue.Valid() && queue.shared.Length == |g.out| && queue.input == queue.start == queue.end == 0
    modifies counts, succ, queue, queue.shared
    ensures Searched(g, source, lev, counts[..], succ[..])
    ensures queue.Valid() && Distinct(queue.shared[..queue.input])
    ensures Segments(g, source, queue.shared[..queue.input], depthIndex, levels) && Level(g, source, levels) == {}
  {
    hide Graph.Ok, Level, Within, DepthsTo, CountsTo, MarksTo, Segments, Offset, Unreached, Searched;
    var depths := new int[|g.out|](_ => -1);
    depths[source] := 0;
    counts[source] := 1.0;
    queue.PushBack(source);
    depthIndex := [queue.start];
    queue.SlideWindow();
    SearchStarted(g, source, depths[..], counts[..], succ[..], queue.shared[..queue.input]);
    assert queue.shared[queue.start..queue.end] == queue.shared[..queue.input];
    var depth := 0;
    while queue.start < queue.end
      invariant QueueAt(g, source, queue, depth)
      invariant DepthsTo(g, source, depth, depths[..]) && CountsTo(g, source, depth, counts[..])
      invariant MarksTo(g, source, depth, succ[..])
      invariant Segments(g, source, queue.shared[..queue.input], depthIndex + [queue.start], depth)
      decreases Unreached(g, source, depth), queue.end - queue.start
    {
      depth := depth + 1;
      depthIndex := SearchLevel(g, source, index, depths, counts, succ, queue, depthIndex, depth, depth, threads);
      TopDownProgress(g, source, queue.shared[queue.start..queue.end], depth - 1);
    }
    depthIndex := depthIndex + [queue.start];
    lev, levels := depths[..], depth;
    EmptyWindow(queue.shared[queue.start..queue.end], Level(g, source, depth));
    SearchDone(g, source, depth, depths[..], counts[..], succ[..]);
  }

  lemma SearchStarted(g: Graph, source: nat, depths: seq<int>, counts: seq<real>, succ: seq<bool>, items: seq<nat>)
    requires source < |g.out| == |depths| == |counts| && |succ| == Offset(g, |g.out|) && items == [source]
    requires forall v: nat :: v < |depths| ==> depths[v] == if v == source then 0 else -1
    requires forall v: nat :: v < |counts| ==> counts[v] == if v == source then 1.0 else 0.0
    requires forall i :: 0 <= i < |succ| ==> !succ[i]
    ensures DepthsTo(g, source, 0, depths) && CountsTo(g, source, 0, counts) && MarksTo(g, source, 0, succ)
    ensures Segments(g, source, items, [0] + [0], 0)
    ensures Appended(g, source, items, 0) && Lists(items, Level(g, source, 0))
  {
    hide Offset;
    forall u: nat, k: nat | IsEdgePosition(g, u, k)
      ensures Offset(g, u) + k < |succ|
    {
      PositionInRange(g, u, k);
    }
  }

  // ----- Back-propagation -----

  /** The vertices at depth m or deeper have their dependency. */
  ghost predicate DeltasFrom(g: Graph, source: nat, lev: seq<int>, deltas: seq<real>, m: int) {
    |deltas| == |lev| && forall v: nat :: v < |lev| && lev[v] >= 0 && lev[v] >= m ==>
          deltas[v] == Dependency(g, source, lev, v)
  }

  /** The scores have grown by the dependencies of the vertices at depth m or deeper. */
  ghost predicate ScoresFrom(g: Graph, source: nat, lev: seq<int>, before: seq<real>, scores: seq<real>, m: int) {
    && |scores| == |before| == |lev|
    && forall v: nat :: v < |lev| ==>
         scores[v] == before[v] + if lev[v] >= 0 && lev[v] >= m then Dependency(g, source, lev, v) else 0.0
  }

  lemma SuccessorContribution(g: Graph, source: nat, lev: seq<int>, counts: seq<real>, succ: seq<bool>,
                              deltas: seq<real>,
                              u: nat, k: nat)
    requires Searched(g, source, lev, counts, succ) && IsEdgePosition(g, u, k) && u < |lev| && lev[u] >= 0
    requires DeltasFrom(g, source, lev, deltas, lev[u] + 1)
    ensures Offset(g, u) + k < |succ| && g.out[u][k] < |lev| == |counts| == |deltas|
    ensures if succ[Offset(g, u) + k] then
              counts[g.out[u][k]] != 0.0 &&
              Contribution(g, source, lev, u, g.out[u][k]) ==
              counts[u] / counts[g.out[u][k]] * (1.0 + deltas[g.out[u][k]])
            else Contribution(g, source, lev, u, g.out[u][k]) == 0.0
  {
    hide Dependency, Offset, Walks, Level, Reachable;
    var v := g.out[u][k];
    assert MarkedAs(g, succ, u, k, Successor(g, lev, u, k));
    TargetEdge(g, u, k);
    if Successor(g, lev, u, k) {
      LevelPositive(g, source, v, lev[v]);
    }
  }

  /** The accumulation over one vertex's edges. */
  method VertexDelta(g: Graph, ghost source: nat, ghost lev: seq<int>, index: seq<nat>, u: nat, counts: array<real>,
                     succ: array<bool>, deltas: array<real>)
    returns (delta: real)
    requires Searched(g, source, lev, counts[..], succ[..]) && u < |lev| == |g.out| && lev[u] >= 0
    requires |index| == |g.out| + 1 && forall u :: 0 <= u <= |g.out| ==> index[u] == Offset(g, u)
    requires DeltasFrom(g, source, lev, deltas[..], lev[u] + 1)
    ensures delta == Dependency(g, source, lev, u)
  {
    hide Dependency, Contribution, Total, Searched, DeltasFrom, Offset, Depths;
    ghost var edge := k => Contribution(g, source, lev, u, Target(g, u, k));
    delta := 0.0;
    TotalSteps(edge, 0);
    for k := 0 to |g.out[u]|
      invariant delta == Total(k, edge)
    {
      SuccessorContribution(g, source, lev, counts[..], succ[..], deltas[..], u, k);
      TotalSteps(edge, k);
      var v := g.out[u][k];
      if succ[index[u] + k] {
        delta := delta + counts[u] / counts[v] * (1.0 + deltas[v]);
      }
    }
    HasDepths(g, source, lev, counts[..], succ[..]);
    DependencyRecursion(g, source, lev, u, edge);
  }

  lemma HasDepths(g: Graph, source: nat, lev: seq<int>, counts: seq<real>, succ: seq<bool>)
    requires Searched(g, source, lev, counts, succ)
    ensures Depths(g, source, lev) && |lev| == |g.out| == |counts| && source < |lev|
  {
  }

  /** The parallel loop over one level; its vertices do not read each other's deltas, so any order will do. */
  method PropagateLevel(g: Graph, ghost source: nat, ghost lev: seq<int>, index: seq<nat>, order: seq<nat>,
                        ghost d: nat,
                        counts: array<real>, succ: array<bool>, deltas: array<real>, scores: array<real>)
    requires Searched(g, source, lev, counts[..], succ[..])
    requires |index| == |g.out| + 1 && forall u :: 0 <= u <= |g.out| ==> index[u] == Offset(g, u)
    requires Distinct(order) && Lists(order, Level(g, source, d)) && deltas != scores && deltas != counts
          && scores != counts
    requires DeltasFrom(g, source, lev, deltas[..], d + 1) && scores.Length == |lev|
    modifies deltas, scores
    ensures DeltasFrom(g, source, lev, deltas[..], d)
    ensures forall v :: 0 <= v < |lev| ==>
              scores[v] == old(scores[v]) + if lev[v] == d then Dependency(g, source, lev, v) else 0.0
  {
    hide Dependency, Searched, Offset, Level, Depths;
    HasDepths(g, source, lev, counts[..], succ[..]);
    OrderIsLevel(g, source, lev, order, d);
    for i := 0 to |order|
      invariant DeltasFrom(g, source, lev, deltas[..], d + 1)
      invariant forall v :: 0 <= v < |lev| && v in order[..i] ==> deltas[v] == Dependency(g, source, lev, v)
      invariant forall v :: 0 <= v < |lev| ==>
                  scores[v] == old(scores[v]) + if v in order[..i] then Dependency(g, source, lev, v) else 0.0
    {
      var u := order[i];
      assert u in order && order[..i + 1] == order[..i] + [u];
      var delta := VertexDelta(g, source, lev, index, u, counts, succ, deltas);
      deltas[u] := delta;
      scores[u] := scores[u] + delta;
    }
    assert order[..|order|] == order;
  }

  lemma OrderIsLevel(g: Graph, source: nat, lev: seq<int>, order: seq<nat>, d: nat)
    requires Depths(g, source, lev) && Lists(order, Level(g, source, d))
    ensures forall v: nat :: v in order <==> v < |lev| && lev[v] == d
  {
    hide Level, Within, Graph.Ok;
    forall v: nat | v in order
      ensures v < |lev| && lev[v] == d
    {
      LevelMembers(g, source, v, d);
      WithinInRange(g, source, d);
      SameLevel(g, source, lev, v, d);
    }
    forall v: nat | v < |lev| && lev[v] == d
      ensures v in order
    {
      SameLevel(g, source, lev, v, d);
    }
  }

  lemma NoDeeper(g: Graph, source: nat, lev: seq<int>, d: nat)
    requires Depths(g, source, lev) && Level(g, source, d) == {}
    ensures forall v: nat :: v < |lev| ==> lev[v] < d
  {
    hide Within, Graph.Ok;
    forall v: nat | v < |lev| && lev[v] >= d
      ensures false
    {
      LevelMembers(g, source, v, lev[v]);
      LevelAddsNothing(g, source, d);
      if lev[v] > d {
        ReachedBy(g, source, d, lev[v]);
        WithinGrows(g, source, d, lev[v] - 1);
      }
    }
  }

  lemma UnreachedDependency(g: Graph, source: nat, lev: seq<int>, v: nat)
    requires v < |lev| && lev[v] < 0
    ensures Dependency(g, source, lev, v) == 0.0
  {
    TotalZero(|lev|, t => Share(g, source, lev, v, t));
  }

  /** The backward sweep over the depth index: every vertex's score grows by its dependency. */
  method Propagate(g: Graph, ghost source: nat, ghost lev: seq<int>, ghost levels: nat, index: seq<nat>,
                   depthIndex: seq<nat>,
                   counts: array<real>, succ: array<bool>, queue: SlidingQueue, scores: array<real>, threads: Threads)
    requires Searched(g, source, lev, counts[..], succ[..]) && threads.Run(g)
    requires |index| == |g.out| + 1 && forall u :: 0 <= u <= |g.out| ==> index[u] == Offset(g, u)
    requires queue.Valid() && Distinct(queue.shared[..queue.input])
    requires Segments(g, source, queue.shared[..queue.input], depthIndex, levels) && Level(g, source, levels) == {}
    requires scores.Length == |lev| && scores != counts
    modifies scores
    ensures forall v :: 0 <= v < |lev| ==> scores[v] == old(scores[v]) + Dependency(g, source, lev, v)
  {
    hide Dependency, Searched, Offset, Level, Depths, Distinct, Lists, Segment;
    HasDepths(g, source, lev, counts[..], succ[..]);
    NoDeeper(g, source, lev, levels);
    var deltas := new real[|g.out|](_ => 0.0);
    for d := |depthIndex| - 1 downto 0
      invariant Searched(g, source, lev, counts[..], succ[..])
      invariant DeltasFrom(g, source, lev, deltas[..], d - 1)
      invariant ScoresFrom(g, source, lev, old(scores[..]), scores[..], d - 1)
    {
      ghost var items := queue.shared[..queue.input];
      if d > 0 {
        assert SegmentAt(g, source, items, depthIndex, d - 1);
        SegmentOrder(g, source, items, depthIndex[d], depthIndex[d + 1], d - 1, threads, d);
      }
      var part := queue.shared[depthIndex[d]..depthIndex[d + 1]];
      PartOf(items, part, depthIndex[d], depthIndex[d + 1]);
      var order := threads.arrange(d, part);
      // The segment before the first level is empty.
      if d > 0 {
        PropagateLevel(g, source, lev, index, order, d - 1, counts, succ, deltas, scores);
      }
    }
    forall v: nat | v < |lev| && lev[v] < 0
      ensures Dependency(g, source, lev, v) == 0.0
    {
      UnreachedDependency(g, source, lev, v);
    }
  }

  lemma PartOf(items: seq<nat>, part: seq<nat>, low: nat, high: nat)
    requires low <= high <= |items| && |part| == high - low && forall k :: 0 <= k < |part| ==> part[k] == items[low + k]
    ensures part == items[low..high]
  {
  }

  lemma SegmentOrder(g: Graph, source: nat, items: seq<nat>, low: nat, high: nat, d: nat, threads: Threads, round: nat)
    requires Distinct(items) && Segment(g, source, items, low, high, d) && threads.Run(g)
    ensures low <= high <= |items|
    ensures var order := threads.arrange(round, items[low..high]); Distinct(order) && Lists(order, Level(g, source, d))
  {
    hide Level, Schedule;
    var part := items[low..high];
    assert Distinct(part);
    Rearranged(g, source, d, part, threads.arrange(round, part));
  }

  // ----- All sources -----

  /** The dependency that the i-th source adds to v. */
  ghost function Added(g: Graph, sources: seq<nat>, levs: seq<seq<int>>, i: int, v: int): real {
    if 0 <= i < |sources| && i < |levs| then Dependency(g, sources[i], levs[i], v) else 0.0
  }

  ghost function Score(g: Graph, sources: seq<nat>, levs: seq<seq<int>>, v: int): real {
    Total(|levs|, i => Added(g, sources, levs, i, v))
  }

  ghost predicate Scored(g: Graph, sources: seq<nat>, levs: seq<seq<int>>, scores: seq<real>) {
    |scores| == |g.out| && forall v :: 0 <= v < |scores| ==> scores[v] == Score(g, sources, levs, v)
  }

  lemma ScoreStep(g: Graph, sources: seq<nat>, levs: seq<seq<int>>, lev: seq<int>, v: int)
    requires |levs| < |sources|
    ensures Score(g, sources, levs + [lev], v) == Score(g, sources, levs, v) + Dependency(g, sources[|levs|], lev, v)
  {
    hide Dependency;
    TotalEqual(|levs|, i => Added(g, sources, levs + [lev], i, v), i => Added(g, sources, levs, i, v));
    TotalSteps(i => Added(g, sources, levs + [lev], i, v), |levs|);
  }

  /** The depths from the first n sources. */
  ghost predicate AllDepths(g: Graph, sources: seq<nat>, levs: seq<seq<int>>, n: nat) {
    n == |levs| <= |sources| && forall i :: 0 <= i < n ==> sources[i] < |g.out| && Depths(g, sources[i], levs[i])
  }

  /** The kernel before its scores are scaled, for the sources the picker delivers, each with its own schedule. */
  method Centrality(g: Graph, sources: seq<nat>, threads: seq<Threads>) returns (scores: array<real>)
    requires g.Ok() && |g.out| > 0 && |threads| == |sources|
    requires forall i :: 0 <= i < |sources| ==> sources[i] < |g.out| && threads[i].Run(g)
    ensures fresh(scores)
    ensures exists levs :: AllDepths(g, sources, levs, |sources|) && Scored(g, sources, levs, scores[..])
  {
    hide Dependency, Graph.Ok, Depths, Searched, Segments, Score, Distinct, Offset, Level;
    scores := new real[|g.out|](_ => 0.0);
    var counts := new real[|g.out|](_ => 0.0);
    var index := Offsets(g);
    var succ := new bool[index[|g.out|]](_ => false);
    var queue := new SlidingQueue(|g.out|);
    ghost var levs: seq<seq<int>> := [];
    NoScores(g, sources);
    for i := 0 to |sources|
      invariant AllDepths(g, sources, levs, i)
      invariant Scored(g, sources, levs, scores[..])
      invariant fresh(counts) && fresh(succ) && fresh(queue) && fresh(queue.shared) && fresh(scores)
      invariant scores != counts && queue.shared.Length == |g.out|
    {
      Clear(counts, succ);
      queue.Reset();
      ghost var before := scores[..];
      ghost var lev, levels;
      var depthIndex;
      depthIndex, lev, levels := PBFS(g, sources[i], index, counts, succ, queue, threads[i]);
      assert scores[..] == before;
      HasDepths(g, sources[i], lev, counts[..], succ[..]);
      Propagate(g, sources[i], lev, levels, index, depthIndex, counts, succ, queue, scores, threads[i]);
      forall v | 0 <= v < |g.out|
        ensures scores[v] == Score(g, sources, levs + [lev], v)
      {
        ScoreStep(g, sources, levs, lev, v);
      }
      levs := levs + [lev];
    }
  }

  lemma NoScores(g: Graph, sources: seq<nat>)
    ensures forall v :: 0 <= v < |g.out| ==> Score(g, sources, [], v) == 0.0
  {
  }

  method Clear(counts: array<real>, succ: array<bool>)
    modifies counts, succ
    ensures (forall v :: 0 <= v < counts.Length ==> counts[v] == 0.0) && forall i :: 0 <= i < succ.Length ==> !succ[i]
  {
    for v := 0 to counts.Length
      invariant forall w :: 0 <= w < v ==> counts[w] == 0.0
    {
      counts[v] := 0.0;
    }
    for i := 0 to succ.Length
      invariant (forall v :: 0 <= v < counts.Length ==> counts[v] == 0.0) && forall j :: 0 <= j < i ==> !succ[j]
    {
      succ[i] := false;
    }
  }
}
