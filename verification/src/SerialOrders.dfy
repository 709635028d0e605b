/** The parallel runtime's choices exist: working through the edges one after the other is one of them. */
module SerialOrders {
  import opened Graphs
  import opened ShortestPaths
  import opened DirectionBfs
  import Brandes

  // ----- The top-down search -----

  ghost function SerialTasks(g: Graph, window: seq<nat>, n: nat): seq<Task>
    requires n <= |window|
  {
    if n == 0 then [] else SerialTasks(g, window, n - 1) + RowTasks(n - 1, Degree(g, window[n - 1]))
  }

  ghost function RowTasks(i: nat, m: nat): (r: seq<Task>)
    ensures |r| == m && forall k :: 0 <= k < m ==> r[k] == Task(i, k)
  {
    seq(m, k requires 0 <= k < m => Task(i, k))
  }

  lemma {:induction false} SerialTasksAre(g: Graph, window: seq<nat>, n: nat, t: Task)
    requires n <= |window|
    ensures t in SerialTasks(g, window, n) <==> t.i < n && t.k < Degree(g, window[t.i])
  {
    if n > 0 {
      SerialTasksAre(g, window, n - 1, t);
      var row := RowTasks(n - 1, Degree(g, window[n - 1]));
      assert t in row <==> t.i == n - 1 && t.k < Degree(g, window[n - 1]) by {
        if t.i == n - 1 && t.k < Degree(g, window[n - 1]) {
          assert row[t.k] == t;
        }
      }
    }
  }

  lemma SerialSearch(g: Graph)
    ensures Scheduler((r, w) => SerialTasks(g, w, |w|), (r, s) => s).Runs(g)
  {
    hide SerialTasks;
    forall w: seq<nat>
      ensures ValidTasks(g, w, SerialTasks(g, w, |w|)) && AllTasks(g, w, SerialTasks(g, w, |w|))
    {
      var tasks := SerialTasks(g, w, |w|);
      forall q | 0 <= q < |tasks|
        ensures tasks[q].i < |w| && tasks[q].k < Degree(g, w[tasks[q].i])
      {
        SerialTasksAre(g, w, |w|, tasks[q]);
      }
      forall i, k | 0 <= i < |w| && w[i] < |g.out| && 0 <= k < |g.out[w[i]]|
        ensures Task(i, k) in tasks
      {
        SerialTasksAre(g, w, |w|, Task(i, k));
      }
    }
  }

  // ----- The search that counts paths -----

  /** The edges of the window's vertices, each once. */
  ghost function WindowEdges(g: Graph, window: seq<nat>): seq<(nat, nat)> {
    if window == [] then []
    else
      var m := |window| - 1;
      WindowEdges(g, window[..m]) + if window[m] in window[..m] then []
            else seq(Degree(g, window[m]), k => (window[m], k))
  }

  lemma {:induction false} WindowEdgesAre(g: Graph, window: seq<nat>)
    ensures forall e :: e in WindowEdges(g, window) <==> e.0 in window && e.1 < Degree(g, e.0)
    ensures forall p, q :: 0 <= p < q < |WindowEdges(g, window)| ==>
          WindowEdges(g, window)[p] != WindowEdges(g, window)[q]
  {
    if window != [] {
      var m := |window| - 1;
      WindowEdgesAre(g, window[..m]);
      var u, row := window[m], seq(Degree(g, window[m]), k => (window[m], k));
      assert window == window[..m] + [u];
      forall e: (nat, nat)
        ensures e in row <==> e.0 == u && e.1 < Degree(g, u)
      {
        if e.0 == u && e.1 < Degree(g, u) {
          assert row[e.1] == e;
        }
      }
    }
  }

  /** Each edge is claimed and then counted before the next one. */
  ghost function SerialMoves(g: Graph, window: seq<nat>): (moves: seq<Brandes.Move>)
    ensures EdgeByEdge(WindowEdges(g, window), moves)
  {
    var es := WindowEdges(g, window);
    seq(2 * |es|, q requires 0 <= q < 2 * |es| => MoveOf(es, q))
  }

  ghost function MoveOf(es: seq<(nat, nat)>, q: nat): Brandes.Move
    requires q < 2 * |es|
  {
    var e := es[q / 2];
    if q % 2 == 0 then Brandes.Claim(e.0, e.1) else Brandes.Count(e.0, e.1)
  }

  ghost predicate EdgeByEdge(es: seq<(nat, nat)>, moves: seq<Brandes.Move>) {
    |moves| == 2 * |es| && forall q :: 0 <= q < |moves| ==> moves[q] == MoveOf(es, q)
  }

  lemma SerialSchedule(g: Graph, window: seq<nat>)
    ensures Brandes.Schedule(g, window, SerialMoves(g, window))
  {
    hide WindowEdges;
    WindowEdgesAre(g, window);
    hide SerialMoves, EdgeByEdge;
    var es, moves := WindowEdges(g, window), SerialMoves(g, window);
    CountsFollow(es, moves);
    CountsDiffer(es, moves);
    MovesInWindow(g, window, es, moves);
    AllCounted(g, window, es, moves);
  }

  ghost predicate EdgesOf(g: Graph, window: seq<nat>, es: seq<(nat, nat)>) {
    forall e :: e in es <==> e.0 in window && e.1 < Degree(g, e.0)
  }

  lemma MovesInWindow(g: Graph, window: seq<nat>, es: seq<(nat, nat)>, moves: seq<Brandes.Move>)
    requires EdgeByEdge(es, moves) && EdgesOf(g, window, es)
    ensures forall q :: 0 <= q < |moves| ==> moves[q].u in window && Brandes.IsEdgePosition(g, moves[q].u, moves[q].k)
  {
    forall q | 0 <= q < |moves|
      ensures moves[q].u in window && Brandes.IsEdgePosition(g, moves[q].u, moves[q].k)
    {
      var e := es[q / 2];
      assert e in es && e == (moves[q].u, moves[q].k);
    }
  }

  lemma AllCounted(g: Graph, window: seq<nat>, es: seq<(nat, nat)>, moves: seq<Brandes.Move>)
    requires EdgeByEdge(es, moves) && EdgesOf(g, window, es)
    ensures forall u: nat, k: nat :: u in window && Brandes.IsEdgePosition(g, u, k) ==> Brandes.Count(u, k) in moves
  {
    forall u: nat, k: nat | u in window && Brandes.IsEdgePosition(g, u, k)
      ensures Brandes.Count(u, k) in moves
    {
      assert (u, k) in es;
      var j :| 0 <= j < |es| && es[j] == (u, k);
      assert moves[2 * j + 1] == Brandes.Count(u, k);
    }
  }

  lemma CountsFollow(es: seq<(nat, nat)>, moves: seq<Brandes.Move>)
    requires EdgeByEdge(es, moves)
    ensures forall q :: 0 <= q < |moves| && moves[q].Count? ==> Brandes.Claim(moves[q].u, moves[q].k) in moves[..q]
  {
    forall q | 0 <= q < |moves| && moves[q].Count?
      ensures Brandes.Claim(moves[q].u, moves[q].k) in moves[..q]
    {
      assert moves[..q][q - 1] == moves[q - 1];
    }
  }

  lemma CountsDiffer(es: seq<(nat, nat)>, moves: seq<Brandes.Move>)
    requires EdgeByEdge(es, moves) && forall p, q :: 0 <= p < q < |es| ==> es[p] != es[q]
    ensures forall p, q :: 0 <= p < q < |moves| && moves[p].Count? ==> moves[p] != moves[q]
  {
    forall p, q | 0 <= p < q < |moves| && moves[p].Count?
      ensures moves[p] != moves[q]
    {
      assert q % 2 == 1 ==> es[p / 2] != es[q / 2];
    }
  }

  lemma SerialCounting(g: Graph)
    ensures Brandes.Threads((r, w) => SerialMoves(g, w), (r, s) => s).Run(g)
  {
    hide SerialMoves;
    forall w: seq<nat>
      ensures Brandes.Schedule(g, w, SerialMoves(g, w))
    {
      SerialSchedule(g, w);
    }
  }
}
