/** Parallel path compression: one worker per vertex, interleaved at every read and write. */
module Compress {
  import opened Graphs
  import opened Components

  datatype Worker =
    | Looking             // about to compare its parent with its grandparent
    | Reading             // they differed; about to read the grandparent again
    | Loaded(m: nat)      // about to store it
    | Finished

  datatype State = State(comp: seq<nat>, work: seq<Worker>)

  /** The next action of the worker of vertex n. */
  ghost function Act(s: State, n: nat): State
    requires Downward(s.comp) && n < |s.comp| == |s.work|
  {
    var p := s.comp[n];
    match s.work[n]
    case Looking => s.(work := s.work[n := if p == s.comp[p] then Finished else Reading])
    case Reading => s.(work := s.work[n := Loaded(s.comp[p])])
    case Loaded(m) => State(s.comp[n := m], s.work[n := Looking])
    case Finished => s
  }

  ghost predicate Step(s: State, s': State) {
    Downward(s.comp) && |s.comp| == |s.work| && exists n ::
          0 <= n < |s.comp| && s.work[n] != Finished && s' == Act(s, n)
  }

  ghost predicate WorkerOk(comp: seq<nat>, n: nat, w: Worker)
    requires Downward(comp) && n < |comp|
  {
    match w
    case Looking => true
    case Reading => comp[comp[n]] < comp[n]
    case Loaded(m) => m < comp[n] < n && Root(comp, m) == Root(comp, n)
    case Finished => comp[n] == Root(comp, n)
  }

  ghost predicate Inv(g: Graph, start: seq<nat>, s: State) {
    && Forest(g, start) && Forest(g, s.comp) && |s.comp| == |s.work| == |start|
    && (forall x :: 0 <= x < |start| ==> Root(s.comp, x) == Root(start, x))
    && (forall n :: 0 <= n < |start| ==> WorkerOk(s.comp, n, s.work[n]))
  }

  lemma RootStep(comp: seq<nat>, x: nat)
    requires Downward(comp) && x < |comp|
    ensures Root(comp, comp[x]) == Root(comp, x)
  {
  }

  lemma ActKeeps(g: Graph, start: seq<nat>, s: State, n: nat)
    requires Inv(g, start, s) && n < |start|
    ensures Inv(g, start, Act(s, n))
  {
    assert WorkerOk(s.comp, n, s.work[n]);
    RootStep(s.comp, n);
    RootStep(s.comp, s.comp[n]);
    if s.work[n].Loaded? {
      StoreKeeps(g, start, s, n, s.work[n].m);
    }
  }

  lemma StoreKeeps(g: Graph, start: seq<nat>, s: State, n: nat, m: nat)
    requires Inv(g, start, s) && n < |start| && s.work[n] == Loaded(m)
    ensures Inv(g, start, Act(s, n))
  {
    assert WorkerOk(s.comp, n, s.work[n]);
    var comp' := s.comp[n := m];
    forall x | 0 <= x < |start|
      ensures Downward(comp') && Root(comp', x) == Root(s.comp, x)
    {
      Redirect(s.comp, n, m, x);
    }
    SameTreeConnected(g, s.comp, n, m);
    forall q | 0 <= q < |start|
      ensures WorkerOk(comp', q, Act(s, n).work[q])
    {
      assert WorkerOk(s.comp, q, s.work[q]);
    }
  }

  /** Each action of a worker brings it closer to its end, whatever the others do: no action raises a parent. */
  ghost predicate Closer(a: nat, w: Worker, a': nat, w': Worker) {
    a' < a || (a' == a && Rank(w') < Rank(w))
  }

  ghost function Rank(w: Worker): nat {
    match w case Looking => 3 case Reading => 2 case Loaded(_) => 1 case Finished => 0
  }

  lemma ActCloser(g: Graph, start: seq<nat>, s: State, n: nat, q: nat)
    requires Inv(g, start, s) && n < |start| && q < |start| && s.work[n] != Finished
    ensures Closer(s.comp[n], s.work[n], Act(s, n).comp[n], Act(s, n).work[n])
    ensures q != n ==> Act(s, n).comp[q] == s.comp[q] && Act(s, n).work[q] == s.work[q]
  {
    assert WorkerOk(s.comp, n, s.work[n]);
  }

  ghost predicate AllFinished(s: State) {
    forall n :: 0 <= n < |s.work| ==> s.work[n] == Finished
  }

  ghost predicate PartRun(start: seq<nat>, run: seq<State>) {
    && |run| > 0 && run[0] == State(start, seq(|start|, _ => Looking))
    && forall i :: 0 < i < |run| ==> Step(run[i - 1], run[i])
  }

  ghost predicate Run(start: seq<nat>, run: seq<State>) {
    PartRun(start, run) && AllFinished(run[|run| - 1])
  }

  lemma {:induction false} RunInv(g: Graph, start: seq<nat>, run: seq<State>, i: nat)
    requires Forest(g, start) && PartRun(start, run) && i < |run|
    ensures Inv(g, start, run[i])
  {
    if i > 0 {
      RunInv(g, start, run, i - 1);
      assert Step(run[i - 1], run[i]);
      var n :| 0 <= n < |run[i - 1].comp| && run[i - 1].work[n] != Finished && run[i] == Act(run[i - 1], n);
      ActKeeps(g, start, run[i - 1], n);
    }
  }

  /** A finished compression: every vertex points at the root it had. */
  ghost predicate Compressed(start: seq<nat>, comp: seq<nat>) {
    exists run: seq<State> :: Run(start, run) && comp == run[|run| - 1].comp
  }

  /** A run that has finished the workers below n can be carried on to its end. */
  lemma {:induction false} CanFinish(g: Graph, start: seq<nat>, run: seq<State>, n: nat)
    requires Forest(g, start) && PartRun(start, run) && n <= |start| == |run[|run| - 1].work|
    requires FinishedBelow(run[|run| - 1], n)
    ensures exists comp :: Compressed(start, comp)
    decreases |start| - n, if n < |run[|run| - 1].comp| then run[|run| - 1].comp[n] else 0,
              if n < |start| then Rank(run[|run| - 1].work[n]) else 0
  {
    hide Connected, Root;
    var s := run[|run| - 1];
    RunInv(g, start, run, |run| - 1);
    if n == |start| {
      assert Run(start, run);
      assert Compressed(start, s.comp);
    } else if s.work[n] == Finished {
      CanFinish(g, start, run, n + 1);
    } else {
      ActCloser(g, start, s, n, n);
      assert Step(s, Act(s, n));
      OneMore(start, run, Act(s, n));
      CanFinish(g, start, run + [Act(s, n)], n);
    }
  }

  ghost predicate FinishedBelow(s: State, n: nat) {
    n <= |s.work| && forall q :: 0 <= q < n ==> s.work[q] == Finished
  }

  lemma OneMore(start: seq<nat>, run: seq<State>, s: State)
    requires PartRun(start, run) && Step(run[|run| - 1], s)
    ensures PartRun(start, run + [s])
  {
    var more := run + [s];
    forall i | 0 < i < |more|
      ensures Step(more[i - 1], more[i])
    {
      assert more[i - 1] == run[i - 1];
      assert i < |run| ==> more[i] == run[i];
    }
  }

  lemma Completes(g: Graph, start: seq<nat>)
    requires Forest(g, start)
    ensures exists comp :: Compressed(start, comp)
  {
    CanFinish(g, start, [State(start, seq(|start|, _ => Looking))], 0);
  }

  lemma CompressedRoots(g: Graph, start: seq<nat>, comp: seq<nat>)
    requires Forest(g, start) && Compressed(start, comp)
    ensures Forest(g, comp) && Stars(comp) && |comp| == |start|
    ensures forall x :: 0 <= x < |comp| ==> comp[x] == Root(start, x) == Root(comp, x)
  {
    var run: seq<State> :| Run(start, run) && comp == run[|run| - 1].comp;
    RunInv(g, start, run, |run| - 1);
    forall x | 0 <= x < |comp|
      ensures comp[x] == Root(start, x) == Root(comp, x)
    {
      assert WorkerOk(comp, x, run[|run| - 1].work[x]);
    }
  }
}
