/** Shiloach-Vishkin components. Hooks are plain stores, so racing hooks may overwrite each other. */
module ShiloachVishkin {
  import opened Graphs
  import opened Components
  import Compress
  import Afforest

  datatype Thread =
    | Free
    | Start(u: nat, v: nat)                        // about to read the label of u
    | GotU(u: nat, v: nat, cu: nat)                // about to read the label of v
    | Check(u: nat, v: nat, high: nat, low: nat)   // about to test whether the higher label is a root
    | Mark(u: nat, v: nat, high: nat, low: nat)    // about to set the change flag
    | Store(u: nat, v: nat, high: nat, low: nat)   // about to hook

  datatype State = State(comp: seq<nat>, change: bool, threads: seq<Thread>, done: set<(nat, nat)>)

  ghost predicate InRange(s: State, th: Thread) {
    match th
    case Free => true
    case Start(u, v) => u < |s.comp|
    case GotU(u, v, cu) => v < |s.comp|
    case Check(u, v, high, low) => high < |s.comp|
    case Mark(u, v, high, low) => true
    case Store(u, v, high, low) => high < |s.comp|
  }

  ghost function Finish(s: State, t: nat, u: nat, v: nat): State
    requires t < |s.threads|
  {
    s.(threads := s.threads[t := Free], done := s.done + {(u, v)})
  }

  ghost function Moved(s: State, t: nat): State
    requires t < |s.threads| && InRange(s, s.threads[t])
  {
    match s.threads[t]
    case Free => s
    case Start(u, v) => s.(threads := s.threads[t := GotU(u, v, s.comp[u])])
    case GotU(u, v, cu) =>
      var cv := s.comp[v];
      if cu == cv then Finish(s, t, u, v)
      else
        var high := if cu > cv then cu else cv;
        s.(threads := s.threads[t := Check(u, v, high, cu + cv - high)])
    case Check(u, v, high, low) =>
      if high == s.comp[high] then s.(threads := s.threads[t := Mark(u, v, high, low)]) else Finish(s, t, u, v)
    case Mark(u, v, high, low) => s.(change := true, threads := s.threads[t := Store(u, v, high, low)])
    case Store(u, v, high, low) => Finish(s.(comp := s.comp[high := low]), t, u, v)
  }

  ghost predicate Step(g: Graph, s: State, s': State) {
    || (exists t, u, v :: 0 <= t < |s.threads| && s.threads[t] == Free && g.Edge(u, v)
          && s' == s.(threads := s.threads[t := Start(u, v)]))
    || (exists t :: 0 <= t < |s.threads| && s.threads[t] != Free && InRange(s, s.threads[t]) && s' == Moved(s, t))
  }

  ghost predicate ThreadOk(g: Graph, start: seq<nat>, change: bool, th: Thread)
    requires Downward(start)
  {
    match th
    case Free => true
    case Start(u, v) => u < |start| && v < |start| && g.Edge(u, v)
    case GotU(u, v, cu) =>
      u < |start| && v < |start| && g.Edge(u, v) && cu < |start| && Connected(g, u, cu) && (!change ==> cu == start[u])
    case Check(u, v, high, low) =>
      u < |start| && v < |start| && low < high < |start| && Connected(g, high, low) && (!change ==>
            high == start[u] || high == start[v])
    case Mark(u, v, high, low) => u < |start| && v < |start| && low < high < |start| && Connected(g, high, low)
          && start[high] == high
    case Store(u, v, high, low) => change && low < high < |start| && Connected(g, high, low) && start[high] == high
  }

  /** Some root has been hooked, or is about to be. */
  ghost predicate Hooked(start: seq<nat>, s: State, x: nat) {
    x < |start| == |s.comp| && start[x] == x && (s.comp[x] < x || exists t :: Storing(s, t, x))
  }

  ghost predicate Storing(s: State, t: nat, x: nat) {
    t < |s.threads| && s.threads[t].Store? && s.threads[t].high == x
  }

  lemma HookedKept(start: seq<nat>, s: State, t: nat, s': State, x: nat)
    requires Hooked(start, s, x) && t < |s.threads| && |s'.comp| == |s.comp| && |s'.threads| == |s.threads|
    requires forall q :: 0 <= q < |s.threads| && q != t ==> s'.threads[q] == s.threads[q]
    requires s'.comp == s.comp || (s.threads[t].Store? && s.threads[t].high < |s.comp|
          && s.threads[t].low < s.threads[t].high
                                   && s'.comp == s.comp[s.threads[t].high := s.threads[t].low])
    requires s.threads[t].Store? ==> s.threads[t].high < |s.comp| && s'.comp[s.threads[t].high] < s.threads[t].high
    ensures Hooked(start, s', x)
  {
    if s.comp[x] >= x {
      var q :| Storing(s, q, x);
      if q != t {
        assert Storing(s', q, x);
      }
    }
  }

  ghost predicate Inv(g: Graph, start: seq<nat>, s: State) {
    && Forest(g, start) && Stars(start) && Forest(g, s.comp) && |s.comp| == |start|
    && (forall x :: 0 <= x < |start| ==> s.comp[x] == start[x] || (start[x] == x && s.comp[x] < x))
    && (forall t :: 0 <= t < |s.threads| ==> ThreadOk(g, start, s.change, s.threads[t]))
    && (!s.change ==> s.comp == start && forall u, v :: (u, v) in s.done ==>
          u < |start| && v < |start| && start[u] == start[v])
    && (s.change ==> exists x :: Hooked(start, s, x))
  }

  lemma EdgeInRange(g: Graph, u: nat, v: nat)
    requires g.Edge(u, v)
    ensures u < |g.out| && v < |g.out|
  {
  }

  /** The two labels read for an edge are connected. */
  lemma LabelsConnected(g: Graph, comp: seq<nat>, u: nat, v: nat, cu: nat)
    requires Forest(g, comp) && g.Edge(u, v) && v < |comp| && Connected(g, u, cu)
    ensures Connected(g, cu, comp[v]) && Connected(g, comp[v], cu)
  {
    hide Connected;
    ConnectedTouch(g, u, v);
    ConnectedSym(g, u, cu);
    ConnectedTrans(g, cu, u, v);
    ConnectedTrans(g, cu, v, comp[v]);
    ConnectedSym(g, cu, comp[v]);
  }

  /** Threads only ever follow indices that exist. */
  lemma AlwaysInRange(g: Graph, start: seq<nat>, s: State, t: nat)
    requires Inv(g, start, s) && t < |s.threads|
    ensures InRange(s, s.threads[t])
  {
    hide Connected, Graph.Edge;
    assert ThreadOk(g, start, s.change, s.threads[t]);
  }

  lemma MoveKeeps(g: Graph, start: seq<nat>, s: State, t: nat)
    requires Inv(g, start, s) && t < |s.threads| && s.threads[t] != Free
    ensures InRange(s, s.threads[t]) && Inv(g, start, Moved(s, t))
  {
    hide Connected, Graph.Edge;
    AlwaysInRange(g, start, s, t);
    var s', th := Moved(s, t), s.threads[t];
    assert ThreadOk(g, start, s.change, th);
    if th.GotU? {
      LabelsConnected(g, s.comp, th.u, th.v, th.cu);
    }
    if s.change {
      var x :| Hooked(start, s, x);
      HookedKept(start, s, t, s', x);
    } else if th.Mark? {
      assert Storing(s', t, th.high);
      assert Hooked(start, s', th.high);
    }
    forall q | 0 <= q < |s.threads|
      ensures ThreadOk(g, start, s'.change, s'.threads[q])
    {
      assert ThreadOk(g, start, s.change, s.threads[q]);
    }
  }

  lemma StepKeeps(g: Graph, start: seq<nat>, s: State, s': State)
    requires Inv(g, start, s) && Step(g, s, s')
    ensures Inv(g, start, s')
  {
    hide Connected;
    if t :| 0 <= t < |s.threads| && s.threads[t] != Free && InRange(s, s.threads[t]) && s' == Moved(s, t) {
      MoveKeeps(g, start, s, t);
    } else {
      var t, u, v :| 0 <= t < |s.threads| && s.threads[t] == Free && g.Edge(u, v)
            && s' == s.(threads := s.threads[t := Start(u, v)]);
      EdgeInRange(g, u, v);
      if s.change {
        var x :| Hooked(start, s, x);
        HookedKept(start, s, t, s', x);
      }
    }
  }

  ghost predicate AllFree(s: State) {
    forall t :: 0 <= t < |s.threads| ==> s.threads[t] == Free
  }

  ghost predicate AllEdges(g: Graph, s: State) {
    forall u: nat, v: nat :: g.Edge(u, v) ==> (u, v) in s.done
  }

  ghost predicate PartRun(g: Graph, start: seq<nat>, run: seq<State>) {
    && |run| > 0 && run[0] == State(start, false, run[0].threads, {}) && AllFree(run[0])
    && forall i :: 0 < i < |run| ==> Step(g, run[i - 1], run[i])
  }

  ghost predicate Over(g: Graph, s: State) {
    AllFree(s) && AllEdges(g, s)
  }

  ghost predicate Run(g: Graph, start: seq<nat>, run: seq<State>) {
    PartRun(g, start, run) && Over(g, run[|run| - 1])
  }

  /** One pass over all edges. */
  ghost predicate Pass(g: Graph, start: seq<nat>, comp: seq<nat>, change: bool) {
    exists run: seq<State> :: Run(g, start, run) && comp == run[|run| - 1].comp && change == run[|run| - 1].change
  }

  lemma {:induction false} RunInv(g: Graph, start: seq<nat>, run: seq<State>, i: nat)
    requires Forest(g, start) && Stars(start) && PartRun(g, start, run) && i < |run|
    ensures Inv(g, start, run[i])
  {
    if i > 0 {
      RunInv(g, start, run, i - 1);
      StepKeeps(g, start, run[i - 1], run[i]);
    }
  }

  /** A pass that is not over can always go on. */
  lemma NeverStuck(g: Graph, start: seq<nat>, s: State)
    requires Inv(g, start, s) && |s.threads| > 0 && !Over(g, s)
    ensures exists s' :: Step(g, s, s')
  {
    hide Connected;
    if t :| 0 <= t < |s.threads| && s.threads[t] != Free {
      AlwaysInRange(g, start, s, t);
      assert Step(g, s, Moved(s, t));
    } else {
      var u: nat, v: nat :| g.Edge(u, v) && (u, v) !in s.done;
      assert s.threads[0] == Free;
      assert Step(g, s, s.(threads := s.threads[0 := Start(u, v)]));
    }
  }

  ghost function Rank(th: Thread): nat {
    match th
    case Free => 0
    case Start(_, _) => 5
    case GotU(_, _, _) => 4
    case Check(_, _, _, _) => 3
    case Mark(_, _, _, _) => 2
    case Store(_, _, _, _) => 1
  }

  /** The edges that are neither looked at nor being looked at by the first thread. */
  ghost function Open(g: Graph, s: State): set<(nat, nat)>
    requires |s.threads| > 0
  {
    set u, v | 0 <= u < |g.out| && 0 <= v < |g.out| && Left(g, s, u, v) :: (u, v)
  }

  ghost predicate Left(g: Graph, s: State, u: nat, v: nat)
    requires |s.threads| > 0
  {
    g.Edge(u, v) && (u, v) !in s.done && !(s.threads[0] != Free && s.threads[0].u == u && s.threads[0].v == v)
  }

  ghost predicate OthersFree(s: State) {
    forall t :: 0 < t < |s.threads| ==> s.threads[t] == Free
  }

  /** A run in which the first thread works alone can be carried on until the pass is over. */
  lemma {:induction false} CanFinish(g: Graph, start: seq<nat>, run: seq<State>)
    requires Forest(g, start) && Stars(start) && PartRun(g, start, run)
    requires |run[|run| - 1].threads| > 0 && OthersFree(run[|run| - 1])
    ensures exists comp, change :: Pass(g, start, comp, change)
    decreases |Open(g, run[|run| - 1])|, Rank(run[|run| - 1].threads[0])
  {
    hide Connected, Inv;
    var s := run[|run| - 1];
    RunInv(g, start, run, |run| - 1);
    AlwaysInRange(g, start, s, 0);
    if s.threads[0] != Free {
      MovedOpen(g, s);
      assert Step(g, s, Moved(s, 0));
      OneMore(g, start, run, Moved(s, 0));
      CanFinish(g, start, run + [Moved(s, 0)]);
    } else if u: nat, v: nat :| g.Edge(u, v) && (u, v) !in s.done {
      var s' := s.(threads := s.threads[0 := Start(u, v)]);
      BegunOpen(g, s, u, v);
      assert Step(g, s, s');
      OneMore(g, start, run, s');
      CanFinish(g, start, run + [s']);
    } else {
      assert Run(g, start, run);
      assert Pass(g, start, s.comp, s.change);
    }
  }

  lemma OneMore(g: Graph, start: seq<nat>, run: seq<State>, s: State)
    requires PartRun(g, start, run) && Step(g, run[|run| - 1], s)
    ensures PartRun(g, start, run + [s])
  {
    var more := run + [s];
    forall i | 0 < i < |more|
      ensures Step(g, more[i - 1], more[i])
    {
      assert more[i - 1] == run[i - 1];
      assert i < |run| ==> more[i] == run[i];
    }
  }

  lemma MovedOpen(g: Graph, s: State)
    requires |s.threads| > 0 && s.threads[0] != Free && InRange(s, s.threads[0])
    ensures |Moved(s, 0).threads| == |s.threads| && Open(g, Moved(s, 0)) == Open(g, s)
    ensures Rank(Moved(s, 0).threads[0]) < Rank(s.threads[0]) && (OthersFree(s) ==> OthersFree(Moved(s, 0)))
  {
  }

  lemma BegunOpen(g: Graph, s: State, u: nat, v: nat)
    requires |s.threads| > 0 && s.threads[0] == Free && g.Edge(u, v) && (u, v) !in s.done
    ensures |Open(g, s.(threads := s.threads[0 := Start(u, v)]))| < |Open(g, s)|
  {
    var s' := s.(threads := s.threads[0 := Start(u, v)]);
    assert Open(g, s') == Open(g, s) - {(u, v)};
    assert (u, v) in Open(g, s);
  }

  lemma PassCompletes(g: Graph, start: seq<nat>, workers: nat)
    requires Forest(g, start) && Stars(start) && workers > 0
    ensures exists comp, change :: Pass(g, start, comp, change)
  {
    hide Connected;
    CanFinish(g, start, [State(start, false, seq(workers, _ => Free), {})]);
  }

  ghost function Roots(comp: seq<nat>): set<nat> {
    set x | x in Range(|comp|) && comp[x] == x
  }

  /** A pass without a change finds one label on every edge; a pass with a change loses a root for good. */
  lemma PassResult(g: Graph, start: seq<nat>, comp: seq<nat>, change: bool)
    requires Forest(g, start) && Stars(start) && Pass(g, start, comp, change)
    ensures Forest(g, comp) && Roots(comp) <= Roots(start)
    ensures !change ==> comp == start && forall a: nat, b: nat :: g.Edge(a, b) ==> start[a] == start[b]
    ensures change ==> Roots(comp) < Roots(start)
  {
    hide Connected, Range;
    var run: seq<State> :| Run(g, start, run) && comp == run[|run| - 1].comp && change == run[|run| - 1].change;
    var s := run[|run| - 1];
    RunInv(g, start, run, |run| - 1);
    if change {
      var x: nat :| Hooked(start, s, x);
      assert forall t: nat :: !Storing(s, t, x);
      assert x in Roots(start) && x !in Roots(comp);
    }
  }

  /** labels[r] are the labels before round r, mid[r] those after its hooks. All rounds but the last change
      something. */
  ghost predicate SvRun(g: Graph, rounds: nat, labels: seq<seq<nat>>, mid: seq<seq<nat>>) {
    && |labels| == rounds + 1 && |mid| == rounds && labels[0] == seq(|g.out|, v => v)
    && forall r :: 0 <= r < rounds ==> RoundRun(g, labels, mid, r, rounds)
  }

  ghost predicate RoundRun(g: Graph, labels: seq<seq<nat>>, mid: seq<seq<nat>>, r: nat, rounds: nat)
    requires r + 1 < |labels| && r < |mid|
  {
    Pass(g, labels[r], mid[r], r + 1 < rounds) && Compress.Compressed(mid[r], labels[r + 1])
  }

  lemma RoundResult(g: Graph, labels: seq<seq<nat>>, mid: seq<seq<nat>>, r: nat, rounds: nat)
    requires r + 1 < |labels| && r < |mid| && RoundRun(g, labels, mid, r, rounds)
    requires Forest(g, labels[r]) && Stars(labels[r])
    ensures Forest(g, labels[r + 1]) && Stars(labels[r + 1])
    ensures r + 1 < rounds ==> Roots(labels[r + 1]) < Roots(labels[r])
    ensures r + 1 == rounds ==> MinLabels(g, labels[r + 1])
  {
    hide Connected, Pass, Compress.Compressed, Range;
    PassResult(g, labels[r], mid[r], r + 1 < rounds);
    Compress.CompressedRoots(g, mid[r], labels[r + 1]);
    SameRoots(mid[r], labels[r + 1]);
    if r + 1 == rounds {
      assert labels[r + 1] == labels[r] by {
        forall x | 0 <= x < |labels[r]|
          ensures labels[r + 1][x] == labels[r][x]
        {
        }
      }
      StarsAreMinLabels(g, labels[r + 1]);
    }
  }

  lemma SameRoots(comp: seq<nat>, comp': seq<nat>)
    requires Downward(comp) && Downward(comp') && |comp'| == |comp|
    requires forall x :: 0 <= x < |comp| ==> comp'[x] == Root(comp, x)
    ensures Roots(comp') == Roots(comp)
  {
  }

  lemma {:induction false} LabelsOk(g: Graph, rounds: nat, labels: seq<seq<nat>>, mid: seq<seq<nat>>, r: nat)
    requires SvRun(g, rounds, labels, mid) && r <= rounds
    ensures Forest(g, labels[r]) && Stars(labels[r])
    ensures r < rounds ==> |Roots(labels[r])| + r <= |g.out|
  {
    hide Connected, RoundRun, Range;
    if r == 0 {
      Afforest.IdentityForest(g, labels[0]);
      RootsBound(labels[0]);
    } else {
      LabelsOk(g, rounds, labels, mid, r - 1);
      RoundResult(g, labels, mid, r - 1, rounds);
      if r < rounds {
        FewerRoots(Roots(labels[r]), Roots(labels[r - 1]));
      }
    }
  }

  lemma RootsBound(comp: seq<nat>)
    ensures |Roots(comp)| <= |comp|
  {
    SubsetSize(Roots(comp), Range(|comp|));
  }

  lemma FewerRoots(a: set<nat>, b: set<nat>)
    requires a < b
    ensures |a| < |b|
  {
    var x :| x in b && x !in a;
    SubsetSize(a, b - {x});
  }

  /** However hooks race, the algorithm ends with every vertex labelled by the least vertex of its component, after at
      most one round more than there are vertices. */
  lemma SvCorrect(g: Graph, rounds: nat, labels: seq<seq<nat>>, mid: seq<seq<nat>>)
    requires SvRun(g, rounds, labels, mid) && rounds > 0
    ensures MinLabels(g, labels[rounds])
    ensures rounds <= |g.out| + 1
  {
    hide Connected, RoundRun;
    LabelsOk(g, rounds, labels, mid, rounds - 1);
    RoundResult(g, labels, mid, rounds - 1, rounds);
  }

  /** From any star forest the rounds go on to one without a change. */
  lemma {:induction false} RoundsComplete(g: Graph, comp: seq<nat>)
    returns (rounds: nat, labels: seq<seq<nat>>, mid: seq<seq<nat>>)
    requires Forest(g, comp) && Stars(comp)
    ensures rounds > 0 && |labels| == rounds + 1 && |mid| == rounds && labels[0] == comp
    ensures forall r :: 0 <= r < rounds ==> RoundRun(g, labels, mid, r, rounds)
    decreases |Roots(comp)|
  {
    hide Connected, Pass, Compress.Compressed, Range;
    PassCompletes(g, comp, 1);
    var hooked, change :| Pass(g, comp, hooked, change);
    PassResult(g, comp, hooked, change);
    Compress.Completes(g, hooked);
    var next :| Compress.Compressed(hooked, next);
    Compress.CompressedRoots(g, hooked, next);
    if change {
      SameRoots(hooked, next);
      FewerRoots(Roots(next), Roots(comp));
      var n, more, mids := RoundsComplete(g, next);
      rounds, labels, mid := n + 1, [comp] + more, [hooked] + mids;
      forall r | 0 <= r < rounds
        ensures RoundRun(g, labels, mid, r, rounds)
      {
        assert r > 0 ==> RoundRun(g, more, mids, r - 1, n);
      }
    } else {
      rounds, labels, mid := 1, [comp, next], [hooked];
    }
  }

  /** The algorithm has a completed run on every graph. */
  lemma SvCompletes(g: Graph)
    ensures exists rounds: nat, labels, mid :: rounds > 0 && SvRun(g, rounds, labels, mid)
  {
    hide Connected, RoundRun;
    var comp := seq(|g.out|, v => v);
    Afforest.IdentityForest(g, comp);
    var rounds, labels, mid := RoundsComplete(g, comp);
    assert SvRun(g, rounds, labels, mid);
  }

  /** Both algorithms return the same labels. */
  lemma SameAsAfforest(g: Graph, rounds: nat, labels: seq<seq<nat>>, mid: seq<seq<nat>>,
                       directed: bool, samples: nat, c: nat, sampled: seq<seq<nat>>, linked: seq<seq<nat>>,
                             last: seq<nat>, result: seq<nat>)
    requires SvRun(g, rounds, labels, mid) && rounds > 0
    requires Afforest.AfforestRun(g, directed, samples, c, sampled, linked, last, result)
          && (directed || Afforest.Undirected(g))
    ensures labels[rounds] == result
  {
    SvCorrect(g, rounds, labels, mid);
    Afforest.AfforestCorrect(g, directed, samples, c, sampled, linked, last, result);
    MinLabelsUnique(g, labels[rounds], result);
  }
}
