/** Afforest: threads link edges into a parent forest with compare-and-swap, interleaved at every memory access. */
module Afforest {
  import opened Graphs
  import opened Components
  import Compress

  datatype Thread =
    | Free
    | Start(u: nat, v: nat)                                  // about to read the parent of u
    | GotP1(u: nat, v: nat, p1: nat)                         // about to read the parent of v
    | Test(u: nat, v: nat, p1: nat, p2: nat)                 // about to compare the two
    | ReadHigh(u: nat, v: nat, high: nat, low: nat)          // about to read the parent of the higher
    | HaveHigh(u: nat, v: nat, high: nat, low: nat, ph: nat) // about to decide, and perhaps swap
    | Again(u: nat, v: nat, high: nat, low: nat)             // about to read the parent of the higher once more
    | Again1(u: nat, v: nat, high: nat, low: nat, q: nat)    // about to read the parent of that
    | Again2(u: nat, v: nat, high: nat, low: nat, p1: nat)   // about to read the parent of the lower

  /** `done` collects the pairs whose link has returned and `skipped` the vertices found with the skip label. */
  datatype State = State(comp: seq<nat>, threads: seq<Thread>, done: set<(nat, nat)>, skipped: set<nat>)

  /** What one phase is to do: plan[u] lists the partners of u; vertices labelled `skip` may be passed over. */
  datatype Plan = Plan(plan: seq<seq<nat>>, skip: int)

  datatype Action = Begin(t: nat, u: nat, v: nat) | Skip(u: nat) | Move(t: nat)

  ghost predicate InRange(s: State, th: Thread) {
    match th
    case Free => true
    case Start(u, v) => u < |s.comp| && v < |s.comp|
    case GotP1(u, v, p1) => v < |s.comp|
    case Test(u, v, p1, p2) => p1 < |s.comp| && p2 < |s.comp|
    case ReadHigh(u, v, high, low) => high < |s.comp|
    case HaveHigh(u, v, high, low, ph) => high < |s.comp|
    case Again(u, v, high, low) => high < |s.comp|
    case Again1(u, v, high, low, q) => q < |s.comp|
    case Again2(u, v, high, low, p1) => low < |s.comp|
  }

  ghost function Finish(s: State, t: nat, u: nat, v: nat): State
    requires t < |s.threads|
  {
    s.(threads := s.threads[t := Free], done := s.done + {(u, v)})
  }

  ghost function Goto(s: State, t: nat, th: Thread): State
    requires t < |s.threads|
  {
    s.(threads := s.threads[t := th])
  }

  /** One memory access or decision of thread t inside its link. */
  ghost function Moved(s: State, t: nat): State
    requires t < |s.threads| && InRange(s, s.threads[t])
  {
    match s.threads[t]
    case Free => s
    case Start(u, v) => Goto(s, t, GotP1(u, v, s.comp[u]))
    case GotP1(u, v, p1) => Goto(s, t, Test(u, v, p1, s.comp[v]))
    case Test(u, v, p1, p2) =>
      if p1 == p2 then Finish(s, t, u, v)
      else
        var high := if p1 > p2 then p1 else p2;
        Goto(s, t, ReadHigh(u, v, high, p1 + p2 - high))
    case ReadHigh(u, v, high, low) => Goto(s, t, HaveHigh(u, v, high, low, s.comp[high]))
    case HaveHigh(u, v, high, low, ph) =>
      if ph == low then Finish(s, t, u, v)
      else if ph == high && s.comp[high] == high then Finish(s.(comp := s.comp[high := low]), t, u, v)
      else Goto(s, t, Again(u, v, high, low))
    case Again(u, v, high, low) => Goto(s, t, Again1(u, v, high, low, s.comp[high]))
    case Again1(u, v, high, low, q) => Goto(s, t, Again2(u, v, high, low, s.comp[q]))
    case Again2(u, v, high, low, p1) => Goto(s, t, Test(u, v, p1, s.comp[low]))
  }

  ghost predicate Next(g: Graph, plan: Plan, s: State, a: Action, s': State) {
    match a
    case Begin(t, u, v) =>
      && t < |s.threads| && s.threads[t] == Free && u < |plan.plan| && v in plan.plan[u]
      && s' == Goto(s, t, Start(u, v))
    case Skip(u) => u < |s.comp| && s.comp[u] == plan.skip && s' == s.(skipped := s.skipped + {u})
    case Move(t) => t < |s.threads| && s.threads[t] != Free && InRange(s, s.threads[t]) && s' == Moved(s, t)
  }

  /** The two ends of the link sit in the trees of a and b, one way round or the other. */
  ghost predicate Pair(comp: seq<nat>, u: nat, v: nat, a: nat, b: nat) {
    (SameTree(comp, u, a) && SameTree(comp, v, b)) || (SameTree(comp, u, b) && SameTree(comp, v, a))
  }

  ghost predicate ThreadOk(g: Graph, comp: seq<nat>, th: Thread)
    requires Downward(comp)
  {
    match th
    case Free => true
    case Start(u, v) => u < |comp| && v < |comp| && Touch(g, u, v)
    case GotP1(u, v, p1) => u < |comp| && v < |comp| && Touch(g, u, v) && SameTree(comp, u, p1)
    case Test(u, v, p1, p2) => Touch(g, u, v) && Pair(comp, u, v, p1, p2)
    case ReadHigh(u, v, high, low) => Touch(g, u, v) && Pair(comp, u, v, high, low) && low < high < |comp|
    case HaveHigh(u, v, high, low, ph) =>
      && Touch(g, u, v) && Pair(comp, u, v, high, low) && low < high < |comp| && SameTree(comp, high, ph)
      && ph <= high && (ph < high ==> comp[high] < high)
    case Again(u, v, high, low) => Touch(g, u, v) && Pair(comp, u, v, high, low) && low < high < |comp|
          && comp[high] < high
    case Again1(u, v, high, low, q) =>
      Touch(g, u, v) && Pair(comp, u, v, high, low) && low < high < |comp| && SameTree(comp, high, q) && q < high
    case Again2(u, v, high, low, p1) =>
      Touch(g, u, v) && Pair(comp, u, v, high, low) && low < high < |comp| && SameTree(comp, high, p1) && p1 < high
  }

  ghost predicate PlanOk(g: Graph, plan: Plan) {
    |plan.plan| == |g.out| && forall u, v :: 0 <= u < |g.out| && v in plan.plan[u] ==> Touch(g, u, v)
  }

  ghost predicate Inv(g: Graph, plan: Plan, s: State) {
    && Forest(g, s.comp) && PlanOk(g, plan)
    && (forall t :: 0 <= t < |s.threads| ==> ThreadOk(g, s.comp, s.threads[t]))
    && (forall u, v :: (u, v) in s.done ==> SameTree(s.comp, u, v))
    && (forall u :: u in s.skipped ==> plan.skip >= 0 && SameTree(s.comp, u, plan.skip))
  }

  /** Trees only merge, and no parent rises. */
  ghost predicate Merged(comp: seq<nat>, comp': seq<nat>) {
    && |comp'| == |comp| && Downward(comp) && Downward(comp')
    && (forall x :: 0 <= x < |comp| ==> comp'[x] <= comp[x])
    && (forall x, y :: SameTree(comp, x, y) ==> SameTree(comp', x, y))
  }

  lemma HookMerges(g: Graph, comp: seq<nat>, high: nat, low: nat)
    requires Forest(g, comp) && low < high < |comp| && comp[high] == high && Connected(g, high, low)
    ensures Forest(g, comp[high := low]) && Merged(comp, comp[high := low]) && SameTree(comp[high := low], high, low)
  {
    hide Connected;
    forall x | 0 <= x < |comp|
      ensures Downward(comp[high := low])
      ensures Root(comp[high := low], x) == if Root(comp, x) == high then Root(comp, low) else Root(comp, x)
    {
      HookRoot(comp, high, low, x);
    }
  }

  lemma MergedThread(g: Graph, comp: seq<nat>, comp': seq<nat>, th: Thread)
    requires Merged(comp, comp') && ThreadOk(g, comp, th)
    ensures ThreadOk(g, comp', th)
  {
    hide Root, Touch;
  }

  lemma ParentSameTree(comp: seq<nat>, x: nat)
    requires Downward(comp) && x < |comp|
    ensures SameTree(comp, x, comp[x])
  {
  }

  lemma PairSwap(comp: seq<nat>, u: nat, v: nat, a: nat, b: nat, a': nat, b': nat)
    requires Pair(comp, u, v, a, b) && SameTree(comp, a, a') && SameTree(comp, b, b')
    ensures Pair(comp, u, v, a', b')
  {
  }

  /** Threads only ever follow indices that exist. */
  lemma AlwaysInRange(g: Graph, plan: Plan, s: State, t: nat)
    requires Inv(g, plan, s) && t < |s.threads|
    ensures InRange(s, s.threads[t])
  {
    hide Connected, Touch, Root;
    assert ThreadOk(g, s.comp, s.threads[t]);
  }

  /** A move that writes nothing leaves its thread with what it needs to know. */
  lemma ReadOk(g: Graph, s: State, t: nat)
    requires Forest(g, s.comp) && t < |s.threads| && InRange(s, s.threads[t]) && ThreadOk(g, s.comp, s.threads[t])
    ensures Moved(s, t).comp == s.comp ==> ThreadOk(g, s.comp, Moved(s, t).threads[t])
  {
    hide Connected, Touch;
    match s.threads[t]
    case Free =>
    case Start(u, v) => ParentSameTree(s.comp, u);
    case GotP1(u, v, p1) => ParentSameTree(s.comp, v);
    case Test(u, v, p1, p2) =>
    case ReadHigh(u, v, high, low) => ParentSameTree(s.comp, high);
    case HaveHigh(u, v, high, low, ph) =>
    case Again(u, v, high, low) => ParentSameTree(s.comp, high);
    case Again1(u, v, high, low, q) => ParentSameTree(s.comp, q);
    case Again2(u, v, high, low, p1) =>
      ParentSameTree(s.comp, low);
      PairSwap(s.comp, u, v, high, low, p1, s.comp[low]);
  }

  /** A link that returns has brought its two ends into one tree. */
  lemma FinishOk(g: Graph, s: State, t: nat)
    requires Forest(g, s.comp) && t < |s.threads| && InRange(s, s.threads[t]) && ThreadOk(g, s.comp, s.threads[t])
    ensures Moved(s, t).comp == s.comp && s.threads[t] != Free && Moved(s, t).threads[t] == Free
         ==> SameTree(s.comp, s.threads[t].u, s.threads[t].v)
  {
  }

  lemma SwapConnected(g: Graph, comp: seq<nat>, u: nat, v: nat, high: nat, low: nat)
    requires Forest(g, comp) && Touch(g, u, v) && Pair(comp, u, v, high, low)
    ensures Connected(g, high, low)
  {
    hide Connected, Touch, Forest, Root;
    ConnectedTouch(g, u, v);
    ConnectedSym(g, u, v);
    if SameTree(comp, u, high) && SameTree(comp, v, low) {
      BetweenTrees(g, comp, u, v, high, low);
    } else {
      BetweenTrees(g, comp, v, u, high, low);
    }
  }

  lemma BetweenTrees(g: Graph, comp: seq<nat>, u: nat, v: nat, a: nat, b: nat)
    requires Forest(g, comp) && Connected(g, u, v) && SameTree(comp, u, a) && SameTree(comp, v, b)
    ensures Connected(g, a, b)
  {
    hide Connected, Forest, Root;
    SameTreeConnected(g, comp, a, u);
    SameTreeConnected(g, comp, v, b);
    ConnectedTrans(g, a, u, v);
    ConnectedTrans(g, a, v, b);
  }

  lemma MoveKeeps(g: Graph, plan: Plan, s: State, t: nat)
    requires Inv(g, plan, s) && t < |s.threads| && s.threads[t] != Free
    ensures InRange(s, s.threads[t]) && Inv(g, plan, Moved(s, t)) && Merged(s.comp, Moved(s, t).comp)
  {
    hide Connected, Touch, Root;
    AlwaysInRange(g, plan, s, t);
    var s' := Moved(s, t);
    var th := s.threads[t];
    assert ThreadOk(g, s.comp, th);
    if s'.comp == s.comp {
      ReadOk(g, s, t);
      FinishOk(g, s, t);
    } else {
      SwapConnected(g, s.comp, th.u, th.v, th.high, th.low);
      HookMerges(g, s.comp, th.high, th.low);
      SwapKeeps(g, plan, s, s', t);
    }
  }

  lemma SwapKeeps(g: Graph, plan: Plan, s: State, s': State, t: nat)
    requires Inv(g, plan, s) && t < |s.threads| && s.threads[t].HaveHigh?
    requires s' == Finish(s.(comp := s'.comp), t, s.threads[t].u, s.threads[t].v)
    requires Forest(g, s'.comp) && Merged(s.comp, s'.comp) && SameTree(s'.comp, s.threads[t].high, s.threads[t].low)
    ensures Inv(g, plan, s')
  {
    hide Connected, Touch, Root;
    forall q | 0 <= q < |s.threads|
      ensures ThreadOk(g, s'.comp, s'.threads[q])
    {
      assert ThreadOk(g, s.comp, s.threads[q]);
      MergedThread(g, s.comp, s'.comp, s.threads[q]);
    }
    var th := s.threads[t];
    assert ThreadOk(g, s.comp, th);
    assert SameTree(s'.comp, th.u, th.v) by {
      assert Pair(s'.comp, th.u, th.v, th.high, th.low);
    }
  }

  lemma StepKeeps(g: Graph, plan: Plan, s: State, a: Action, s': State)
    requires Inv(g, plan, s) && Next(g, plan, s, a, s')
    ensures Inv(g, plan, s') && Merged(s.comp, s'.comp)
  {
    hide Connected, Touch, Root;
    match a
    case Begin(t, u, v) =>
      assert Touch(g, u, v);
      TouchInRange(g, u, v);
    case Skip(u) =>
      ParentSameTree(s.comp, u);
    case Move(t) =>
      MoveKeeps(g, plan, s, t);
  }

  lemma TouchInRange(g: Graph, u: nat, v: nat)
    requires Touch(g, u, v)
    ensures u < |g.out| && v < |g.out|
  {
  }

  /** Distance of a link from its end: the larger of the two candidates falls in every round of its loop. */
  ghost function Bound(n: nat, th: Thread): (nat, nat) {
    match th
    case Free => (0, 0)
    case Start(_, _) => (n, 9)
    case GotP1(_, _, _) => (n, 8)
    case Test(_, _, p1, p2) => (if p1 > p2 then p1 else p2, 7)
    case ReadHigh(_, _, high, _) => (high, 6)
    case HaveHigh(_, _, high, _, _) => (high, 5)
    case Again(_, _, high, _) => (high, 4)
    case Again1(_, _, high, _, _) => (high, 3)
    case Again2(_, _, high, _, _) => (high, 2)
  }

  /** A link returns after a bounded number of its own moves, whatever the other threads do in between. */
  lemma LinkTerminates(g: Graph, plan: Plan, s: State, t: nat)
    requires Inv(g, plan, s) && t < |s.threads| && s.threads[t] != Free
    ensures InRange(s, s.threads[t])
    ensures var (b, r), (b', r') := Bound(|s.comp|, s.threads[t]), Bound(|s.comp|, Moved(s, t).threads[t]);
      b' < b || (b' == b && r' < r)
  {
    hide Connected, Touch, Root;
    AlwaysInRange(g, plan, s, t);
    assert ThreadOk(g, s.comp, s.threads[t]);
  }

  // ----- Phases

  ghost predicate AllFree(s: State) {
    forall t :: 0 <= t < |s.threads| ==> s.threads[t] == Free
  }

  ghost predicate Step(g: Graph, plan: Plan, s: State, s': State) {
    exists a :: Next(g, plan, s, a, s')
  }

  /** Every vertex has been passed over or has had all its partners linked. */
  ghost predicate PlanDone(plan: Plan, s: State) {
    forall u :: 0 <= u < |plan.plan| ==> VertexDone(plan, s, u)
  }

  ghost predicate VertexDone(plan: Plan, s: State, u: nat)
    requires u < |plan.plan|
  {
    u in s.skipped || forall v :: v in plan.plan[u] ==> (u, v) in s.done
  }

  /** A vertex passed over is done with, no action undoes that, and only a link's swap changes a label. */
  lemma DoneStays(g: Graph, plan: Plan, s: State, a: Action, s': State, u: nat)
    requires u < |plan.plan| && Next(g, plan, s, a, s')
    ensures VertexDone(plan, s, u) || a == Skip(u) ==> VertexDone(plan, s', u)
    ensures !a.Move? ==> s'.comp == s.comp
  {
  }

  ghost predicate PartRun(g: Graph, plan: Plan, comp: seq<nat>, run: seq<State>) {
    && |run| > 0 && run[0] == State(comp, run[0].threads, {}, {}) && AllFree(run[0])
    && forall i :: 0 < i < |run| ==> Step(g, plan, run[i - 1], run[i])
  }

  ghost predicate Over(plan: Plan, s: State) {
    AllFree(s) && PlanDone(plan, s)
  }

  ghost predicate Run(g: Graph, plan: Plan, comp: seq<nat>, run: seq<State>) {
    PartRun(g, plan, comp, run) && Over(plan, run[|run| - 1])
  }

  ghost predicate Phase(g: Graph, plan: Plan, comp: seq<nat>, comp': seq<nat>) {
    exists run: seq<State> :: Run(g, plan, comp, run) && comp' == run[|run| - 1].comp
  }

  lemma {:induction false} RunInv(g: Graph, plan: Plan, comp: seq<nat>, run: seq<State>, i: nat)
    requires Forest(g, comp) && PlanOk(g, plan) && PartRun(g, plan, comp, run) && i < |run|
    ensures Inv(g, plan, run[i]) && Merged(comp, run[i].comp)
  {
    hide Connected, Touch, Root;
    if i > 0 {
      RunInv(g, plan, comp, run, i - 1);
      assert Step(g, plan, run[i - 1], run[i]);
      var a :| Next(g, plan, run[i - 1], a, run[i]);
      StepKeeps(g, plan, run[i - 1], a, run[i]);
    }
  }

  /** A phase that is not over can always go on. */
  lemma NeverStuck(g: Graph, plan: Plan, s: State)
    requires Inv(g, plan, s) && |s.threads| > 0 && !Over(plan, s)
    ensures exists s' :: Step(g, plan, s, s')
  {
    hide Connected, Touch, Root;
    if t :| 0 <= t < |s.threads| && s.threads[t] != Free {
      AlwaysInRange(g, plan, s, t);
      assert Next(g, plan, s, Move(t), Moved(s, t));
      assert Step(g, plan, s, Moved(s, t));
    } else {
      var u :| 0 <= u < |plan.plan| && !VertexDone(plan, s, u);
      var v :| v in plan.plan[u] && (u, v) !in s.done;
      var s' := Goto(s, 0, Start(u, v));
      assert Next(g, plan, s, Begin(0, u, v), s');
      assert Step(g, plan, s, s');
    }
  }

  /** The planned pairs that are neither linked nor being linked by the first thread. */
  ghost function Open(plan: Plan, s: State): set<(nat, nat)>
    requires |s.threads| > 0
  {
    set u, v | 0 <= u < |plan.plan| && v in plan.plan[u] && (u, v) !in s.done && !Carries(s.threads[0], u, v) :: (u, v)
  }

  ghost predicate Carries(th: Thread, u: nat, v: nat) {
    th != Free && th.u == u && th.v == v
  }

  ghost predicate OthersFree(s: State) {
    forall t :: 0 < t < |s.threads| ==> s.threads[t] == Free
  }

  /** A run in which the first thread works alone can be carried on until the phase is over. */
  lemma {:induction false} CanFinish(g: Graph, plan: Plan, comp: seq<nat>, run: seq<State>)
    requires Forest(g, comp) && PlanOk(g, plan) && PartRun(g, plan, comp, run)
    requires |run[|run| - 1].threads| > 0 && OthersFree(run[|run| - 1])
    ensures exists comp' :: Phase(g, plan, comp, comp')
    decreases |Open(plan, run[|run| - 1])|, Bound(|run[|run| - 1].comp|, run[|run| - 1].threads[0]).0,
              Bound(|run[|run| - 1].comp|, run[|run| - 1].threads[0]).1
  {
    hide Connected, Touch, Root, Inv, Bound;
    var s := run[|run| - 1];
    RunInv(g, plan, comp, run, |run| - 1);
    if s.threads[0] != Free {
      LinkTerminates(g, plan, s, 0);
      assert Next(g, plan, s, Move(0), Moved(s, 0));
      MovedOpen(plan, s);
      OneMore(g, plan, comp, run, Moved(s, 0));
      CanFinish(g, plan, comp, run + [Moved(s, 0)]);
    } else if !PlanDone(plan, s) {
      var u :| 0 <= u < |plan.plan| && !VertexDone(plan, s, u);
      var v :| v in plan.plan[u] && (u, v) !in s.done;
      var s' := Goto(s, 0, Start(u, v));
      assert Next(g, plan, s, Begin(0, u, v), s');
      BegunOpen(plan, s, u, v);
      OneMore(g, plan, comp, run, s');
      CanFinish(g, plan, comp, run + [s']);
    } else {
      assert Run(g, plan, comp, run);
      assert Phase(g, plan, comp, s.comp);
    }
  }

  lemma OneMore(g: Graph, plan: Plan, comp: seq<nat>, run: seq<State>, s: State)
    requires PartRun(g, plan, comp, run) && Step(g, plan, run[|run| - 1], s)
    ensures PartRun(g, plan, comp, run + [s])
  {
    var more := run + [s];
    forall i | 0 < i < |more|
      ensures Step(g, plan, more[i - 1], more[i])
    {
      assert more[i - 1] == run[i - 1];
      assert i < |run| ==> more[i] == run[i];
    }
  }

  lemma MovedOpen(plan: Plan, s: State)
    requires |s.threads| > 0 && s.threads[0] != Free && InRange(s, s.threads[0])
    ensures |Moved(s, 0).threads| == |s.threads| && Open(plan, Moved(s, 0)) == Open(plan, s)
    ensures |Moved(s, 0).comp| == |s.comp| && (OthersFree(s) ==> OthersFree(Moved(s, 0)))
  {
  }

  lemma BegunOpen(plan: Plan, s: State, u: nat, v: nat)
    requires |s.threads| > 0 && s.threads[0] == Free && u < |plan.plan| && v in plan.plan[u] && (u, v) !in s.done
    ensures |Open(plan, Goto(s, 0, Start(u, v)))| < |Open(plan, s)|
  {
    var s' := Goto(s, 0, Start(u, v));
    assert Open(plan, s') == Open(plan, s) - {(u, v)};
    assert (u, v) in Open(plan, s);
  }

  /** With any number of threads there is a way through the phase. */
  lemma PhaseCompletes(g: Graph, plan: Plan, comp: seq<nat>, workers: nat)
    requires Forest(g, comp) && PlanOk(g, plan) && workers > 0
    ensures exists comp' :: Phase(g, plan, comp, comp')
  {
    hide Connected, Touch, Root;
    CanFinish(g, plan, comp, [State(comp, seq(workers, _ => Free), {}, {})]);
  }

  /** u was passed over in the tree of the skip label, or shares a tree with all its partners. */
  ghost predicate Settled(plan: Plan, comp: seq<nat>, u: nat)
    requires u < |plan.plan|
  {
    (plan.skip >= 0 && SameTree(comp, u, plan.skip)) || forall v :: v in plan.plan[u] ==> SameTree(comp, u, v)
  }

  lemma PhaseResult(g: Graph, plan: Plan, comp: seq<nat>, comp': seq<nat>)
    requires Forest(g, comp) && PlanOk(g, plan) && Phase(g, plan, comp, comp')
    ensures Forest(g, comp') && Merged(comp, comp')
    ensures forall u :: 0 <= u < |plan.plan| ==> Settled(plan, comp', u)
  {
    hide Connected, Touch, Root;
    var run: seq<State> :| Run(g, plan, comp, run) && comp' == run[|run| - 1].comp;
    RunInv(g, plan, comp, run, |run| - 1);
    forall u | 0 <= u < |plan.plan|
      ensures Settled(plan, comp', u)
    {
      assert VertexDone(plan, run[|run| - 1], u);
    }
  }

  // ----- The whole algorithm

  /** Round r links every vertex to its r-th neighbour. */
  function SamplePlan(g: Graph, r: nat): (p: Plan)
    ensures |p.plan| == |g.out|
  {
    Plan(seq(|g.out|, u requires 0 <= u < |g.out| => if r < |g.out[u]| then [g.out[u][r]] else []), -1)
  }

  /** The last phase links the other neighbours, and in a directed graph all in-neighbours. */
  function FinalPlan(g: Graph, directed: bool, rounds: nat, c: nat): (p: Plan)
    requires |g.inn| == |g.out|
    ensures |p.plan| == |g.out|
  {
    Plan(seq(|g.out|, u requires 0 <= u < |g.out| =>
      g.out[u][if rounds < |g.out[u]| then rounds else |g.out[u]|..] + (if directed then g.inn[u] else [])), c)
  }

  /** sampled[r] is the labelling before round r, linked[r] the one after its links, and c the label that is skipped. */
  ghost predicate AfforestRun(g: Graph, directed: bool, rounds: nat, c: nat,
                              sampled: seq<seq<nat>>, linked: seq<seq<nat>>, last: seq<nat>, result: seq<nat>) {
    && g.Ok() && |g.inn| == |g.out| && |sampled| == rounds + 1 && |linked| == rounds
    && sampled[0] == seq(|g.out|, v => v)
    && (forall r :: 0 <= r < rounds ==> RoundRun(g, sampled, linked, r))
    && Phase(g, FinalPlan(g, directed, rounds, c), sampled[rounds], last)
    && Compress.Compressed(last, result)
  }

  ghost predicate RoundRun(g: Graph, sampled: seq<seq<nat>>, linked: seq<seq<nat>>, r: nat)
    requires r + 1 < |sampled| && r < |linked|
  {
    Phase(g, SamplePlan(g, r), sampled[r], linked[r]) && Compress.Compressed(linked[r], sampled[r + 1])
  }

  lemma SampleOk(g: Graph, r: nat)
    requires g.Ok()
    ensures PlanOk(g, SamplePlan(g, r))
  {
    forall u, v | 0 <= u < |g.out| && v in SamplePlan(g, r).plan[u]
      ensures Touch(g, u, v)
    {
      assert g.InRange(g.out[u]);
    }
  }

  lemma FinalOk(g: Graph, directed: bool, rounds: nat, c: nat)
    requires g.Ok()
    ensures PlanOk(g, FinalPlan(g, directed, rounds, c))
  {
    forall u, v | 0 <= u < |g.out| && v in FinalPlan(g, directed, rounds, c).plan[u]
      ensures Touch(g, u, v)
    {
      assert g.InRange(g.out[u]) && g.InRange(g.inn[u]);
      assert v in g.out[u] || v in g.inn[u];
      if v in g.out[u] {
        var k :| 0 <= k < |g.out[u]| && g.out[u][k] == v;
      } else {
        var k :| 0 <= k < |g.inn[u]| && g.inn[u][k] == v;
      }
    }
  }

  lemma MergedTrans(a: seq<nat>, b: seq<nat>, c: seq<nat>)
    requires Merged(a, b) && Merged(b, c)
    ensures Merged(a, c)
  {
    hide Root;
  }

  lemma CompressMerges(g: Graph, comp: seq<nat>, comp': seq<nat>)
    requires Forest(g, comp) && Compress.Compressed(comp, comp')
    ensures Forest(g, comp') && Merged(comp, comp')
  {
    hide Connected;
    Compress.CompressedRoots(g, comp, comp');
    forall x | 0 <= x < |comp|
      ensures comp'[x] <= comp[x]
    {
      if comp[x] != x {
        assert Root(comp, x) == Root(comp, comp[x]);
      }
    }
  }

  /** Round q settled every vertex, and what it joined is still joined in comp. */
  ghost predicate RoundKept(g: Graph, q: nat, linked: seq<nat>, comp: seq<nat>) {
    Merged(linked, comp) && forall u :: 0 <= u < |g.out| ==> Settled(SamplePlan(g, q), linked, u)
  }

  lemma {:induction false} SamplesMerge(g: Graph, directed: bool, rounds: nat, c: nat, sampled: seq<seq<nat>>,
                                        linked: seq<seq<nat>>,
                                        last: seq<nat>, result: seq<nat>, r: nat)
    requires AfforestRun(g, directed, rounds, c, sampled, linked, last, result) && r <= rounds
    ensures Forest(g, sampled[r])
    ensures forall q :: 0 <= q < r ==> RoundKept(g, q, linked[q], sampled[r])
  {
    hide Forest, Graph.Ok, FinalPlan, Phase, RoundKept, RoundRun, Merged;
    if r == 0 {
      IdentityForest(g, sampled[0]);
    } else {
      SamplesMerge(g, directed, rounds, c, sampled, linked, last, result, r - 1);
      OneRound(g, sampled, linked, r - 1);
      forall q | 0 <= q < r
        ensures RoundKept(g, q, linked[q], sampled[r])
      {
        if q < r - 1 {
          KeepRound(g, q, linked[q], sampled[r - 1], sampled[r]);
        }
      }
    }
  }

  lemma KeepRound(g: Graph, q: nat, linked: seq<nat>, comp: seq<nat>, comp': seq<nat>)
    requires RoundKept(g, q, linked, comp) && Merged(comp, comp')
    ensures RoundKept(g, q, linked, comp')
  {
    hide Merged, Settled;
    MergedTrans(linked, comp, comp');
  }

  lemma OneRound(g: Graph, sampled: seq<seq<nat>>, linked: seq<seq<nat>>, r: nat)
    requires g.Ok() && r + 1 < |sampled| && r < |linked| && Forest(g, sampled[r]) && RoundRun(g, sampled, linked, r)
    ensures Forest(g, sampled[r + 1]) && RoundKept(g, r, linked[r], sampled[r + 1])
          && Merged(sampled[r], sampled[r + 1])
  {
    hide Forest, Graph.Ok, Phase, Merged, Settled;
    SampleOk(g, r);
    PhaseResult(g, SamplePlan(g, r), sampled[r], linked[r]);
    CompressMerges(g, linked[r], sampled[r + 1]);
    MergedTrans(sampled[r], linked[r], sampled[r + 1]);
  }

  lemma IdentityForest(g: Graph, comp: seq<nat>)
    requires comp == seq(|g.out|, v => v)
    ensures Forest(g, comp)
  {
    forall x | 0 <= x < |comp|
      ensures Connected(g, x, comp[x])
    {
      ConnectedSelf(g, x);
    }
  }

  lemma LastPhase(g: Graph, directed: bool, rounds: nat, c: nat, sampled: seq<seq<nat>>, linked: seq<seq<nat>>,
                  last: seq<nat>, result: seq<nat>)
    requires AfforestRun(g, directed, rounds, c, sampled, linked, last, result)
    ensures Forest(g, last) && Compress.Compressed(last, result)
    ensures forall u :: 0 <= u < |g.out| ==> Settled(FinalPlan(g, directed, rounds, c), last, u)
    ensures forall q :: 0 <= q < rounds ==> RoundKept(g, q, linked[q], last)
  {
    hide Forest, Graph.Ok, Phase, FinalPlan, Settled, Merged, RoundKept, RoundRun;
    SamplesMerge(g, directed, rounds, c, sampled, linked, last, result, rounds);
    FinalOk(g, directed, rounds, c);
    PhaseResult(g, FinalPlan(g, directed, rounds, c), sampled[rounds], last);
    forall q | 0 <= q < rounds
      ensures RoundKept(g, q, linked[q], last)
    {
      KeepRound(g, q, linked[q], sampled[rounds], last);
    }
  }

  /** An edge at position k was linked in round k, or is in the last phase's plan of its source. */
  lemma EdgeSettled(g: Graph, directed: bool, rounds: nat, c: nat, sampled: seq<seq<nat>>, linked: seq<seq<nat>>,
                    last: seq<nat>, result: seq<nat>, a: nat, b: nat)
    requires AfforestRun(g, directed, rounds, c, sampled, linked, last, result) && g.Edge(a, b)
    ensures SameTree(last, a, b) || SameTree(last, a, c)
  {
    hide Connected, Touch, Root, Graph.Ok, Phase;
    LastPhase(g, directed, rounds, c, sampled, linked, last, result);
    var k :| 0 <= k < |g.out[a]| && g.out[a][k] == b;
    if k < rounds {
      assert RoundKept(g, k, linked[k], last);
      assert Settled(SamplePlan(g, k), linked[k], a);
      assert b in SamplePlan(g, k).plan[a];
    } else {
      assert Settled(FinalPlan(g, directed, rounds, c), last, a);
      assert g.out[a][rounds..][k - rounds] == b;
      assert b in FinalPlan(g, directed, rounds, c).plan[a];
    }
  }

  lemma InEdgeSettled(g: Graph, rounds: nat, c: nat, sampled: seq<seq<nat>>, linked: seq<seq<nat>>,
                      last: seq<nat>, result: seq<nat>, a: nat, b: nat)
    requires AfforestRun(g, true, rounds, c, sampled, linked, last, result) && g.Edge(a, b)
    ensures SameTree(last, b, a) || SameTree(last, b, c)
  {
    hide Connected, Touch, Root, Phase;
    LastPhase(g, true, rounds, c, sampled, linked, last, result);
    assert Settled(FinalPlan(g, true, rounds, c), last, b);
    assert a in g.inn[b];
    assert a in FinalPlan(g, true, rounds, c).plan[b];
  }

  ghost predicate Sampled(g: Graph, rounds: nat, sampled: seq<seq<nat>>, linked: seq<seq<nat>>) {
    && |sampled| == rounds + 1 && |linked| == rounds && sampled[0] == seq(|g.out|, v => v)
    && forall r :: 0 <= r < rounds ==> RoundRun(g, sampled, linked, r)
  }

  lemma {:induction false} SamplingCompletes(g: Graph, rounds: nat)
    returns (sampled: seq<seq<nat>>, linked: seq<seq<nat>>)
    requires g.Ok()
    ensures Sampled(g, rounds, sampled, linked) && Forest(g, sampled[rounds])
  {
    hide Connected, Touch, Root, Phase, Merged, SamplePlan;
    if rounds == 0 {
      sampled, linked := [seq(|g.out|, v => v)], [];
      IdentityForest(g, sampled[0]);
    } else {
      var before, mid := SamplingCompletes(g, rounds - 1);
      SampleOk(g, rounds - 1);
      PhaseCompletes(g, SamplePlan(g, rounds - 1), before[rounds - 1], 1);
      var comp :| Phase(g, SamplePlan(g, rounds - 1), before[rounds - 1], comp);
      PhaseResult(g, SamplePlan(g, rounds - 1), before[rounds - 1], comp);
      Compress.Completes(g, comp);
      var comp' :| Compress.Compressed(comp, comp');
      CompressMerges(g, comp, comp');
      sampled, linked := before + [comp'], mid + [comp];
      forall r | 0 <= r < rounds
        ensures RoundRun(g, sampled, linked, r)
      {
        assert r < rounds - 1 ==> RoundRun(g, before, mid, r);
      }
    }
  }

  /** The algorithm has a completed run on every graph, for any number of rounds and skip label. */
  lemma AfforestCompletes(g: Graph, directed: bool, rounds: nat, c: nat)
    requires g.Ok()
    ensures exists sampled, linked, last, result :: AfforestRun(g, directed, rounds, c, sampled, linked, last, result)
  {
    hide Connected, Touch, Root, Phase, Merged, FinalPlan;
    var sampled, linked := SamplingCompletes(g, rounds);
    var plan := FinalPlan(g, directed, rounds, c);
    FinalOk(g, directed, rounds, c);
    PhaseCompletes(g, plan, sampled[rounds], 1);
    var last :| Phase(g, plan, sampled[rounds], last);
    PhaseResult(g, plan, sampled[rounds], last);
    Compress.Completes(g, last);
    var result :| Compress.Compressed(last, result);
    assert AfforestRun(g, directed, rounds, c, sampled, linked, last, result);
  }

  ghost predicate Undirected(g: Graph) {
    forall a: nat, b: nat :: g.Edge(a, b) ==> g.Edge(b, a)
  }

  /** For any interleaving, number of sampling rounds and skip label, the result labels every vertex with the least
      vertex of its weakly connected component. */
  lemma AfforestCorrect(g: Graph, directed: bool, rounds: nat, c: nat, sampled: seq<seq<nat>>, linked: seq<seq<nat>>,
                        last: seq<nat>, result: seq<nat>)
    requires AfforestRun(g, directed, rounds, c, sampled, linked, last, result)
    requires directed || Undirected(g)
    ensures MinLabels(g, result)
  {
    hide Connected, Touch, Root, Graph.Ok, Phase, Settled, Merged, FinalPlan, SamplePlan;
    LastPhase(g, directed, rounds, c, sampled, linked, last, result);
    forall a: nat, b: nat | g.Edge(a, b)
      ensures SameTree(last, a, b)
    {
      EdgeSettled(g, directed, rounds, c, sampled, linked, last, result, a, b);
      if directed {
        InEdgeSettled(g, rounds, c, sampled, linked, last, result, a, b);
      } else {
        EdgeSettled(g, directed, rounds, c, sampled, linked, last, result, b, a);
      }
    }
    Compress.CompressedRoots(g, last, result);
    StarsAreMinLabels(g, result);
  }
}
