/** Every run of the thread-by-thread hand-over comes to a run of the simple delta-stepping machine. */
module HandoverRefines {
  import D = DeltaStepping
  import opened Handover

  // ----- Bins are below the index that stands for none -----

  ghost predicate SmallThread(c: D.Config, th: D.Thread) {
    match th
    case Idle => true
    case AtEdge(_, _) => true
    case HaveOld(_, _, before) => before <= c.inf
    case Trying(_, _, before, _) => before <= c.inf
    case Pushing(_, _, _, d) => d < c.inf
  }

  ghost predicate Small(c: D.Config, s: D.State) {
    && (forall t :: 0 <= t < |s.threads| ==> SmallThread(c, s.threads[t]))
    && (forall t, e :: 0 <= t < |s.bins| && e in s.bins[t] ==> e.bin < c.inf)
  }

  lemma BinBelow(c: D.Config, d: nat)
    requires c.delta > 0
    ensures c.Bin(d) <= d
  {
    D.BinFloor(c.delta, d, d + 1);
    AtLeastSelf(c.delta, d + 1);
  }

  lemma AtLeastSelf(k: nat, x: nat)
    requires k > 0
    ensures k * x >= x
  {
  }

  lemma SmallKeeps(c: D.Config, s: D.State, a: D.Action, s': D.State)
    requires D.Inv(c, s) && D.Next(c, s, a, s') && Small(c, s)
    ensures Small(c, s')
  {
    InvBasics(c, s);
    hide D.Covered, D.EntryOk, D.HasWalk, D.Config.Bin, D.ThreadOk, D.Inv;
    match a
    case Advance(next) => SmallBins(c, s, next);
    case Fuse(t, i) => D.WithoutMembers(s.bins[t], i);
    case File(t) => BinBelow(c, s.threads[t].d);
    case ReadOld(t) => DistSmall(c, s, c.out[s.threads[t].u][s.threads[t].k].v);
    case Retry(t) => DistSmall(c, s, c.out[s.threads[t].u][s.threads[t].k].v);
    case _ =>
  }

  lemma InvBasics(c: D.Config, s: D.State)
    requires D.Inv(c, s)
    ensures c.Ok() && D.Sized(c, s)
  {
  }

  lemma DistSmall(c: D.Config, s: D.State, v: nat)
    requires D.Inv(c, s) && v < |s.dist|
    ensures s.dist[v] <= c.inf
  {
    assert D.DistOk(c, s, v);
  }

  lemma SmallBins(c: D.Config, s: D.State, next: nat)
    requires Small(c, s)
    ensures forall t, e :: 0 <= t < |s.bins| && e in D.Leave(s.bins, next)[t] ==> e.bin < c.inf
  {
    forall t, e | 0 <= t < |s.bins| && e in D.Leave(s.bins, next)[t]
      ensures e.bin < c.inf
    {
      D.SplitMembers(s.bins[t], next);
      assert e in s.bins[t];
    }
  }

  /** A local action does not depend on the frontier. */
  lemma FrameNext(c: D.Config, s: D.State, a: D.Action, v: D.State, frontier: seq<nat>)
    requires c.Ok() && D.Sized(c, s) && (IsLocal(a) || a.Fuse?) && D.Next(c, s, a, v)
    ensures D.Next(c, s.(frontier := frontier), a, v.(frontier := frontier))
    ensures v.curr == s.curr && v.frontier == s.frontier
  {
  }

  // ----- The correspondence -----

  ghost predicate InStage(m: State, t: nat, h: nat)
    requires t < |m.at| == |m.iter|
  {
    Stage(m, t) == h || (Stage(m, t) + 1 == h && Waiting(m.at[t]))
  }

  ghost predicate Stages(m: State, h: nat) {
    |m.at| == |m.iter| && forall t :: 0 <= t < |m.at| ==> InStage(m, t, h)
  }

  /** Only threads in the frontier loop or fusing relax anything. */
  ghost predicate Resting(m: State) {
    |m.threads| == |m.at| && forall t :: 0 <= t < |m.at| ==>
          m.threads[t] == D.Idle || m.at[t] == Looping || m.at[t] == Fusing
  }

  /** Nothing is handed out for later iterations. */
  ghost predicate Tagged(m: State, i: nat) {
    (forall x :: x in m.owner ==> x.0 <= i && m.owner[x] < |m.at|) && forall x :: x in m.begun ==> x.0 <= i
  }

  /** The next index is the least bin of the threads that have proposed. */
  ghost predicate Proposed(p: Setup, m: State, i: nat)
    requires Sized(p, m)
  {
    var next := m.index[(i + 1) % 2];
    && next <= p.maxBin
    && (next < p.maxBin ==> exists t, e :: 0 <= t < |m.at| && m.at[t] == AtFirst && e in m.bins[t] && e.bin == next)
    && (forall t, e :: 0 <= t < |m.at| && m.at[t] == AtFirst && e in m.bins[t] ==> next <= e.bin)
  }

  /** Threads past the shared loop have begun all they were given. */
  ghost predicate Loops(m: State)
    requires |m.at| == |m.iter| && |m.tail| == 2
  {
    forall t :: 0 <= t < |m.at| && PastLoop(m.at[t]) ==> LoopOver(m, t)
  }

  predicate PastLoop(at: Place) {
    at == Fusing || at == AtFirst
  }

  ghost predicate Running(p: Setup, m: State, i: nat, s: D.State)
    requires Sized(p, m)
  {
    && s.curr == m.index[i % 2]
    && (forall j: nat :: j < m.tail[i % 2] ==> j in m.cells)
    && Loops(m)
    && multiset(s.frontier) == multiset(Undone(m.cells, m.tail[i % 2], i, m.begun))
    && (forall t :: 0 <= t < |m.at| ==> m.at[t] != Out)
  }

  ghost predicate Ended(m: State, s: D.State) {
    D.Done(s) && forall t :: 0 <= t < |m.at| ==> m.at[t] == Enter || m.at[t] == Out || m.at[t] == AtSecond
  }

  /** Iteration i up to its first barrier. The slots of the next one are as good as new but for the proposals. */
  ghost predicate FirstHalf(p: Setup, m: State, i: nat, s: D.State)
    requires Sized(p, m)
  {
    && Stages(m, 2 * i) && Resting(m) && Tagged(m, i) && m.singles == i && m.tail[(i + 1) % 2] == 0
    && s.dist == m.dist && s.threads == m.threads && s.bins == m.bins
    && Proposed(p, m, i)
    && if m.index[i % 2] == p.maxBin then Ended(m, s) else Running(p, m, i, s)
  }

  ghost predicate AllIdle(m: State) {
    forall t :: 0 <= t < |m.threads| ==> m.threads[t] == D.Idle
  }

  /** Somebody has reset the old slots, is about to, or nobody has come to it yet. */
  ghost predicate Resets(p: Setup, m: State, i: nat)
    requires Sized(p, m)
  {
    && i <= m.singles <= i + 1
    && (m.singles == i ==> forall t :: 0 <= t < |m.at| ==> m.at[t] == AtFirst || m.at[t] == Past)
    && (forall t :: 0 <= t < |m.at| && m.at[t] == ResetTail ==> m.index[i % 2] == p.maxBin)
    && (m.singles == i + 1 ==>
          || (exists t :: 0 <= t < |m.at| && m.at[t] == ResetIndex)
          || (m.index[i % 2] == p.maxBin && ((exists t :: 0 <= t < |m.at| && m.at[t] == ResetTail)
                || m.tail[i % 2] == 0)))
  }

  /** A thread that copies has a place that is planned for its part; one that is done has nothing left. */
  ghost predicate CopyOk(m: State, t: nat, plan: seq<nat>)
    requires t < |m.at| == |m.bins| == |m.iter| && |m.index| == 2
  {
    && (m.at[t].Copying? ==>
          var start, part := m.at[t].start, Part(m, t);
          start + |part| <= |plan| && plan[start..start + |part|] == part && m.at[t].k <= |part|)
    && (m.at[t] == AtSecond ==> Part(m, t) == [])
  }

  ghost predicate Covers(m: State, t: nat, j: nat)
    requires t < |m.at| == |m.bins| == |m.iter| && |m.index| == 2
  {
    m.at[t].Copying? && m.at[t].start + m.at[t].k <= j < m.at[t].start + |Part(m, t)|
  }

  ghost predicate Written(p: Setup, m: State, plan: seq<nat>, j: nat)
    requires Sized(p, m) && j < |plan|
  {
    (j in m.cells && m.cells[j] == plan[j]) || exists t :: 0 <= t < |m.at| && Covers(m, t, j)
  }

  /** plan is the next frontier as far as places in it are reserved. */
  ghost predicate Copies(p: Setup, m: State, i: nat, s: D.State, plan: seq<nat>)
    requires Sized(p, m)
  {
    var next := m.index[(i + 1) % 2];
    && s.curr == next && s.bins == D.Leave(m.bins, next) && m.tail[(i + 1) % 2] == |plan|
    && multiset(s.frontier) == multiset(plan) + multiset(Pending(m.bins, m.at, next, |m.bins|))
    && (forall t :: 0 <= t < |m.at| ==> CopyOk(m, t, plan))
    && (forall j :: 0 <= j < |plan| ==> Written(p, m, plan, j))
  }

  ghost predicate NoneLeft(p: Setup, m: State, i: nat, s: D.State)
    requires Sized(p, m)
  {
    D.Done(s) && s.bins == m.bins && m.tail[(i + 1) % 2] == 0 && forall t :: 0 <= t < |m.at| ==> !m.at[t].Copying?
  }

  /** Iteration i after its first barrier. */
  ghost predicate SecondPart(p: Setup, m: State, i: nat, s: D.State, plan: seq<nat>)
    requires Sized(p, m)
  {
    && Stages(m, 2 * i + 1) && AllIdle(m) && Tagged(m, i)
    && s.dist == m.dist && s.threads == m.threads && Resets(p, m, i)
    && if m.index[(i + 1) % 2] == p.maxBin then NoneLeft(p, m, i, s) else Copies(p, m, i, s, plan)
  }

  /** The simple machine's state that goes with a state of this one, and where in an iteration that is. */
  datatype Shadow = Shadow(s: D.State, i: nat, second: bool, plan: seq<nat>)

  ghost predicate Rel(p: Setup, m: State, w: Shadow) {
    && p.Ok() && Sized(p, m) && D.Inv(p.c, w.s) && Small(p.c, w.s)
    && if w.second then SecondPart(p, m, w.i, w.s, w.plan) else FirstHalf(p, m, w.i, w.s)
  }

  lemma InitRel(p: Setup, m: State, s: D.State)
    requires p.Ok() && Init(p, m) && D.Init(p.c, s)
    ensures Rel(p, m, Shadow(s, 0, false, []))
  {
    D.InitHolds(p.c, s);
    assert Undone(m.cells, 1, 0, {}) == Undone(m.cells, 0, 0, {}) + [p.c.source];
    assert Undone(m.cells, 1, 0, {}) == [p.c.source];
  }

  // ----- The first half -----

  lemma StageMoves(m: State, m': State, t: nat, h: nat)
    requires Stages(m, h) && t < |m.at| == |m'.at| && m'.at == m.at[t := m'.at[t]] && |m'.iter| == |m.at|
    requires forall q :: 0 <= q < |m.at| && q != t ==> m'.iter[q] == m.iter[q]
    requires InStage(m', t, h)
    ensures Stages(m', h)
  {
    forall q | 0 <= q < |m'.at|
      ensures InStage(m', q, h)
    {
      assert InStage(m, q, h);
    }
  }

  lemma ProposalsKept(p: Setup, m: State, m': State, i: nat)
    requires Sized(p, m) && Sized(p, m') && Proposed(p, m, i) && m'.index == m.index
    requires forall q :: 0 <= q < |m.at| ==> (m'.at[q] == AtFirst <==> m.at[q] == AtFirst)
    requires forall q :: 0 <= q < |m.at| && m.at[q] == AtFirst ==> m'.bins[q] == m.bins[q]
    ensures Proposed(p, m', i)
  {
    if m.index[(i + 1) % 2] < p.maxBin {
      var t, e :| 0 <= t < |m.at| && m.at[t] == AtFirst && e in m.bins[t] && e.bin == m.index[(i + 1) % 2];
      assert e in m'.bins[t];
    }
  }

  lemma LoopsKept(m: State, m': State)
    requires |m.at| == |m.iter| == |m'.at| && |m.tail| == 2 && Loops(m) && m'.iter == m.iter && m'.tail == m.tail
    requires forall q :: 0 <= q < |m.at| && PastLoop(m'.at[q]) ==> PastLoop(m.at[q]) || LoopOver(m, q)
    requires (forall x :: x in m.owner ==> x in m'.owner && m'.owner[x] == m.owner[x]) && m.begun <= m'.begun
    ensures Loops(m')
  {
    forall q | 0 <= q < |m'.at| && PastLoop(m'.at[q])
      ensures LoopOver(m', q)
    {
      assert LoopOver(m, q);
      forall j: nat | j < m'.tail[m'.iter[q] % 2]
        ensures HandedOut(m', q, m'.iter[q], j)
      {
        assert HandedOut(m, q, m.iter[q], j);
      }
    }
  }

  lemma TestKeeps(p: Setup, m: State, t: nat, m': State, i: nat, s: D.State)
    requires p.Ok() && Sized(p, m) && FirstHalf(p, m, i, s) && t < p.c.workers && Tests(p, m, t, m')
    ensures Sized(p, m') && FirstHalf(p, m', i, s)
  {
    hide D.Done, Undone, LoopOver, Stages, Loops, Proposed;
    OwnStage(m, t, 2 * i);
    StageMoves(m, m', t, 2 * i);
    ProposalsKept(p, m, m', i);
    if m.index[i % 2] != p.maxBin {
      LoopsKept(m, m');
    }
  }

  lemma OwnStage(m: State, t: nat, h: nat)
    requires Stages(m, h) && t < |m.at|
    ensures InStage(m, t, h)
  {
  }

  lemma ClaimKeeps(p: Setup, m: State, t: nat, j: nat, m': State, i: nat, s: D.State)
    requires p.Ok() && Sized(p, m) && FirstHalf(p, m, i, s) && t < p.c.workers && Claims(p, m, t, j, m')
    ensures Sized(p, m') && FirstHalf(p, m', i, s)
  {
    hide D.Done, Undone, LoopOver, Stages, Loops, Proposed;
    OwnStage(m, t, 2 * i);
    StageMoves(m, m', t, 2 * i);
    ProposalsKept(p, m, m', i);
    if m.index[i % 2] != p.maxBin {
      LoopsKept(m, m');
    }
  }

  lemma LeaveKeeps(p: Setup, m: State, t: nat, m': State, i: nat, s: D.State)
    requires p.Ok() && Sized(p, m) && FirstHalf(p, m, i, s) && t < p.c.workers && Leaves(p, m, t, m')
    ensures Sized(p, m') && FirstHalf(p, m', i, s)
  {
    hide D.Done, Undone, LoopOver, Stages, Loops, Proposed;
    OwnStage(m, t, 2 * i);
    StageMoves(m, m', t, 2 * i);
    ProposalsKept(p, m, m', i);
    if m.index[i % 2] != p.maxBin {
      LoopsKept(m, m');
    }
  }

  lemma ProposeKeeps(p: Setup, m: State, t: nat, m': State, i: nat, s: D.State)
    requires p.Ok() && Sized(p, m) && FirstHalf(p, m, i, s) && t < p.c.workers && Proposes(p, m, t, m')
    requires D.Inv(p.c, s)
    ensures Sized(p, m') && FirstHalf(p, m', i, s)
  {
    hide D.Done, Undone, LoopOver, Stages, Loops, Proposed, D.Inv;
    OwnStage(m, t, 2 * i);
    StageMoves(m, m', t, 2 * i);
    assert m.index[i % 2] != p.maxBin;
    LoopsKept(m, m');
    AboveCurrent(p.c, s, t);
    ProposalJoins(p, m, t, m', i);
  }

  lemma AboveCurrent(c: D.Config, s: D.State, t: nat)
    requires D.Inv(c, s) && t < c.workers
    ensures forall e :: e in s.bins[t] ==> e.bin >= s.curr
  {
    forall e | e in s.bins[t]
      ensures e.bin >= s.curr
    {
      assert D.EntryOk(c, s, e);
    }
  }

  lemma ProposalJoins(p: Setup, m: State, t: nat, m': State, i: nat)
    requires p.Ok() && Sized(p, m) && Sized(p, m') && Proposed(p, m, i) && t < |m.at| && m.at[t] == Fusing
    requires m'.at == m.at[t := AtFirst] && m'.bins == m.bins && forall e :: e in m.bins[t] ==> e.bin >= m.index[i % 2]
    requires m'.index[(i + 1) % 2] == Min(m.index[(i + 1) % 2], LeastFrom(m.bins[t], m.index[i % 2], p.maxBin))
    ensures Proposed(p, m', i)
  {
    var next, next', own := m.index[(i + 1) % 2], m'.index[(i + 1) % 2], LeastFrom(m.bins[t], m.index[i % 2], p.maxBin);
    LeastFromIs(m.bins[t], m.index[i % 2], p.maxBin);
    if next' < p.maxBin {
      if own < next {
        var e :| e in m.bins[t] && e.bin == own;
        assert m'.at[t] == AtFirst && e in m'.bins[t];
      } else {
        var q, e :| 0 <= q < |m.at| && m.at[q] == AtFirst && e in m.bins[q] && e.bin == next;
        assert m'.at[q] == AtFirst && e in m'.bins[q];
      }
    }
  }

  lemma TakeKeeps(p: Setup, m: State, t: nat, j: nat, m': State, i: nat, s: D.State) returns (s': D.State)
    requires p.Ok() && Sized(p, m) && FirstHalf(p, m, i, s) && t < p.c.workers && Takes(p, m, t, j, m') && D.Inv(p.c, s)
    ensures Sized(p, m') && FirstHalf(p, m', i, s') && D.Steps(p.c, s, s')
  {
    hide D.Done, Undone, LoopOver, Stages, Loops, Proposed, D.Inv, D.Steps;
    OwnStage(m, t, 2 * i);
    StageMoves(m, m', t, 2 * i);
    ProposalsKept(p, m, m', i);
    LoopsKept(m, m');
    var frontier := Taken(p, m, t, j, m', i, s);
    s' := s.(frontier := frontier, threads := m'.threads);
  }

  lemma Taken(p: Setup, m: State, t: nat, j: nat, m': State, i: nat, s: D.State) returns (frontier: seq<nat>)
    requires p.Ok() && Sized(p, m) && Running(p, m, i, s) && t < p.c.workers && Takes(p, m, t, j, m') && D.Inv(p.c, s)
    requires m.iter[t] == i && s.dist == m.dist && s.threads == m.threads
    ensures multiset(frontier) == multiset(Undone(m.cells, m.tail[i % 2], i, m'.begun))
    ensures D.Steps(p.c, s, s.(frontier := frontier, threads := m'.threads))
  {
    hide Undone, Loops, D.Inv, D.Steps;
    UndoneTake(m.cells, m.tail[i % 2], i, m.begun, j);
    frontier := TakeStep(p.c, s, t, m.cells[j], m'.threads);
    Cancel(multiset(frontier), multiset(Undone(m.cells, m.tail[i % 2], i, m'.begun)), m.cells[j]);
  }

  lemma Cancel(a: multiset<nat>, b: multiset<nat>, x: nat)
    requires a + multiset{x} == b + multiset{x}
    ensures a == b
  {
    assert a == a + multiset{x} - multiset{x} && b == b + multiset{x} - multiset{x};
  }

  lemma TakeStep(c: D.Config, s: D.State, t: nat, u: nat, threads: seq<D.Thread>) returns (frontier: seq<nat>)
    requires D.Inv(c, s) && t < c.workers && s.threads[t] == D.Idle && u in multiset(s.frontier) && u < |s.dist|
    requires threads == if s.dist[u] >= c.delta * s.curr then s.threads[t := D.AtEdge(u, 0)] else s.threads
    ensures D.Steps(c, s, s.(frontier := frontier, threads := threads))
    ensures multiset(s.frontier) == multiset(frontier) + multiset{u}
  {
    hide D.Covered, D.EntryOk, D.DistOk, D.ThreadOk;
    var k :| 0 <= k < |s.frontier| && s.frontier[k] == u;
    WithoutMultiset(s.frontier, k);
    frontier := D.Without(s.frontier, k);
    var s' := s.(frontier := frontier, threads := threads);
    if s.dist[u] >= c.delta * s.curr {
      assert D.Next(c, s, D.Take(t, k), s');
    } else {
      assert D.Next(c, s, D.Skip(k), s');
    }
  }

  lemma WithoutMultiset(f: seq<nat>, k: nat)
    requires k < |f|
    ensures multiset(f) == multiset(D.Without(f, k)) + multiset{f[k]}
  {
    assert f == f[..k] + [f[k]] + f[k + 1..];
  }

  lemma WorkKeeps(p: Setup, m: State, t: nat, a: D.Action, v: D.State, m': State, i: nat, s: D.State)
    returns (s': D.State)
    requires p.Ok() && Sized(p, m) && FirstHalf(p, m, i, s) && t < p.c.workers && Works(p, m, t, a, v, m')
          && D.Inv(p.c, s)
    ensures Sized(p, m') && FirstHalf(p, m', i, s') && D.Steps(p.c, s, s')
  {
    hide D.Done, Undone, LoopOver, Stages, Loops, Proposed, D.Inv, D.Next, D.Steps;
    OwnStage(m, t, 2 * i);
    OneThread(p.c, View(m, m.index[i % 2]), a, v);
    StageMoves(m, m', t, 2 * i);
    ProposalsKept(p, m, m', i);
    LoopsKept(m, m');
    WorkStep(p, m, a, v, i, s);
    s' := v.(frontier := s.frontier);
  }

  lemma WorkStep(p: Setup, m: State, a: D.Action, v: D.State, i: nat, s: D.State)
    requires p.Ok() && Sized(p, m) && D.Sized(p.c, s) && (IsLocal(a) || a.Fuse?)
          && D.Next(p.c, View(m, m.index[i % 2]), a, v)
    requires s.dist == m.dist && s.threads == m.threads && s.bins == m.bins && s.curr == m.index[i % 2]
    ensures D.Steps(p.c, s, v.(frontier := s.frontier)) && v.curr == s.curr
  {
    hide D.Next;
    FrameNext(p.c, View(m, m.index[i % 2]), a, v, s.frontier);
    assert s == View(m, m.index[i % 2]).(frontier := s.frontier);
    assert D.Next(p.c, s, a, v.(frontier := s.frontier));
  }

  /** A local action changes only its own thread and bins. */
  lemma OneThread(c: D.Config, s: D.State, a: D.Action, v: D.State)
    requires c.Ok() && D.Sized(c, s) && (IsLocal(a) || a.Fuse?) && D.Next(c, s, a, v)
    ensures D.Sized(c, v) && a.t < c.workers
    ensures forall q :: 0 <= q < c.workers && q != a.t ==> v.threads[q] == s.threads[q] && v.bins[q] == s.bins[q]
  {
  }

  // ----- The first barrier -----

  lemma AllBegun(p: Setup, m: State, i: nat, j: nat)
    requires Sized(p, m) && p.c.workers > 0 && Stages(m, 2 * i) && Loops(m) && Tagged(m, i) && j < m.tail[i % 2]
    requires forall q :: 0 <= q < |m.at| ==> m.at[q] == AtFirst
    ensures (i, j) in m.begun
  {
    assert InStage(m, 0, 2 * i) && m.at[0] == AtFirst;
    assert LoopOver(m, 0) && HandedOut(m, 0, i, j);
    var o := m.owner[(i, j)];
    assert InStage(m, o, 2 * i) && m.at[o] == AtFirst;
    assert LoopOver(m, o) && HandedOut(m, o, i, j);
  }

  /** Everything is begun and done when the first thread passes. */
  lemma AllArrived(p: Setup, m: State, i: nat, s: D.State)
    requires p.Ok() && Sized(p, m) && FirstHalf(p, m, i, s) && forall q :: 0 <= q < |m.at| ==> m.at[q] == AtFirst
    ensures m.index[i % 2] != p.maxBin && D.Quiet(s)
  {
    hide D.Done, Stages, Proposed, Loops, LoopOver;
    assert m.at[0] == AtFirst;
    forall j: nat | j < m.tail[i % 2]
      ensures (i, j) in m.begun
    {
      AllBegun(p, m, i, j);
    }
    UndoneNone(m.cells, m.tail[i % 2], i, m.begun);
    assert |multiset(s.frontier)| == 0;
  }

  /** The first thread to pass: the simple machine advances, or is done. */
  lemma FirstOpens(p: Setup, m: State, t: nat, m': State, i: nat, s: D.State) returns (s': D.State)
    requires p.Ok() && Sized(p, m) && FirstHalf(p, m, i, s) && t < p.c.workers && PassesFirst(p, m, t, m')
    requires D.Inv(p.c, s) && Small(p.c, s)
    ensures Sized(p, m') && SecondPart(p, m', i, s', [])
    ensures if m.index[(i + 1) % 2] == p.maxBin then s' == s else D.Steps(p.c, s, s')
  {
    hide D.Done, D.Inv, D.Steps, LoopOver, D.Leave, D.Gather, Loops, Small, Stages, Released, Proposed, Running, Copies;
    Arrivals(m, t, i);
    AllArrived(p, m, i, s);
    var next := m.index[(i + 1) % 2];
    PassedStages(m, t, m', 2 * i);
    if next == p.maxBin {
      NothingFiled(p, m, i, s);
      s' := s;
    } else {
      Proposal(p, m, i, s);
      s' := s.(curr := next, frontier := D.Gather(s.bins, next), bins := D.Leave(s.bins, next));
      AdvanceStep(p.c, s, next, s');
      CopiesStart(p, m', i, s');
    }
  }

  lemma CopiesStart(p: Setup, m: State, i: nat, s: D.State)
    requires Sized(p, m) && m.tail[(i + 1) % 2] == 0 && s.curr == m.index[(i + 1) % 2]
    requires s.frontier == D.Gather(m.bins, s.curr) && s.bins == D.Leave(m.bins, s.curr)
    requires forall q :: 0 <= q < |m.at| ==> m.at[q] == AtFirst || m.at[q] == Past
    ensures Copies(p, m, i, s, [])
  {
    hide Pending, D.Chosen, D.Leave, D.Gather;
    PendingStart(m.bins, m.at, s.curr, |m.bins|);
    assert m.bins[..|m.bins|] == m.bins;
  }

  lemma Arrivals(m: State, t: nat, i: nat)
    requires Stages(m, 2 * i) && t < |m.at| && m.at[t] == AtFirst && Released(m, t)
    ensures forall q :: 0 <= q < |m.at| ==> m.at[q] == AtFirst
  {
    forall q | 0 <= q < |m.at|
      ensures m.at[q] == AtFirst
    {
      assert InStage(m, q, 2 * i) && InStage(m, t, 2 * i);
    }
  }

  lemma PassedStages(m: State, t: nat, m': State, h: nat)
    requires Stages(m, h) && t < |m.at| && (forall q :: 0 <= q < |m.at| ==> m.at[q] == AtFirst) && m' == Go(m, t, Past)
    requires h % 2 == 0
    ensures Stages(m', h + 1)
  {
    var h' := h + 1;
    forall q | 0 <= q < |m'.at|
      ensures InStage(m', q, h')
    {
      assert InStage(m, q, h) && m.at[q] == AtFirst;
    }
  }

  /** In the second half all threads are in the same iteration. */
  lemma OneIteration(m: State, i: nat)
    requires Stages(m, 2 * i + 1)
    ensures forall q :: 0 <= q < |m.iter| ==> m.iter[q] == i
    ensures forall q :: 0 <= q < |m.at| ==> SecondHalf(m.at[q]) || m.at[q] == AtFirst
  {
    var h := 2 * i + 1;
    forall q | 0 <= q < |m.at|
      ensures m.iter[q] == i && (SecondHalf(m.at[q]) || m.at[q] == AtFirst)
    {
      assert InStage(m, q, h);
    }
  }

  lemma NoMembers(es: seq<D.Entry>)
    requires forall e :: e !in es
    ensures es == []
  {
    if es != [] {
      SomeMember(es);
    }
  }

  lemma SomeMember(es: seq<D.Entry>)
    requires es != []
    ensures exists e :: e in es
  {
    assert es[0] in es;
  }

  lemma NothingFiled(p: Setup, m: State, i: nat, s: D.State)
    requires p.Ok() && Sized(p, m) && Proposed(p, m, i) && m.index[(i + 1) % 2] == p.maxBin && s.bins == m.bins
    requires Small(p.c, s) && D.Quiet(s) && forall q :: 0 <= q < |m.at| ==> m.at[q] == AtFirst
    ensures D.Done(s)
  {
    forall t | 0 <= t < |s.bins|
      ensures s.bins[t] == []
    {
      assert m.at[t] == AtFirst;
      forall e: D.Entry
        ensures e !in s.bins[t]
      {
        assert e in m.bins[t] ==> p.maxBin <= e.bin;
      }
      NoMembers(s.bins[t]);
    }
  }

  lemma Proposal(p: Setup, m: State, i: nat, s: D.State)
    requires p.Ok() && Sized(p, m) && Proposed(p, m, i) && m.index[(i + 1) % 2] != p.maxBin && s.bins == m.bins
    requires forall q :: 0 <= q < |m.at| ==> m.at[q] == AtFirst
    ensures D.LeastBin(s, m.index[(i + 1) % 2])
  {
    var t, e :| 0 <= t < |m.at| && m.at[t] == AtFirst && e in m.bins[t] && e.bin == m.index[(i + 1) % 2];
    assert e in s.bins[t];
    forall t, e | 0 <= t < |s.bins| && e in s.bins[t]
      ensures e.bin >= m.index[(i + 1) % 2]
    {
      assert m.at[t] == AtFirst;
    }
  }

  lemma AdvanceStep(c: D.Config, s: D.State, next: nat, s': D.State)
    requires D.Inv(c, s) && D.Quiet(s) && D.LeastBin(s, next)
    requires s' == s.(curr := next, frontier := D.Gather(s.bins, next), bins := D.Leave(s.bins, next))
    ensures D.Steps(c, s, s')
  {
    assert D.Next(c, s, D.Advance(next), s');
  }

  /** A thread that passes the first barrier later. */
  lemma FirstFollows(p: Setup, m: State, t: nat, m': State, i: nat, s: D.State, plan: seq<nat>)
    requires p.Ok() && Sized(p, m) && SecondPart(p, m, i, s, plan) && t < p.c.workers && PassesFirst(p, m, t, m')
    ensures Sized(p, m') && SecondPart(p, m', i, s, plan)
  {
    hide D.Done, D.Leave, Stages, Copies, Resets, Released;
    OneIteration(m, i);
    OwnStage(m, t, 2 * i + 1);
    StageMoves(m, m', t, 2 * i + 1);
    ResetsKept(p, m, m', t, i);
    if m.index[(i + 1) % 2] != p.maxBin {
      CopiesKept(p, m, m', t, i, s, plan);
    }
  }

  lemma ResetsKept(p: Setup, m: State, m': State, t: nat, i: nat)
    requires Sized(p, m) && Sized(p, m') && Resets(p, m, i) && t < |m.at| && m'.at == m.at[t := m'.at[t]]
    requires m'.singles == m.singles && m'.index[i % 2] == m.index[i % 2] && m'.tail[i % 2] == m.tail[i % 2]
    requires m.at[t] != ResetIndex && m.at[t] != ResetTail && m'.at[t] != ResetTail
    requires m.singles == i ==> m'.at[t] == AtFirst || m'.at[t] == Past
    ensures Resets(p, m', i)
  {
    if q :| 0 <= q < |m.at| && m.at[q] == ResetIndex {
      assert m'.at[q] == ResetIndex;
    } else if q :| 0 <= q < |m.at| && m.at[q] == ResetTail {
      assert m'.at[q] == ResetTail;
    }
  }

  /** A thread moves on without touching what is copied. */
  lemma CopiesKept(p: Setup, m: State, m': State, t: nat, i: nat, s: D.State, plan: seq<nat>)
    requires Sized(p, m) && Sized(p, m') && Copies(p, m, i, s, plan) && t < |m.at| && m'.at == m.at[t := m'.at[t]]
    requires m'.bins == m.bins && m'.iter == m.iter && m'.cells == m.cells
    requires m'.index[(i + 1) % 2] == m.index[(i + 1) % 2] && m'.tail[(i + 1) % 2] == m.tail[(i + 1) % 2]
    requires forall q :: 0 <= q < |m.iter| ==> m.iter[q] == i
    requires Unreserved(m.at[t]) && Unreserved(m'.at[t])
    ensures Copies(p, m', i, s, plan)
  {
    hide Pending, D.Chosen, D.Leave;
    PendingAgree(m.bins, m.at, m'.bins, m'.at, m.index[(i + 1) % 2], |m.bins|);
    forall q | 0 <= q < |m'.at|
      ensures CopyOk(m', q, plan)
    {
      assert CopyOk(m, q, plan);
    }
    forall j | 0 <= j < |plan|
      ensures Written(p, m', plan, j)
    {
      assert Written(p, m, plan, j);
      if q :| 0 <= q < |m.at| && Covers(m, q, j) {
        assert Covers(m', q, j);
      }
    }
  }

  // ----- The second half -----

  lemma SingleKeeps(p: Setup, m: State, t: nat, m': State, i: nat, s: D.State, plan: seq<nat>)
    requires p.Ok() && Sized(p, m) && SecondPart(p, m, i, s, plan) && t < p.c.workers && MeetsSingle(p, m, t, m')
    ensures Sized(p, m') && SecondPart(p, m', i, s, plan)
  {
    hide D.Done, D.Leave, Stages, Copies;
    OneIteration(m, i);
    OwnStage(m, t, 2 * i + 1);
    StageMoves(m, m', t, 2 * i + 1);
    if m.singles == i {
      assert m'.at[t] == ResetIndex;
    } else {
      ResetsKept(p, m, m', t, i);
    }
    if m.index[(i + 1) % 2] != p.maxBin {
      CopiesKept(p, m, m', t, i, s, plan);
    }
  }

  lemma WriteIndexKeeps(p: Setup, m: State, t: nat, m': State, i: nat, s: D.State, plan: seq<nat>)
    requires p.Ok() && Sized(p, m) && SecondPart(p, m, i, s, plan) && t < p.c.workers && WritesIndex(p, m, t, m')
    ensures Sized(p, m') && SecondPart(p, m', i, s, plan)
  {
    hide D.Done, D.Leave, Stages, Copies;
    OneIteration(m, i);
    OwnStage(m, t, 2 * i + 1);
    StageMoves(m, m', t, 2 * i + 1);
    assert m'.at[t] == ResetTail;
    if m.index[(i + 1) % 2] != p.maxBin {
      CopiesKept(p, m, m', t, i, s, plan);
    }
  }

  lemma WriteTailKeeps(p: Setup, m: State, t: nat, m': State, i: nat, s: D.State, plan: seq<nat>)
    requires p.Ok() && Sized(p, m) && SecondPart(p, m, i, s, plan) && t < p.c.workers && WritesTail(p, m, t, m')
    ensures Sized(p, m') && SecondPart(p, m', i, s, plan)
  {
    hide D.Done, D.Leave, Stages, Copies;
    OneIteration(m, i);
    OwnStage(m, t, 2 * i + 1);
    StageMoves(m, m', t, 2 * i + 1);
    assert m.at[t] == ResetTail;
    if m.index[(i + 1) % 2] != p.maxBin {
      CopiesKept(p, m, m', t, i, s, plan);
    }
  }

  lemma ReserveKeeps(p: Setup, m: State, t: nat, m': State, i: nat, s: D.State, plan: seq<nat>)
    returns (plan': seq<nat>)
    requires p.Ok() && Sized(p, m) && SecondPart(p, m, i, s, plan) && t < p.c.workers && Reserves(p, m, t, m')
    ensures Sized(p, m') && SecondPart(p, m', i, s, plan')
  {
    hide D.Done, D.Leave, Stages, Copies, Resets, D.Chosen;
    OneIteration(m, i);
    OwnStage(m, t, 2 * i + 1);
    StageMoves(m, m', t, 2 * i + 1);
    SinglesDone(p, m, t, i);
    ResetsKept(p, m, m', t, i);
    plan' := plan + Part(m, t);
    if m.index[(i + 1) % 2] != p.maxBin {
      CopiesReserve(p, m, m', t, i, s, plan);
    }
  }

  lemma SinglesDone(p: Setup, m: State, t: nat, i: nat)
    requires Sized(p, m) && Resets(p, m, i) && t < |m.at| && m.at[t] != AtFirst && m.at[t] != Past
    ensures m.singles == i + 1
  {
  }

  lemma CopiesReserve(p: Setup, m: State, m': State, t: nat, i: nat, s: D.State, plan: seq<nat>)
    requires Sized(p, m) && Sized(p, m') && Copies(p, m, i, s, plan) && t < |m.at| && m.at[t] == Reserving
    requires m'.at == m.at[t := Copying(m.tail[(i + 1) % 2], 0)] && m'.bins == m.bins && m'.iter == m.iter
          && m'.cells == m.cells
    requires m'.index == m.index && m'.tail[(i + 1) % 2] == m.tail[(i + 1) % 2] + |Part(m, t)|
    requires forall q :: 0 <= q < |m.iter| ==> m.iter[q] == i
    ensures Copies(p, m', i, s, plan + Part(m, t))
  {
    hide Pending, D.Chosen, D.Leave;
    var part, plan' := Part(m, t), plan + Part(m, t);
    PendingReserve(m.bins, m.at, m'.at, m.index[(i + 1) % 2], |m.bins|, t);
    assert plan'[|plan|..|plan| + |part|] == part;
    forall q | 0 <= q < |m'.at|
      ensures CopyOk(m', q, plan')
    {
      assert CopyOk(m, q, plan) && Part(m', q) == Part(m, q);
      if q != t && m.at[q].Copying? {
        PrefixSlice(plan, part, m.at[q].start, m.at[q].start + |Part(m, q)|);
      }
    }
    forall j | 0 <= j < |plan'|
      ensures Written(p, m', plan', j)
    {
      if j < |plan| {
        assert Written(p, m, plan, j);
        if q :| 0 <= q < |m.at| && Covers(m, q, j) {
          assert Covers(m', q, j);
        }
      } else {
        assert Covers(m', t, j);
      }
    }
  }

  lemma PrefixSlice(plan: seq<nat>, more: seq<nat>, low: nat, high: nat)
    requires low <= high <= |plan|
    ensures (plan + more)[low..high] == plan[low..high]
  {
  }

  lemma CopyKeeps(p: Setup, m: State, t: nat, m': State, i: nat, s: D.State, plan: seq<nat>)
    requires p.Ok() && Sized(p, m) && SecondPart(p, m, i, s, plan) && t < p.c.workers && CopiesOne(p, m, t, m')
    ensures Sized(p, m') && SecondPart(p, m', i, s, plan)
  {
    hide D.Done, D.Leave, Stages, Copies, Resets, D.Chosen;
    OneIteration(m, i);
    OwnStage(m, t, 2 * i + 1);
    StageMoves(m, m', t, 2 * i + 1);
    SinglesDone(p, m, t, i);
    ResetsKept(p, m, m', t, i);
    CopiesWrite(p, m, m', t, i, s, plan);
  }

  lemma CopiesWrite(p: Setup, m: State, m': State, t: nat, i: nat, s: D.State, plan: seq<nat>)
    requires Sized(p, m) && Sized(p, m') && Copies(p, m, i, s, plan)
    requires t < |m.at| && m.at[t].Copying? && m.at[t].k < |Part(m, t)|
    requires m'.at == m.at[t := Copying(m.at[t].start, m.at[t].k + 1)] && m'.bins == m.bins && m'.iter == m.iter
    requires m'.cells == m.cells[m.at[t].start + m.at[t].k := Part(m, t)[m.at[t].k]] && m'.index == m.index
          && m'.tail == m.tail
    requires forall q :: 0 <= q < |m.iter| ==> m.iter[q] == i
    ensures Copies(p, m', i, s, plan)
  {
    hide Pending, D.Chosen, D.Leave;
    PendingAgree(m.bins, m.at, m'.bins, m'.at, m.index[(i + 1) % 2], |m.bins|);
    var start, k, part := m.at[t].start, m.at[t].k, Part(m, t);
    assert CopyOk(m, t, plan);
    assert plan[start + k] == plan[start..start + |part|][k] == part[k];
    forall q | 0 <= q < |m'.at|
      ensures CopyOk(m', q, plan)
    {
      assert CopyOk(m, q, plan);
    }
    forall j | 0 <= j < |plan|
      ensures Written(p, m', plan, j)
    {
      assert Written(p, m, plan, j);
      if j != start + k {
        if q :| 0 <= q < |m.at| && Covers(m, q, j) {
          assert Covers(m', q, j);
        }
      }
    }
  }

  lemma ClearKeeps(p: Setup, m: State, t: nat, m': State, i: nat, s: D.State, plan: seq<nat>)
    requires p.Ok() && Sized(p, m) && SecondPart(p, m, i, s, plan) && t < p.c.workers && Clears(p, m, t, m')
    ensures Sized(p, m') && SecondPart(p, m', i, s, plan)
  {
    hide D.Done, D.Leave, Stages, Copies, Resets, D.Chosen, D.Rest;
    OneIteration(m, i);
    OwnStage(m, t, 2 * i + 1);
    StageMoves(m, m', t, 2 * i + 1);
    SinglesDone(p, m, t, i);
    ResetsKept(p, m, m', t, i);
    CopiesClear(p, m, m', t, i, s, plan);
  }

  lemma CopiesClear(p: Setup, m: State, m': State, t: nat, i: nat, s: D.State, plan: seq<nat>)
    requires Sized(p, m) && Sized(p, m') && Copies(p, m, i, s, plan)
    requires t < |m.at| && m.at[t].Copying? && m.at[t].k == |Part(m, t)|
    requires m'.at == m.at[t := AtSecond] && m'.bins == m.bins[t := D.Rest(m.bins[t], m.index[(i + 1) % 2])]
    requires m'.iter == m.iter && m'.cells == m.cells && m'.index == m.index && m'.tail == m.tail
    requires forall q :: 0 <= q < |m.iter| ==> m.iter[q] == i
    ensures Copies(p, m', i, s, plan)
  {
    hide Pending, D.Chosen, D.Rest;
    var next := m.index[(i + 1) % 2];
    PendingAgree(m.bins, m.at, m'.bins, m'.at, next, |m.bins|);
    RestTwice(m.bins[t], next);
    assert D.Leave(m'.bins, next) == D.Leave(m.bins, next);
    forall q | 0 <= q < |m'.at|
      ensures CopyOk(m', q, plan)
    {
      assert CopyOk(m, q, plan);
    }
    forall j | 0 <= j < |plan|
      ensures Written(p, m', plan, j)
    {
      assert Written(p, m, plan, j);
      if q :| 0 <= q < |m.at| && Covers(m, q, j) {
        assert Covers(m', q, j);
      }
    }
  }

  // ----- The second barrier -----

  /** The first thread to pass opens the next iteration: the slots have changed roles, and the reused ones are reset. */
  lemma SecondOpens(p: Setup, m: State, t: nat, m': State, i: nat, s: D.State, plan: seq<nat>)
    requires p.Ok() && Sized(p, m) && SecondPart(p, m, i, s, plan) && t < p.c.workers && PassesSecond(p, m, t, m')
    requires forall q :: 0 <= q < |m.at| ==> m.at[q] == AtSecond
    ensures Sized(p, m') && FirstHalf(p, m', i + 1, s)
    ensures m'.index[i % 2] == p.maxBin && m'.tail[i % 2] == 0
  {
    hide D.Done, D.Leave, Stages, Copies, D.Chosen, D.Rest, Released, Running;
    OneIteration(m, i);
    SinglesDone(p, m, t, i);
    NextStages(m, t, m', 2 * i + 1);
    assert (i + 1 + 1) % 2 == i % 2;
    if m.index[(i + 1) % 2] != p.maxBin {
      CopiesEnd(p, m, i, s, plan);
      StartsRunning(p, m, m', i, s, plan);
    }
  }

  lemma StartsRunning(p: Setup, m: State, m': State, i: nat, s: D.State, plan: seq<nat>)
    requires Sized(p, m) && Sized(p, m') && Copies(p, m, i, s, plan) && Tagged(m, i)
    requires m'.cells == m.cells && m'.begun == m.begun && m'.index == m.index && m'.tail == m.tail
    requires forall q :: 0 <= q < |m'.at| ==> m'.at[q] == AtSecond || m'.at[q] == Enter
    requires multiset(s.frontier) == multiset(plan) && forall j: nat :: j < |plan| ==>
          j in m.cells && m.cells[j] == plan[j]
    ensures Running(p, m', i + 1, s)
  {
    hide Undone;
    CopiesSize(p, m, i, s, plan);
    UndoneAll(m.cells, plan, |plan|, i + 1, m.begun);
    assert plan[..|plan|] == plan;
  }

  lemma CopiesSize(p: Setup, m: State, i: nat, s: D.State, plan: seq<nat>)
    requires Sized(p, m) && Copies(p, m, i, s, plan)
    ensures s.curr == m.index[(i + 1) % 2] && m.tail[(i + 1) % 2] == |plan|
  {
  }

  lemma NextStages(m: State, t: nat, m': State, h: nat)
    requires Stages(m, h) && t < |m.at| && (forall q :: 0 <= q < |m.at| ==> m.at[q] == AtSecond)
    requires m' == Go(m, t, Enter).(iter := m.iter[t := m.iter[t] + 1]) && h % 2 == 1
    ensures Stages(m', h + 1)
  {
    var h' := h + 1;
    forall q | 0 <= q < |m'.at|
      ensures InStage(m', q, h')
    {
      assert InStage(m, q, h) && m.at[q] == AtSecond;
    }
  }

  lemma CopiesEnd(p: Setup, m: State, i: nat, s: D.State, plan: seq<nat>)
    requires Sized(p, m) && Copies(p, m, i, s, plan) && forall q :: 0 <= q < |m.at| ==> m.at[q] == AtSecond
    requires forall q :: 0 <= q < |m.iter| ==> m.iter[q] == i
    ensures s.bins == m.bins && multiset(s.frontier) == multiset(plan)
    ensures forall j: nat :: j < |plan| ==> j in m.cells && m.cells[j] == plan[j]
  {
    hide D.Chosen, D.Rest;
    var next := m.index[(i + 1) % 2];
    PendingEnd(m.bins, m.at, next, |m.bins|);
    forall q | 0 <= q < |m.bins|
      ensures s.bins[q] == m.bins[q]
    {
      assert CopyOk(m, q, plan) && m.at[q] == AtSecond;
      RestAll(m.bins[q], next);
    }
    forall j: nat | j < |plan|
      ensures j in m.cells && m.cells[j] == plan[j]
    {
      assert Written(p, m, plan, j);
    }
  }

  /** A thread that passes the second barrier later. */
  lemma SecondFollows(p: Setup, m: State, t: nat, m': State, i: nat, s: D.State)
    requires p.Ok() && Sized(p, m) && FirstHalf(p, m, i, s) && t < p.c.workers && PassesSecond(p, m, t, m')
    ensures Sized(p, m') && FirstHalf(p, m', i, s)
  {
    hide D.Done, Undone, LoopOver, Stages, Loops, Proposed, Released;
    OwnStage(m, t, 2 * i);
    StageMoves(m, m', t, 2 * i);
    ProposalsKept(p, m, m', i);
    if m.index[i % 2] != p.maxBin {
      LoopsLater(m, m', t);
    }
  }

  lemma LoopsLater(m: State, m': State, t: nat)
    requires |m.at| == |m.iter| == |m'.at| == |m'.iter| && |m.tail| == 2 && Loops(m) && t < |m.at|
    requires m' == Go(m, t, Enter).(iter := m'.iter) && forall q :: 0 <= q < |m.at| && q != t ==>
          m'.iter[q] == m.iter[q]
    ensures Loops(m')
  {
    forall q | 0 <= q < |m'.at| && PastLoop(m'.at[q])
      ensures LoopOver(m', q)
    {
      assert LoopOver(m, q);
      forall j: nat | j < m'.tail[m'.iter[q] % 2]
        ensures HandedOut(m', q, m'.iter[q], j)
      {
        assert HandedOut(m, q, m.iter[q], j);
      }
    }
  }

  // ----- Runs -----

  /** Where in the iterations a step leads: the first thread through a barrier opens the next half. */
  ghost predicate Follows(p: Setup, m: State, a: Action, w: Shadow, w': Shadow)
    requires Sized(p, m)
  {
    if a.PassFirst? && !w.second then
      w'.i == w.i && w'.second && (m.index[(w.i + 1) % 2] == p.maxBin ==> w'.s == w.s)
    else if a.PassSecond? && w.second then w'.i == w.i + 1 && !w'.second && w'.s == w.s
    else w'.i == w.i && w'.second == w.second && (!a.Take? && !a.Work? ==> w'.s == w.s)
  }

  /** Every step of this machine is a step of the simple one, or leaves its state as it is. Relaxing a vertex and
      opening a new bin are steps. */
  lemma StepSimulates(p: Setup, m: State, a: Action, m': State, w: Shadow) returns (w': Shadow)
    requires Rel(p, m, w) && Next(p, m, a, m')
    ensures Rel(p, m', w') && Follows(p, m, a, w, w') && (w'.s == w.s || D.Steps(p.c, w.s, w'.s))
    ensures a.Take? || a.Work? || (a.PassFirst? && !w.second && m.index[(w.i + 1) % 2] != p.maxBin) ==>
          D.Steps(p.c, w.s, w'.s)
  {
    hide FirstHalf, SecondPart, Next, D.Inv, Small, D.Steps;
    if w.second {
      w' := SecondSimulates(p, m, a, m', w);
    } else {
      w' := FirstSimulates(p, m, a, m', w);
    }
    if w'.s != w.s {
      StepKeepsSmall(p.c, w.s, w'.s);
    }
  }

  lemma StepKeepsSmall(c: D.Config, s: D.State, s': D.State)
    requires D.Inv(c, s) && Small(c, s) && D.Steps(c, s, s')
    ensures D.Inv(c, s') && Small(c, s')
  {
    hide D.Inv, D.Next, Small;
    var a :| D.Next(c, s, a, s');
    D.StepKeeps(c, s, a, s');
    SmallKeeps(c, s, a, s');
  }

  lemma FirstPlaces(p: Setup, m: State, i: nat, s: D.State, t: nat)
    requires Sized(p, m) && FirstHalf(p, m, i, s) && t < |m.at|
    ensures SecondHalf(m.at[t]) ==> m.at[t] == AtSecond
  {
    OwnStage(m, t, 2 * i);
  }

  lemma SecondPlaces(p: Setup, m: State, i: nat, s: D.State, plan: seq<nat>, t: nat)
    requires Sized(p, m) && SecondPart(p, m, i, s, plan) && t < |m.at|
    ensures SecondHalf(m.at[t]) || m.at[t] == AtFirst
  {
    OneIteration(m, i);
  }

  lemma PlaceOf(p: Setup, m: State, a: Action, m': State)
    requires p.Ok() && Sized(p, m) && Next(p, m, a, m')
    ensures a.t < |m.at|
    ensures a.Test? || a.Claim? || a.Take? || a.Leave? || a.Work? || a.Propose? ==>
              !SecondHalf(m.at[a.t]) && m.at[a.t] != AtFirst
    ensures a.Single? || a.WriteIndex? || a.WriteTail? || a.Reserve? || a.Copy? || a.Clear? ==>
              SecondHalf(m.at[a.t]) && m.at[a.t] != AtSecond
  {
  }

  lemma AllAtSecond(p: Setup, m: State, i: nat, s: D.State, plan: seq<nat>, t: nat, m': State)
    requires p.Ok() && Sized(p, m) && SecondPart(p, m, i, s, plan) && t < p.c.workers && PassesSecond(p, m, t, m')
    ensures forall q :: 0 <= q < |m.at| ==> m.at[q] == AtSecond
  {
    hide Resets, Copies, NoneLeft;
    var h := 2 * i + 1;
    forall q | 0 <= q < |m.at|
      ensures m.at[q] == AtSecond
    {
      assert InStage(m, q, h) && InStage(m, t, h);
    }
  }

  lemma FirstSimulates(p: Setup, m: State, a: Action, m': State, w: Shadow) returns (w': Shadow)
    requires Rel(p, m, w) && Next(p, m, a, m') && !w.second
    ensures Sized(p, m') && Follows(p, m, a, w, w') && (w'.s == w.s || D.Steps(p.c, w.s, w'.s))
    ensures a.Take? || a.Work? || (a.PassFirst? && m.index[(w.i + 1) % 2] != p.maxBin) ==> D.Steps(p.c, w.s, w'.s)
    ensures if w'.second then SecondPart(p, m', w'.i, w'.s, w'.plan) else FirstHalf(p, m', w'.i, w'.s)
  {
    hide FirstHalf, SecondPart, D.Inv, Small, D.Steps, PassesFirst, Released;
    PlaceOf(p, m, a, m');
    FirstPlaces(p, m, w.i, w.s, a.t);
    if a.PassFirst? {
      var s := FirstOpens(p, m, a.t, m', w.i, w.s);
      w' := Shadow(s, w.i, true, []);
    } else {
      var s := InFirst(p, m, a, m', w.i, w.s);
      w' := w.(s := s);
    }
  }

  lemma InFirst(p: Setup, m: State, a: Action, m': State, i: nat, s: D.State) returns (s': D.State)
    requires p.Ok() && Sized(p, m) && D.Inv(p.c, s) && FirstHalf(p, m, i, s) && Next(p, m, a, m') && !a.PassFirst?
    requires a.t < |m.at| && (SecondHalf(m.at[a.t]) ==> m.at[a.t] == AtSecond)
    requires a.Single? || a.WriteIndex? || a.WriteTail? || a.Reserve? || a.Copy? || a.Clear? ==>
               SecondHalf(m.at[a.t]) && m.at[a.t] != AtSecond
    ensures Sized(p, m') && FirstHalf(p, m', i, s') && if a.Take? || a.Work? then D.Steps(p.c, s, s') else s' == s
  {
    hide FirstHalf, SecondHalf, Tests, Claims, Takes, Leaves, Works, Proposes, PassesSecond, D.Inv, D.Steps, Sized;
    hide Setup.Ok;
    s' := s;
    match a
    case Test(t) => TestKeeps(p, m, t, m', i, s);
    case Claim(t, j) => ClaimKeeps(p, m, t, j, m', i, s);
    case Take(t, j) => s' := TakeKeeps(p, m, t, j, m', i, s);
    case Leave(t) => LeaveKeeps(p, m, t, m', i, s);
    case Work(t, b, v) => s' := WorkKeeps(p, m, t, b, v, m', i, s);
    case Propose(t) => ProposeKeeps(p, m, t, m', i, s);
    case PassSecond(t) => SecondFollows(p, m, t, m', i, s);
    case _ =>
  }

  lemma SecondSimulates(p: Setup, m: State, a: Action, m': State, w: Shadow) returns (w': Shadow)
    requires Rel(p, m, w) && Next(p, m, a, m') && w.second
    ensures Sized(p, m') && w'.s == w.s && Follows(p, m, a, w, w') && !a.Take? && !a.Work?
    ensures if w'.second then SecondPart(p, m', w'.i, w'.s, w'.plan) else FirstHalf(p, m', w'.i, w'.s)
  {
    hide FirstHalf, SecondPart, D.Inv, Small;
    PlaceOf(p, m, a, m');
    SecondPlaces(p, m, w.i, w.s, w.plan, a.t);
    if a.PassSecond? {
      AllAtSecond(p, m, w.i, w.s, w.plan, a.t, m');
      SecondOpens(p, m, a.t, m', w.i, w.s, w.plan);
      w' := Shadow(w.s, w.i + 1, false, []);
    } else {
      var plan := InSecond(p, m, a, m', w.i, w.s, w.plan);
      w' := w.(plan := plan);
    }
  }

  lemma InSecond(p: Setup, m: State, a: Action, m': State, i: nat, s: D.State, plan: seq<nat>) returns (plan': seq<nat>)
    requires p.Ok() && Sized(p, m) && SecondPart(p, m, i, s, plan) && Next(p, m, a, m') && !a.PassSecond?
    requires a.t < |m.at| && (SecondHalf(m.at[a.t]) || m.at[a.t] == AtFirst)
    requires a.Test? || a.Claim? || a.Take? || a.Leave? || a.Work? || a.Propose? ==>
               !SecondHalf(m.at[a.t]) && m.at[a.t] != AtFirst
    ensures Sized(p, m') && SecondPart(p, m', i, s, plan') && !a.Take? && !a.Work?
  {
    hide SecondPart, SecondHalf, PassesFirst, MeetsSingle, WritesIndex, WritesTail, Reserves, CopiesOne, Clears;
    hide Sized, Setup.Ok;
    plan' := plan;
    match a
    case PassFirst(t) => FirstFollows(p, m, t, m', i, s, plan);
    case Single(t) => SingleKeeps(p, m, t, m', i, s, plan);
    case WriteIndex(t) => WriteIndexKeeps(p, m, t, m', i, s, plan);
    case WriteTail(t) => WriteTailKeeps(p, m, t, m', i, s, plan);
    case Reserve(t) => plan' := ReserveKeeps(p, m, t, m', i, s, plan);
    case Copy(t) => CopyKeeps(p, m, t, m', i, s, plan);
    case Clear(t) => ClearKeeps(p, m, t, m', i, s, plan);
    case _ =>
  }

  // ----- Whole runs -----

  ghost predicate Moves(p: Setup, m: State, m': State) {
    p.Ok() && Sized(p, m) && exists a :: Next(p, m, a, m')
  }

  ghost predicate Run(p: Setup, run: seq<State>) {
    && p.Ok() && |run| > 0 && Init(p, run[0])
    && forall k :: 0 < k < |run| ==> Moves(p, run[k - 1], run[k])
  }

  /** To every run of this machine there is a run of the simple one that ends in the corresponding state. */
  lemma {:induction false} RunSimulates(p: Setup, run: seq<State>, k: nat) returns (simple: seq<D.State>, w: Shadow)
    requires Run(p, run) && k < |run|
    ensures D.Run(p.c, simple) && w.s == simple[|simple| - 1] && Rel(p, run[k], w)
  {
    hide Rel, D.Init, Init, D.Steps, D.Config.Ok;
    if k == 0 {
      var s := Start(p.c);
      InitRel(p, run[0], s);
      simple, w := [s], Shadow(s, 0, false, []);
    } else {
      var before, v := RunSimulates(p, run, k - 1);
      assert Moves(p, run[k - 1], run[k]);
      var a :| Next(p, run[k - 1], a, run[k]);
      w := StepSimulates(p, run[k - 1], a, run[k], v);
      simple := if w.s == v.s then before else before + [w.s];
      if w.s != v.s {
        RunGrows(p.c, before, w.s);
      }
    }
  }

  ghost function Start(c: D.Config): (s: D.State)
    requires c.Ok()
    ensures D.Init(c, s) && D.Sized(c, s)
  {
    D.State(seq(|c.out|, v => c.inf)[c.source := 0], 0, [c.source], seq(c.workers, _ => []),
          seq(c.workers, _ => D.Idle))
  }

  lemma RunGrows(c: D.Config, run: seq<D.State>, s: D.State)
    requires D.Run(c, run) && D.Steps(c, run[|run| - 1], s)
    ensures D.Run(c, run + [s])
  {
    hide D.Next, D.Init;
    var more := run + [s];
    var a :| D.Next(c, run[|run| - 1], a, s);
    StepSized(c, run[|run| - 1], a, s);
    forall k | 0 < k < |more|
      ensures D.Steps(c, more[k - 1], more[k])
    {
      assert more[k - 1] == run[k - 1];
      assert k < |run| ==> more[k] == run[k];
    }
  }

  lemma StepSized(c: D.Config, s: D.State, a: D.Action, s': D.State)
    requires c.Ok() && D.Sized(c, s) && D.Next(c, s, a, s')
    ensures D.Sized(c, s')
  {
  }

  /** When a thread starts on an iteration, the slots that the next one will use are as at the start of the program. */
  lemma SlotsReused(p: Setup, m: State, w: Shadow)
    requires Rel(p, m, w) && !w.second
    requires forall t :: 0 <= t < |m.at| ==> m.at[t] != AtFirst
    ensures m.index[(w.i + 1) % 2] == p.maxBin && m.tail[(w.i + 1) % 2] == 0
  {
    hide D.Inv, Small, Ended, Running, Stages;
  }

  ghost predicate AllOut(m: State) {
    forall t :: 0 <= t < |m.at| ==> m.at[t] == Out
  }

  lemma OutIsDone(p: Setup, m: State, w: Shadow)
    requires Rel(p, m, w) && AllOut(m)
    ensures D.Done(w.s) && w.s.dist == m.dist
  {
    hide D.Inv, Small, D.Done;
    assert m.at[0] == Out;
    if w.second {
      OneIteration(m, w.i);
    }
  }

  /** However the threads interleave, inside the iterations and in the hand-over between them, a finished run holds
      exactly the shortest distances. */
  lemma HandoverIsShortest(p: Setup, run: seq<State>, v: nat)
    requires Run(p, run) && AllOut(run[|run| - 1]) && v < |p.c.out|
    ensures |run[|run| - 1].dist| == |p.c.out| && D.Shortest(p.c, run[|run| - 1].dist, v)
  {
    hide Rel, D.Done, D.Run;
    var simple, w := RunSimulates(p, run, |run| - 1);
    OutIsDone(p, run[|run| - 1], w);
    D.FinishedIsShortest(p.c, simple, v);
  }
}
