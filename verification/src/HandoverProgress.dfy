/** The thread-by-thread hand-over neither blocks nor runs for ever. */
module HandoverProgress {
  import D = DeltaStepping
  import opened Handover
  import opened HandoverRefines

  // ----- Some thread can always act -----

  lemma BusyActs(p: Setup, m: State, i: nat, s: D.State, t: nat)
    requires p.Ok() && Sized(p, m) && D.Inv(p.c, s) && FirstHalf(p, m, i, s) && t < p.c.workers
          && m.threads[t] != D.Idle
    ensures exists m' :: Moves(p, m, m')
  {
    hide D.Inv, D.Next, Proposed, Loops, D.Done, Undone, Stages, Tagged, D.ThreadAction, D.ThreadResult, D.ThreadOk;
    hide Moves;
    assert m.at[t] == Looping || m.at[t] == Fusing;
    OwnStage(m, t, 2 * i);
    InvBasics(p.c, s);
    ThreadFacts(p.c, s, t);
    D.BusyCanStep(p.c, s, t);
    var a, v := D.ThreadAction(p.c, s, t), D.ThreadResult(p.c, s, t);
    FrameNext(p.c, s, a, v, []);
    assert m.index[i % 2] != p.maxBin;
    assert s.(frontier := []) == View(m, m.index[i % 2]);
    var v' := v.(frontier := []);
    Acts(p, m, Work(t, a, v'), m.(dist := v'.dist, bins := v'.bins, threads := v'.threads));
  }

  lemma ThreadFacts(c: D.Config, s: D.State, t: nat)
    requires D.Inv(c, s) && t < c.workers && s.threads[t] != D.Idle
    ensures D.ThreadOk(c, s, s.threads[t]) && IsLocal(D.ThreadAction(c, s, t)) && D.ThreadAction(c, s, t).t == t
  {
    hide D.Covered, D.EntryOk, D.DistOk, D.HasWalk;
  }

  /** An idle thread in the shared loop is given something, begins it, or leaves. */
  lemma LoopActs(p: Setup, m: State, i: nat, s: D.State, t: nat)
    requires p.Ok() && Sized(p, m) && D.Inv(p.c, s) && FirstHalf(p, m, i, s)
    requires t < p.c.workers && m.threads[t] == D.Idle && m.at[t] == Looping
    ensures exists m' :: Moves(p, m, m')
  {
    hide D.Inv, Proposed, Loops, D.Done, Undone;
    OwnStage(m, t, 2 * i);
    assert m.index[i % 2] != p.maxBin;
    if j: nat :| j < m.tail[i % 2] && (i, j) !in m.owner {
      var m' := m.(owner := m.owner[(i, j) := t]);
      assert Next(p, m, Claim(t, j), m');
      assert Moves(p, m, m');
    } else if j: nat :| j < m.tail[i % 2] && m.owner[(i, j)] == t && (i, j) !in m.begun {
      FrontierVertex(p, m, i, s, j);
      var m' := m.(begun := m.begun + {(i, j)}, threads := Started(p.c, m, t, m.cells[j], m.index[i % 2]));
      assert Next(p, m, Take(t, j), m');
      assert Moves(p, m, m');
    } else {
      assert LoopOver(m, t) by {
        forall j: nat | j < m.tail[m.iter[t] % 2]
          ensures HandedOut(m, t, m.iter[t], j)
        {
        }
      }
      assert Next(p, m, Leave(t), Go(m, t, Fusing));
      assert Moves(p, m, Go(m, t, Fusing));
    }
  }

  lemma FrontierVertex(p: Setup, m: State, i: nat, s: D.State, j: nat)
    requires Sized(p, m) && D.Inv(p.c, s) && Running(p, m, i, s) && j < m.tail[i % 2] && (i, j) !in m.begun
    ensures j in m.cells && m.cells[j] < |p.c.out|
  {
    hide D.Covered, D.EntryOk, D.DistOk, D.ThreadOk, Loops;
    UndoneTake(m.cells, m.tail[i % 2], i, m.begun, j);
    assert m.cells[j] in multiset(s.frontier);
    assert m.cells[j] in s.frontier;
  }

  /** If every thread waits, those who wait at the earlier barrier may pass. */
  lemma WaitersPass(p: Setup, m: State, h: nat, t: nat)
    requires p.Ok() && Sized(p, m) && Stages(m, h) && t < p.c.workers && Waiting(m.at[t])
    requires Stage(m, t) + 1 == h || forall q :: 0 <= q < |m.at| ==> Stage(m, q) == h && Waiting(m.at[q])
    ensures exists m' :: Moves(p, m, m')
  {
    forall q | 0 <= q < |m.at|
      ensures Stage(m, q) > Stage(m, t) || (Stage(m, q) == Stage(m, t) && Waiting(m.at[q]))
    {
      assert InStage(m, q, h) && InStage(m, t, h);
    }
    assert Released(m, t);
    if m.at[t] == AtFirst {
      assert Next(p, m, PassFirst(t), Go(m, t, Past));
      assert Moves(p, m, Go(m, t, Past));
    } else {
      var m' := Go(m, t, Enter).(iter := m.iter[t := m.iter[t] + 1]);
      assert Next(p, m, PassSecond(t), m');
      assert Moves(p, m, m');
    }
  }

  lemma FirstActs(p: Setup, m: State, i: nat, s: D.State)
    requires p.Ok() && Sized(p, m) && D.Inv(p.c, s) && FirstHalf(p, m, i, s) && !AllOut(m)
    ensures exists m' :: Moves(p, m, m')
  {
    hide D.Inv, Proposed, Loops, D.Done, Undone, Stages, Next, Moves;
    if t :| 0 <= t < p.c.workers && m.threads[t] != D.Idle {
      BusyActs(p, m, i, s, t);
    } else if t :| 0 <= t < p.c.workers && m.at[t] == Enter {
      TestActs(p, m, t);
    } else if t :| 0 <= t < p.c.workers && m.at[t] == Looping {
      LoopActs(p, m, i, s, t);
    } else if t :| 0 <= t < p.c.workers && m.at[t] == Fusing {
      ProposeActs(p, m, t);
    } else if t :| 0 <= t < p.c.workers && m.at[t] == AtSecond {
      OwnStage(m, t, 2 * i);
      WaitersPass(p, m, 2 * i, t);
    } else {
      FirstAllWait(p, m, i, s);
      WaitersPass(p, m, 2 * i, 0);
    }
  }

  lemma TestActs(p: Setup, m: State, t: nat)
    requires p.Ok() && Sized(p, m) && t < p.c.workers && m.at[t] == Enter
    ensures exists m' :: Moves(p, m, m')
  {
    var m' := Go(m, t, if m.index[m.iter[t] % 2] == p.maxBin then Out else Looping);
    assert Next(p, m, Test(t), m');
    assert Moves(p, m, m');
  }

  lemma ProposeActs(p: Setup, m: State, t: nat)
    requires p.Ok() && Sized(p, m) && t < p.c.workers && m.at[t] == Fusing && m.threads[t] == D.Idle
    ensures exists m' :: Moves(p, m, m')
  {
    var nxt := (m.iter[t] + 1) % 2;
    var m' := Go(m, t, AtFirst)
      .(index := m.index[nxt := Min(m.index[nxt], LeastFrom(m.bins[t], m.index[m.iter[t] % 2], p.maxBin))]);
    assert Next(p, m, Propose(t), m');
    assert Moves(p, m, m');
  }

  lemma FirstAllWait(p: Setup, m: State, i: nat, s: D.State)
    requires p.Ok() && Sized(p, m) && FirstHalf(p, m, i, s) && !AllOut(m)
    requires forall t :: 0 <= t < p.c.workers ==> m.at[t] == AtFirst || m.at[t] == Out || SecondHalf(m.at[t])
    requires forall t :: 0 <= t < p.c.workers ==> m.at[t] != AtSecond
    ensures forall q :: 0 <= q < |m.at| ==> Stage(m, q) == 2 * i && m.at[q] == AtFirst
  {
    hide D.Done, Proposed, Loops, Undone;
    forall q | 0 <= q < |m.at|
      ensures Stage(m, q) == 2 * i && (m.at[q] == AtFirst || m.at[q] == Out)
    {
      OwnStage(m, q, 2 * i);
    }
  }

  lemma SecondActs(p: Setup, m: State, i: nat, s: D.State, plan: seq<nat>)
    requires p.Ok() && Sized(p, m) && SecondPart(p, m, i, s, plan)
    ensures exists m' :: Moves(p, m, m')
  {
    hide D.Done, Resets, Stages, Next, Moves;
    OneIteration(m, i);
    if t :| 0 <= t < p.c.workers && !Waiting(m.at[t]) {
      CopyBound(p, m, i, s, plan, t);
      PlaceActs(p, m, t);
    } else if t :| 0 <= t < p.c.workers && m.at[t] == AtFirst {
      WaitersPass(p, m, 2 * i + 1, t);
    } else {
      WaitersPass(p, m, 2 * i + 1, 0);
    }
  }

  lemma CopyBound(p: Setup, m: State, i: nat, s: D.State, plan: seq<nat>, t: nat)
    requires Sized(p, m) && SecondPart(p, m, i, s, plan) && t < |m.at|
    ensures m.at[t].Copying? ==> m.at[t].k <= |Part(m, t)|
  {
    hide D.Done, Resets, Stages, Pending;
    assert m.index[(i + 1) % 2] != p.maxBin ==> CopyOk(m, t, plan);
  }

  lemma PlaceActs(p: Setup, m: State, t: nat)
    requires p.Ok() && Sized(p, m) && t < p.c.workers && SecondHalf(m.at[t]) && m.at[t] != AtSecond
    requires m.at[t].Copying? ==> m.at[t].k <= |Part(m, t)|
    ensures exists m' :: Moves(p, m, m')
  {
    hide Moves, Part;
    match m.at[t]
    case Past =>
      Acts(p, m, Single(t), if m.singles == m.iter[t] then Go(m, t, ResetIndex).(singles := m.singles + 1)
            else Go(m, t, Reserving));
    case ResetIndex => Acts(p, m, WriteIndex(t), Go(m, t, ResetTail).(index := m.index[m.iter[t] % 2 := p.maxBin]));
    case ResetTail => Acts(p, m, WriteTail(t), Go(m, t, Reserving).(tail := m.tail[m.iter[t] % 2 := 0]));
    case Reserving => ReserveActs(p, m, t);
    case Copying(_, _) => CopyActs(p, m, t);
  }

  lemma ReserveActs(p: Setup, m: State, t: nat)
    requires p.Ok() && Sized(p, m) && t < p.c.workers && m.at[t] == Reserving
    ensures exists m' :: Moves(p, m, m')
  {
    hide Moves, Part;
    var nxt := (m.iter[t] + 1) % 2;
    if m.index[nxt] == p.maxBin {
      Acts(p, m, Reserve(t), Go(m, t, AtSecond));
    } else {
      Acts(p, m, Reserve(t), Go(m, t, Copying(m.tail[nxt], 0)).(tail := m.tail[nxt := m.tail[nxt] + |Part(m, t)|]));
    }
  }

  lemma CopyActs(p: Setup, m: State, t: nat)
    requires p.Ok() && Sized(p, m) && t < p.c.workers && m.at[t].Copying? && m.at[t].k <= |Part(m, t)|
    ensures exists m' :: Moves(p, m, m')
  {
    hide Moves, Part;
    var start, k := m.at[t].start, m.at[t].k;
    if k < |Part(m, t)| {
      Acts(p, m, Copy(t), Go(m, t, Copying(start, k + 1)).(cells := m.cells[start + k := Part(m, t)[k]]));
    } else {
      Acts(p, m, Clear(t), Go(m, t, AtSecond).(bins := m.bins[t := D.Rest(m.bins[t], m.index[(m.iter[t] + 1) % 2])]));
    }
  }

  lemma Acts(p: Setup, m: State, a: Action, m': State)
    requires p.Ok() && Sized(p, m) && Next(p, m, a, m')
    ensures exists n :: Moves(p, m, n)
  {
    assert Moves(p, m, m');
  }

  /** Until every thread has left the loop, some thread can act: no barrier is waited at in vain. */
  lemma NeverBlocked(p: Setup, m: State, w: Shadow)
    requires Rel(p, m, w) && !AllOut(m)
    ensures exists m' :: Moves(p, m, m')
  {
    hide FirstHalf, SecondPart, D.Inv, Small, Moves, AllOut;
    if w.second {
      SecondActs(p, m, w.i, w.s, w.plan);
    } else {
      FirstActs(p, m, w.i, w.s);
    }
  }

  // ----- Every run ends -----

  /** What is left of the iteration for a thread, apart from relaxing vertices. */
  ghost function PlaceRank(second: bool, place: Place): nat {
    match place
    case AtFirst => if second then 6 else 1
    case Past => 5
    case ResetIndex => 4
    case ResetTail => 3
    case Reserving => 2
    case Copying(_, _) => 1
    case AtSecond => if second then 0 else 5
    case Enter => 4
    case Looping => 3
    case Fusing => 2
    case Out => 0
  }

  ghost function ToCopy(m: State, t: nat): nat
    requires t < |m.bins| == |m.iter| == |m.at| && |m.index| == 2
  {
    if m.at[t].Copying? && m.at[t].k <= |Part(m, t)| then |Part(m, t)| - m.at[t].k
    else if Unreserved(m.at[t]) then |Part(m, t)| else 0
  }

  ghost function ThreadRank(m: State, second: bool, t: nat): nat
    requires t < |m.bins| == |m.iter| == |m.at| && |m.index| == 2
  {
    PlaceRank(second, m.at[t]) + if second then ToCopy(m, t) else 0
  }

  ghost function Ranks(m: State, second: bool): (r: seq<nat>)
    requires |m.bins| == |m.iter| == |m.at| && |m.index| == 2
    ensures |r| == |m.at| && forall t :: 0 <= t < |m.at| ==> r[t] == ThreadRank(m, second, t)
  {
    seq(|m.at|, t requires 0 <= t < |m.at| => ThreadRank(m, second, t))
  }

  ghost function Unclaimed(m: State, i: nat): set<nat>
    requires |m.tail| == 2
  {
    set j: nat | j < m.tail[i % 2] && (i, j) !in m.owner
  }

  ghost function Rank(m: State, w: Shadow): nat
    requires |m.bins| == |m.iter| == |m.at| && |m.index| == |m.tail| == 2
  {
    D.Sum(Ranks(m, w.second)) + if w.second then 0 else |Unclaimed(m, w.i)|
  }

  /** How many halves of iterations may still come without an advance of the simple machine. */
  ghost function Level(p: Setup, m: State, w: Shadow): nat
    requires |m.index| == 2
  {
    if w.second then if m.index[(w.i + 1) % 2] == p.maxBin then 1 else 3
    else if m.index[w.i % 2] == p.maxBin then 0 else 2
  }

  ghost predicate Closer(p: Setup, m: State, w: Shadow, m': State, w': Shadow)
    requires Sized(p, m) && Sized(p, m')
  {
    || D.Decreases(p.c, w.s, w'.s)
    || (w'.s == w.s && Level(p, m', w') < Level(p, m, w))
    || (w'.s == w.s && Level(p, m', w') == Level(p, m, w) && Rank(m', w') < Rank(m, w))
  }

  /** A thread moves on and the others stay. */
  lemma OneRank(p: Setup, m: State, m': State, second: bool, t: nat)
    requires Sized(p, m) && Sized(p, m') && t < |m.at| && ThreadRank(m', second, t) < ThreadRank(m, second, t)
    requires forall q :: 0 <= q < |m.at| && q != t ==> ThreadRank(m', second, q) == ThreadRank(m, second, q)
    ensures D.Sum(Ranks(m', second)) < D.Sum(Ranks(m, second))
  {
    hide ThreadRank;
    D.SumUpdate(Ranks(m, second), t, ThreadRank(m', second, t));
    assert Ranks(m', second) == Ranks(m, second)[t := ThreadRank(m', second, t)];
  }

  lemma FirstRank(p: Setup, m: State, a: Action, m': State, i: nat)
    requires p.Ok() && Sized(p, m) && Sized(p, m') && Next(p, m, a, m')
    requires a.Test? || a.Leave? || a.Propose? || a.PassSecond?
    requires a.Propose? ==> m.iter[a.t] == i
    ensures D.Sum(Ranks(m', false)) < D.Sum(Ranks(m, false)) && Unclaimed(m', i) == Unclaimed(m, i)
    ensures m'.index[i % 2] == m.index[i % 2]
  {
    hide D.Sum, Ranks, LoopOver, Released;
    OneRank(p, m, m', false, a.t);
  }

  lemma ClaimRank(p: Setup, m: State, t: nat, j: nat, m': State, i: nat)
    requires p.Ok() && Sized(p, m) && Sized(p, m') && t < p.c.workers && Claims(p, m, t, j, m') && m.iter[t] == i
    ensures Ranks(m', false) == Ranks(m, false) && |Unclaimed(m', i)| < |Unclaimed(m, i)|
  {
    assert Unclaimed(m', i) == Unclaimed(m, i) - {j};
    assert j in Unclaimed(m, i);
  }

  /** A thread that has not reserved yet, and does not now. */
  lemma UnreservedRank(p: Setup, m: State, m': State, t: nat, i: nat)
    requires Sized(p, m) && Sized(p, m') && t < |m.at| && m'.at == m.at[t := m'.at[t]] && m'.bins == m.bins
          && m'.iter == m.iter
    requires Unreserved(m.at[t]) && Unreserved(m'.at[t]) && PlaceRank(true, m'.at[t]) < PlaceRank(true, m.at[t])
    requires (forall q :: 0 <= q < |m.iter| ==> m.iter[q] == i) && m'.index[(i + 1) % 2] == m.index[(i + 1) % 2]
    ensures D.Sum(Ranks(m', true)) < D.Sum(Ranks(m, true))
  {
    hide D.Sum, Ranks, D.Chosen, PlaceRank;
    OneRank(p, m, m', true, t);
  }

  lemma ReserveRank(p: Setup, m: State, t: nat, m': State, i: nat)
    requires Sized(p, m) && Sized(p, m') && t < p.c.workers && Reserves(p, m, t, m')
    requires forall q :: 0 <= q < |m.iter| ==> m.iter[q] == i
    ensures D.Sum(Ranks(m', true)) < D.Sum(Ranks(m, true)) && m'.index == m.index
  {
    hide D.Sum, Ranks, D.Chosen;
    OneRank(p, m, m', true, t);
  }

  lemma CopyRank(p: Setup, m: State, t: nat, m': State, i: nat)
    requires Sized(p, m) && Sized(p, m') && t < p.c.workers && CopiesOne(p, m, t, m')
    requires forall q :: 0 <= q < |m.iter| ==> m.iter[q] == i
    ensures D.Sum(Ranks(m', true)) < D.Sum(Ranks(m, true)) && m'.index == m.index
  {
    hide D.Sum, Ranks, D.Chosen;
    OneRank(p, m, m', true, t);
  }

  lemma ClearRank(p: Setup, m: State, t: nat, m': State, i: nat)
    requires Sized(p, m) && Sized(p, m') && t < p.c.workers && Clears(p, m, t, m')
    requires forall q :: 0 <= q < |m.iter| ==> m.iter[q] == i
    ensures D.Sum(Ranks(m', true)) < D.Sum(Ranks(m, true)) && m'.index == m.index
  {
    hide D.Sum, Ranks, D.Chosen, D.Rest;
    OneRank(p, m, m', true, t);
  }

  lemma SecondRank(p: Setup, m: State, a: Action, m': State, i: nat)
    requires p.Ok() && Sized(p, m) && Sized(p, m') && Next(p, m, a, m')
    requires !a.PassSecond? && !a.Test? && !a.Claim? && !a.Take? && !a.Leave? && !a.Work? && !a.Propose?
    requires forall q :: 0 <= q < |m.iter| ==> m.iter[q] == i
    ensures D.Sum(Ranks(m', true)) < D.Sum(Ranks(m, true))
    ensures m'.index[(i + 1) % 2] == m.index[(i + 1) % 2]
  {
    hide D.Sum, Ranks, Released, Reserves, CopiesOne, Clears, Part;
    match a
    case Reserve(t) => ReserveRank(p, m, t, m', i);
    case Copy(t) => CopyRank(p, m, t, m', i);
    case Clear(t) => ClearRank(p, m, t, m', i);
    case _ => UnreservedRank(p, m, m', a.t, i);
  }

  lemma StepsDecrease(c: D.Config, s: D.State, s': D.State)
    requires D.Inv(c, s) && D.Steps(c, s, s')
    ensures D.Decreases(c, s, s')
  {
    hide D.Inv, D.Next, D.Decreases;
    var a :| D.Next(c, s, a, s');
    D.StepDecreases(c, s, a, s');
  }

  /** A step inside the first half of an iteration that the simple machine does not see. */
  lemma InsideFirst(p: Setup, m: State, a: Action, m': State, w: Shadow, w': Shadow)
    requires p.Ok() && Sized(p, m) && FirstHalf(p, m, w.i, w.s) && Next(p, m, a, m') && Sized(p, m')
    requires w'.i == w.i && !w.second && !w'.second && w'.s == w.s && !a.Take? && !a.Work? && !a.PassFirst?
    ensures Closer(p, m, w, m', w')
  {
    PlaceOf(p, m, a, m');
    FirstPlaces(p, m, w.i, w.s, a.t);
    OwnStage(m, a.t, 2 * w.i);
    hide FirstHalf, Ranks, D.Decreases, D.Sum, Unclaimed, Tests, Leaves, Proposes, PassesSecond;
    if a.Claim? {
      ClaimRank(p, m, a.t, a.j, m', w.i);
    } else {
      ProposeIteration(p, m, a, m', w.i);
      FirstRank(p, m, a, m', w.i);
    }
  }

  lemma ProposeIteration(p: Setup, m: State, a: Action, m': State, i: nat)
    requires p.Ok() && Sized(p, m) && Next(p, m, a, m') && InStage(m, a.t, 2 * i)
    ensures a.Propose? ==> m.iter[a.t] == i
  {
  }

  lemma OneIterationIn(p: Setup, m: State, w: Shadow)
    requires Sized(p, m) && SecondPart(p, m, w.i, w.s, w.plan)
    ensures forall q :: 0 <= q < |m.iter| ==> m.iter[q] == w.i
  {
    OneIteration(m, w.i);
  }

  /** A step inside the second half of an iteration. */
  lemma InsideSecond(p: Setup, m: State, a: Action, m': State, w: Shadow, w': Shadow)
    requires p.Ok() && Sized(p, m) && SecondPart(p, m, w.i, w.s, w.plan) && Next(p, m, a, m') && Sized(p, m')
    requires w'.i == w.i && w.second && w'.second && w'.s == w.s && !a.PassSecond?
    ensures Closer(p, m, w, m', w')
  {
    hide Ranks, D.Decreases, Next, SecondPart, D.Sum, SecondHalf;
    PlaceOf(p, m, a, m');
    SecondPlaces(p, m, w.i, w.s, w.plan, a.t);
    OneIterationIn(p, m, w);
    SecondRank(p, m, a, m', w.i);
  }

  /** A step that opens the next half without an advance of the simple machine. */
  lemma OpeningCloser(p: Setup, m: State, a: Action, m': State, w: Shadow, w': Shadow)
    requires Rel(p, m, w) && Next(p, m, a, m') && Sized(p, m') && Follows(p, m, a, w, w')
    requires if w.second then a.PassSecond? else a.PassFirst? && m.index[(w.i + 1) % 2] == p.maxBin
    ensures Closer(p, m, w, m', w')
  {
    hide D.Inv, Small, D.Decreases, Running, Ended, Proposed, Copies, NoneLeft, Resets;
    if !w.second {
      Arrivals(m, a.t, w.i);
      AllArrived(p, m, w.i, w.s);
    }
  }

  /** Every step of every thread brings the machine closer to its end. */
  lemma StepCloser(p: Setup, m: State, a: Action, m': State, w: Shadow) returns (w': Shadow)
    requires Rel(p, m, w) && Next(p, m, a, m')
    ensures Rel(p, m', w') && Closer(p, m, w, m', w')
  {
    hide FirstHalf, SecondPart, D.Inv, Small, D.Steps, D.Decreases, Next, Rank, Level;
    w' := StepSimulates(p, m, a, m', w);
    if w'.s != w.s || a.Take? || a.Work? || (a.PassFirst? && !w.second && m.index[(w.i + 1) % 2] != p.maxBin) {
      StepsDecrease(p.c, w.s, w'.s);
    } else if if w.second then a.PassSecond? else a.PassFirst? {
      OpeningCloser(p, m, a, m', w, w');
    } else if w.second {
      InsideSecond(p, m, a, m', w, w');
    } else {
      InsideFirst(p, m, a, m', w, w');
    }
  }
}
