/** The hand-over between the iterations of delta-stepping, thread by thread. Two slots each for the bin index and the
    frontier's length change roles from one iteration to the next; threads propose the next index, meet at a barrier,
    copy their part of the next bin to a reserved place while one of them resets the old slots, and meet again. The
    machine of `DeltaStepping`, which does all this in one action, is what every run of this one comes to. */
module Handover {
  import D = DeltaStepping

  /** Where a thread is in the outer loop. */
  datatype Place =
    | Enter                         // about to test whether there is another iteration
    | Looping                       // in the shared loop over the frontier
    | Fusing                        // past that loop, at work on its own bin of the current index
    | AtFirst                       // has proposed the next index; at the first barrier
    | Past                          // past the first barrier, about to enter the single region
    | ResetIndex                    // in the single region, about to reset the old index
    | ResetTail                     // about to reset the old length
    | Reserving                     // about to reserve a place for its part of the next bin
    | Copying(start: nat, k: nat)   // has copied k vertices of its part to the place from `start` on
    | AtSecond                      // at the second barrier
    | Out

  /** `owner` tells which thread the shared loop gave an index of the frontier in an iteration, and `begun` which of
      these have been begun; `singles` is the number of single regions that have been entered. */
  datatype State = State(
    dist: seq<nat>, bins: seq<seq<D.Entry>>, threads: seq<D.Thread>, at: seq<Place>, iter: seq<nat>,
    index: seq<nat>, tail: seq<nat>, cells: map<nat, nat>,
    owner: map<(nat, nat), nat>, begun: set<(nat, nat)>, singles: nat)

  datatype Setup = Setup(c: D.Config, maxBin: nat) {
    /** The index that stands for no bin is larger than the bin of any distance. */
    ghost predicate Ok() {
      c.Ok() && c.inf <= maxBin
    }
  }

  ghost predicate Sized(p: Setup, m: State) {
    && |m.dist| == |p.c.out| && |m.bins| == |m.threads| == |m.at| == |m.iter| == p.c.workers
    && |m.index| == |m.tail| == 2
  }

  datatype Action =
    | Test(t: nat)
    | Claim(t: nat, j: nat)
    | Take(t: nat, j: nat)
    | Leave(t: nat)
    | Work(t: nat, a: D.Action, v: D.State)
    | Propose(t: nat)
    | PassFirst(t: nat)
    | Single(t: nat)
    | WriteIndex(t: nat)
    | WriteTail(t: nat)
    | Reserve(t: nat)
    | Copy(t: nat)
    | Clear(t: nat)
    | PassSecond(t: nat)

  function Min(a: nat, b: nat): nat {
    if a < b then a else b
  }

  /** The least bin from `from` on in which something is filed, or `none`. */
  function LeastFrom(es: seq<D.Entry>, from: nat, none: nat): nat {
    if es == [] then none
    else
      var rest := LeastFrom(es[1..], from, none);
      if es[0].bin >= from then Min(es[0].bin, rest) else rest
  }

  /** The part of the machine that the actions of one relaxation see. */
  ghost function View(m: State, curr: nat): D.State {
    D.State(m.dist, curr, [], m.bins, m.threads)
  }

  predicate IsLocal(a: D.Action) {
    a.ReadOld? || a.ReadSource? || a.MoveOn? || a.Swap? || a.Retry? || a.File? || a.Finish?
  }

  predicate SecondHalf(at: Place) {
    at.Past? || at.ResetIndex? || at.ResetTail? || at.Reserving? || at.Copying? || at.AtSecond?
  }

  /** The number of barriers a thread has passed. */
  function Stage(m: State, t: nat): nat
    requires t < |m.at| == |m.iter|
  {
    2 * m.iter[t] + if SecondHalf(m.at[t]) then 1 else 0
  }

  predicate Waiting(at: Place) {
    at.AtFirst? || at.AtSecond?
  }

  /** Every thread has come to the barrier at which t waits, or is beyond it. */
  ghost predicate Released(m: State, t: nat)
    requires t < |m.at| == |m.iter|
  {
    Waiting(m.at[t]) && forall q :: 0 <= q < |m.at| ==>
          Stage(m, q) > Stage(m, t) || (Stage(m, q) == Stage(m, t) && Waiting(m.at[q]))
  }

  ghost function Go(m: State, t: nat, place: Place): State
    requires t < |m.at|
  {
    m.(at := m.at[t := place])
  }

  /** The vertices that a thread copies. */
  function Part(m: State, t: nat): seq<nat>
    requires t < |m.bins| == |m.iter| && |m.index| == 2
  {
    D.Chosen(m.bins[t], m.index[(m.iter[t] + 1) % 2])
  }

  ghost predicate LoopOver(m: State, t: nat)
    requires t < |m.iter| && |m.tail| == 2
  {
    forall j: nat :: j < m.tail[m.iter[t] % 2] ==> HandedOut(m, t, m.iter[t], j)
  }

  /** The index has been handed out and, if to this thread, begun. */
  ghost predicate HandedOut(m: State, t: nat, i: nat, j: nat) {
    (i, j) in m.owner && (m.owner[(i, j)] == t ==> (i, j) in m.begun)
  }

  ghost predicate Tests(p: Setup, m: State, t: nat, m': State)
    requires Sized(p, m) && t < p.c.workers
  {
    m.at[t] == Enter && m' == Go(m, t, if m.index[m.iter[t] % 2] == p.maxBin then Out else Looping)
  }

  /** The shared loop hands out an index. */
  ghost predicate Claims(p: Setup, m: State, t: nat, j: nat, m': State)
    requires Sized(p, m) && t < p.c.workers
  {
    && m.at[t] == Looping && m.threads[t] == D.Idle && j < m.tail[m.iter[t] % 2] && (m.iter[t], j) !in m.owner
    && m' == m.(owner := m.owner[(m.iter[t], j) := t])
  }

  ghost predicate Takes(p: Setup, m: State, t: nat, j: nat, m': State)
    requires Sized(p, m) && t < p.c.workers
  {
    var i := m.iter[t];
    && m.at[t] == Looping && m.threads[t] == D.Idle
    && j < m.tail[i % 2] && (i, j) in m.owner && m.owner[(i, j)] == t && (i, j) !in m.begun
    && j in m.cells && m.cells[j] < |m.dist|
    && m' == m.(begun := m.begun + {(i, j)}, threads := Started(p.c, m, t, m.cells[j], m.index[i % 2]))
  }

  /** A vertex is relaxed unless it is below the current bin. */
  function Started(c: D.Config, m: State, t: nat, u: nat, curr: nat): seq<D.Thread>
    requires t < |m.threads| && u < |m.dist|
  {
    if m.dist[u] >= c.delta * curr then m.threads[t := D.AtEdge(u, 0)] else m.threads
  }

  /** Nothing is left to hand out. */
  ghost predicate Leaves(p: Setup, m: State, t: nat, m': State)
    requires Sized(p, m) && t < p.c.workers
  {
    m.at[t] == Looping && m.threads[t] == D.Idle && LoopOver(m, t) && m' == Go(m, t, Fusing)
  }

  /** An action inside the relaxation of a vertex, or the next vertex of the thread's own current bin. */
  ghost predicate Works(p: Setup, m: State, t: nat, a: D.Action, v: D.State, m': State)
    requires p.Ok() && Sized(p, m) && t < p.c.workers
  {
    && (m.at[t] == Fusing || (m.at[t] == Looping && !a.Fuse?)) && (IsLocal(a) || a.Fuse?) && a.t == t
    && D.Next(p.c, View(m, m.index[m.iter[t] % 2]), a, v)
    && m' == m.(dist := v.dist, bins := v.bins, threads := v.threads)
  }

  ghost predicate Proposes(p: Setup, m: State, t: nat, m': State)
    requires Sized(p, m) && t < p.c.workers
  {
    var i, nxt := m.iter[t], (m.iter[t] + 1) % 2;
    && m.at[t] == Fusing && m.threads[t] == D.Idle
    && m' == Go(m, t, AtFirst)
             .(index := m.index[nxt := Min(m.index[nxt], LeastFrom(m.bins[t], m.index[i % 2], p.maxBin))])
  }

  ghost predicate PassesFirst(p: Setup, m: State, t: nat, m': State)
    requires Sized(p, m) && t < p.c.workers
  {
    m.at[t] == AtFirst && Released(m, t) && m' == Go(m, t, Past)
  }

  /** The first thread to come to the single region of an iteration enters it, the others go on. */
  ghost predicate MeetsSingle(p: Setup, m: State, t: nat, m': State)
    requires Sized(p, m) && t < p.c.workers
  {
    && m.at[t] == Past
    && m' == if m.singles == m.iter[t] then Go(m, t, ResetIndex).(singles := m.singles + 1) else Go(m, t, Reserving)
  }

  ghost predicate WritesIndex(p: Setup, m: State, t: nat, m': State)
    requires Sized(p, m) && t < p.c.workers
  {
    m.at[t] == ResetIndex && m' == Go(m, t, ResetTail).(index := m.index[m.iter[t] % 2 := p.maxBin])
  }

  ghost predicate WritesTail(p: Setup, m: State, t: nat, m': State)
    requires Sized(p, m) && t < p.c.workers
  {
    m.at[t] == ResetTail && m' == Go(m, t, Reserving).(tail := m.tail[m.iter[t] % 2 := 0])
  }

  /** Fetch-and-add on the next frontier's length. A thread without such a bin adds nothing. */
  ghost predicate Reserves(p: Setup, m: State, t: nat, m': State)
    requires Sized(p, m) && t < p.c.workers
  {
    var nxt := (m.iter[t] + 1) % 2;
    && m.at[t] == Reserving
    && m' == if m.index[nxt] == p.maxBin then Go(m, t, AtSecond)
             else Go(m, t, Copying(m.tail[nxt], 0)).(tail := m.tail[nxt := m.tail[nxt] + |Part(m, t)|])
  }

  ghost predicate CopiesOne(p: Setup, m: State, t: nat, m': State)
    requires Sized(p, m) && t < p.c.workers
  {
    && m.at[t].Copying? && m.at[t].k < |Part(m, t)|
    && m' == Go(m, t, Copying(m.at[t].start, m.at[t].k + 1))
             .(cells := m.cells[m.at[t].start + m.at[t].k := Part(m, t)[m.at[t].k]])
  }

  ghost predicate Clears(p: Setup, m: State, t: nat, m': State)
    requires Sized(p, m) && t < p.c.workers
  {
    && m.at[t].Copying? && m.at[t].k == |Part(m, t)|
    && m' == Go(m, t, AtSecond).(bins := m.bins[t := D.Rest(m.bins[t], m.index[(m.iter[t] + 1) % 2])])
  }

  ghost predicate PassesSecond(p: Setup, m: State, t: nat, m': State)
    requires Sized(p, m) && t < p.c.workers
  {
    m.at[t] == AtSecond && Released(m, t) && m' == Go(m, t, Enter).(iter := m.iter[t := m.iter[t] + 1])
  }

  ghost predicate Next(p: Setup, m: State, a: Action, m': State)
    requires p.Ok() && Sized(p, m)
  {
    a.t < p.c.workers &&
    match a
    case Test(t) => Tests(p, m, t, m')
    case Claim(t, j) => Claims(p, m, t, j, m')
    case Take(t, j) => Takes(p, m, t, j, m')
    case Leave(t) => Leaves(p, m, t, m')
    case Work(t, b, v) => Works(p, m, t, b, v, m')
    case Propose(t) => Proposes(p, m, t, m')
    case PassFirst(t) => PassesFirst(p, m, t, m')
    case Single(t) => MeetsSingle(p, m, t, m')
    case WriteIndex(t) => WritesIndex(p, m, t, m')
    case WriteTail(t) => WritesTail(p, m, t, m')
    case Reserve(t) => Reserves(p, m, t, m')
    case Copy(t) => CopiesOne(p, m, t, m')
    case Clear(t) => Clears(p, m, t, m')
    case PassSecond(t) => PassesSecond(p, m, t, m')
  }

  ghost predicate Init(p: Setup, m: State)
    requires p.Ok()
  {
    && Sized(p, m) && m.index == [0, p.maxBin] && m.tail == [1, 0] && m.cells == map[0 := p.c.source]
    && m.dist == seq(|p.c.out|, v => p.c.inf)[p.c.source := 0]
    && m.threads == seq(p.c.workers, _ => D.Idle) && m.bins == seq(p.c.workers, _ => [])
    && m.at == seq(p.c.workers, _ => Enter) && m.iter == seq(p.c.workers, _ => 0)
    && m.owner == map[] && m.begun == {} && m.singles == 0
  }

  // ----- What corresponds to the simple machine's frontier -----

  /** The first n vertices of the frontier that iteration i has not begun. */
  ghost function Undone(cells: map<nat, nat>, n: nat, i: nat, begun: set<(nat, nat)>): seq<nat> {
    if n == 0 then [] else Undone(cells, n - 1, i, begun) + UndoneAt(cells, n - 1, i, begun)
  }

  ghost function UndoneAt(cells: map<nat, nat>, j: nat, i: nat, begun: set<(nat, nat)>): seq<nat> {
    if (i, j) in begun || j !in cells then [] else [cells[j]]
  }

  lemma UndoneStep(cells: map<nat, nat>, n: nat, i: nat, begun: set<(nat, nat)>)
    ensures Undone(cells, n + 1, i, begun) == Undone(cells, n, i, begun) + UndoneAt(cells, n, i, begun)
  {
  }

  lemma Concatenated(a: seq<nat>, b: seq<nat>)
    ensures multiset(a + b) == multiset(a) + multiset(b)
  {
  }

  /** What one more place adds to the vertices not begun. */
  lemma UndoneCount(cells: map<nat, nat>, n: nat, i: nat, begun: set<(nat, nat)>)
    ensures multiset(Undone(cells, n + 1, i, begun)) ==
            multiset(Undone(cells, n, i, begun)) + multiset(UndoneAt(cells, n, i, begun))
  {
    hide UndoneAt;
    UndoneStep(cells, n, i, begun);
    Concatenated(Undone(cells, n, i, begun), UndoneAt(cells, n, i, begun));
  }

  lemma AddToBoth(a: multiset<nat>, b: multiset<nat>, one: multiset<nat>, x: multiset<nat>)
    requires a == b + one
    ensures a + x == b + x + one
  {
  }

  lemma UndoneAtFrame(cells: map<nat, nat>, k: nat, i: nat, begun: set<(nat, nat)>, j: nat)
    ensures k != j ==> UndoneAt(cells, k, i, begun + {(i, j)}) == UndoneAt(cells, k, i, begun)
    ensures k == j && j in cells && (i, j) !in begun ==>
      UndoneAt(cells, k, i, begun) == [cells[j]] && UndoneAt(cells, k, i, begun + {(i, j)}) == []
  {
  }

  lemma {:induction false} UndoneTake(cells: map<nat, nat>, n: nat, i: nat, begun: set<(nat, nat)>, j: nat)
    requires j < n && j in cells && (i, j) !in begun
    ensures multiset(Undone(cells, n, i, begun)) == multiset(Undone(cells, n, i, begun + {(i, j)})) + multiset{cells[j]}
  {
    hide Undone, UndoneAt;
    UndoneCount(cells, n - 1, i, begun);
    UndoneCount(cells, n - 1, i, begun + {(i, j)});
    UndoneAtFrame(cells, n - 1, i, begun, j);
    if j == n - 1 {
      UndoneFrame(cells, n - 1, i, begun, j);
    } else {
      UndoneTake(cells, n - 1, i, begun, j);
      var a, b := multiset(Undone(cells, n - 1, i, begun)), multiset(Undone(cells, n - 1, i, begun + {(i, j)}));
      AddToBoth(a, b, multiset{cells[j]}, multiset(UndoneAt(cells, n - 1, i, begun)));
    }
  }

  lemma {:induction false} UndoneFrame(cells: map<nat, nat>, n: nat, i: nat, begun: set<(nat, nat)>, j: nat)
    requires n <= j
    ensures Undone(cells, n, i, begun + {(i, j)}) == Undone(cells, n, i, begun)
  {
    if n > 0 {
      UndoneFrame(cells, n - 1, i, begun, j);
    }
  }

  lemma {:induction false} UndoneNone(cells: map<nat, nat>, n: nat, i: nat, begun: set<(nat, nat)>)
    requires forall j: nat :: j < n ==> (i, j) in begun
    ensures Undone(cells, n, i, begun) == []
  {
    if n > 0 {
      UndoneNone(cells, n - 1, i, begun);
    }
  }

  lemma {:induction false} UndoneAll(cells: map<nat, nat>, plan: seq<nat>, n: nat, i: nat, begun: set<(nat, nat)>)
    requires n <= |plan| && (forall j: nat :: j < n ==> j in cells && cells[j] == plan[j])
    requires forall j: nat :: (i, j) !in begun
    ensures Undone(cells, n, i, begun) == plan[..n]
  {
    if n > 0 {
      UndoneAll(cells, plan, n - 1, i, begun);
      assert plan[..n] == plan[..n - 1] + [plan[n - 1]];
    }
  }

  /** Has not reserved a place in this hand-over. */
  predicate Unreserved(at: Place) {
    !at.Copying? && !at.AtSecond?
  }

  /** What the first n threads still have to reserve places for. */
  ghost function Pending(bins: seq<seq<D.Entry>>, at: seq<Place>, next: nat, n: nat): seq<nat>
    requires n <= |bins| == |at|
  {
    if n == 0 then [] else Pending(bins, at, next, n - 1) + PendingAt(bins[n - 1], at[n - 1], next)
  }

  ghost function PendingAt(es: seq<D.Entry>, place: Place, next: nat): seq<nat> {
    if Unreserved(place) then D.Chosen(es, next) else []
  }

  lemma PendingStep(bins: seq<seq<D.Entry>>, at: seq<Place>, next: nat, n: nat)
    requires n < |bins| == |at|
    ensures Pending(bins, at, next, n + 1) == Pending(bins, at, next, n) + PendingAt(bins[n], at[n], next)
  {
  }

  lemma {:induction false} PendingAgree(bins: seq<seq<D.Entry>>, at: seq<Place>, bins': seq<seq<D.Entry>>,
                                        at': seq<Place>, next: nat, n: nat)
    requires n <= |bins| == |at| == |bins'| == |at'|
    requires forall q :: 0 <= q < n ==>
               (Unreserved(at[q]) <==> Unreserved(at'[q])) && (Unreserved(at[q]) ==> bins[q] == bins'[q])
    ensures Pending(bins, at, next, n) == Pending(bins', at', next, n)
  {
    if n > 0 {
      PendingAgree(bins, at, bins', at', next, n - 1);
    }
  }

  lemma {:induction false} PendingReserve(bins: seq<seq<D.Entry>>, at: seq<Place>, at': seq<Place>, next: nat, n: nat,
                                          t: nat)
    requires t < n <= |bins| == |at| && Unreserved(at[t]) && |at'| == |at| && !Unreserved(at'[t])
    requires forall q :: 0 <= q < |at| && q != t ==> at'[q] == at[q]
    ensures multiset(Pending(bins, at, next, n)) == multiset(Pending(bins, at', next, n))
          + multiset(D.Chosen(bins[t], next))
  {
    hide Pending, D.Chosen;
    PendingStep(bins, at, next, n - 1);
    PendingStep(bins, at', next, n - 1);
    if t == n - 1 {
      PendingAgree(bins, at, bins, at', next, n - 1);
    } else {
      PendingReserve(bins, at, at', next, n - 1, t);
    }
  }

  lemma {:induction false} GatherLast(bins: seq<seq<D.Entry>>, es: seq<D.Entry>, bin: nat)
    ensures D.Gather(bins + [es], bin) == D.Gather(bins, bin) + D.Chosen(es, bin)
  {
    hide D.Chosen;
    if bins == [] {
      assert bins + [es] == [es] && [es][1..] == [];
      assert D.Gather([es], bin) == D.Chosen(es, bin) + D.Gather([], bin);
    } else {
      GatherLast(bins[1..], es, bin);
      assert (bins + [es])[1..] == bins[1..] + [es];
      assert D.Gather(bins + [es], bin) == D.Chosen(bins[0], bin) + D.Gather(bins[1..] + [es], bin);
    }
  }

  lemma {:induction false} PendingStart(bins: seq<seq<D.Entry>>, at: seq<Place>, next: nat, n: nat)
    requires n <= |bins| == |at| && forall q :: 0 <= q < n ==> Unreserved(at[q])
    ensures Pending(bins, at, next, n) == D.Gather(bins[..n], next)
  {
    if n > 0 {
      PendingStart(bins, at, next, n - 1);
      GatherLast(bins[..n - 1], bins[n - 1], next);
      assert bins[..n] == bins[..n - 1] + [bins[n - 1]];
    }
  }

  lemma {:induction false} PendingEnd(bins: seq<seq<D.Entry>>, at: seq<Place>, next: nat, n: nat)
    requires n <= |bins| == |at| && forall q :: 0 <= q < n ==> !Unreserved(at[q])
    ensures Pending(bins, at, next, n) == []
  {
    if n > 0 {
      PendingEnd(bins, at, next, n - 1);
    }
  }

  lemma {:induction false} RestTwice(es: seq<D.Entry>, bin: nat)
    ensures D.Rest(D.Rest(es, bin), bin) == D.Rest(es, bin) && D.Chosen(D.Rest(es, bin), bin) == []
  {
    if es != [] {
      RestTwice(es[1..], bin);
      var rest := D.Rest(es[1..], bin);
      if es[0].bin != bin {
        assert D.Rest(es, bin) == [es[0]] + rest && ([es[0]] + rest)[1..] == rest;
        assert D.Rest([es[0]] + rest, bin) == [es[0]] + D.Rest(rest, bin);
        assert D.Chosen([es[0]] + rest, bin) == D.Chosen(rest, bin);
      } else {
        assert D.Rest(es, bin) == rest;
      }
    }
  }

  lemma {:induction false} RestAll(es: seq<D.Entry>, bin: nat)
    requires D.Chosen(es, bin) == []
    ensures D.Rest(es, bin) == es
  {
    if es != [] {
      RestAll(es[1..], bin);
    }
  }

  lemma {:induction false} LeastFromIs(es: seq<D.Entry>, from: nat, none: nat)
    ensures var b := LeastFrom(es, from, none);
      b <= none && (b < none ==> exists e :: e in es && e.bin == b) && forall e :: e in es && e.bin >= from ==>
            b <= e.bin
  {
    if es != [] {
      LeastFromIs(es[1..], from, none);
      assert es == [es[0]] + es[1..];
    }
  }
}
