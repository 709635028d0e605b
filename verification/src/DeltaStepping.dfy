/** Parallel delta-stepping as a machine whose steps are the atomic actions of its threads, in any order. A thread
    takes a vertex from the shared frontier, or from its own bin of the current index (bucket fusion), and relaxes
    its edges one by one with compare-and-swap. When no thread is at work the next bin becomes the frontier. */
module DeltaStepping {

  datatype Arc = Arc(v: nat, w: nat)

  datatype Entry = Entry(bin: nat, v: nat)

  datatype Thread =
    | Idle
    | AtEdge(u: nat, k: nat)                         // about to read the distance of the k-th target of u
    | HaveOld(u: nat, k: nat, before: nat)           // has read it; about to read the distance of u
    | Trying(u: nat, k: nat, before: nat, cand: nat) // about to compare, and perhaps swap
    | Pushing(u: nat, k: nat, v: nat, d: nat)        // has lowered v to d; about to file v in a bin

  datatype State = State(dist: seq<nat>, curr: nat, frontier: seq<nat>, bins: seq<seq<Entry>>, threads: seq<Thread>)

  datatype Config = Config(out: seq<seq<Arc>>, source: nat, delta: nat, inf: nat, workers: nat) {
    ghost predicate Ok() {
      && source < |out| && delta > 0 && inf > 0 && workers > 0
      && forall u :: 0 <= u < |out| ==> TargetsOk(u)
    }

    ghost predicate TargetsOk(u: nat)
      requires u < |out|
    {
      forall k :: 0 <= k < |out[u]| ==> out[u][k].v < |out|
    }

    /** The bin in which a distance belongs. */
    function Bin(d: nat): nat
      requires delta > 0
    {
      d / delta
    }

    predicate IsEdge(u: nat, k: nat) {
      u < |out| && k < |out[u]|
    }
  }

  /** p lists the edges (vertex, position) of a walk from the source to v of total weight d. */
  ghost predicate Walk(c: Config, p: seq<(nat, nat)>, v: nat, d: nat) {
    if p == [] then v == c.source && d == 0
    else
      var (u, k) := p[|p| - 1];
      c.IsEdge(u, k) && c.out[u][k].v == v && c.out[u][k].w <= d && Walk(c, p[..|p| - 1], u, d - c.out[u][k].w)
  }

  ghost predicate HasWalk(c: Config, v: nat, d: nat) {
    exists p :: Walk(c, p, v, d)
  }

  lemma ExtendWalk(c: Config, u: nat, k: nat, d: nat)
    requires HasWalk(c, u, d) && c.IsEdge(u, k)
    ensures HasWalk(c, c.out[u][k].v, d + c.out[u][k].w)
  {
    var p :| Walk(c, p, u, d);
    var q := p + [(u, k)];
    assert q[..|q| - 1] == p;
    assert Walk(c, q, c.out[u][k].v, d + c.out[u][k].w);
  }

  datatype Action =
    | Take(t: nat, i: nat)   // the i-th frontier entry, which is not below the current bin
    | Skip(i: nat)           // a stale frontier entry
    | Fuse(t: nat, i: nat)   // an entry of the thread's own bin of the current index
    | ReadOld(t: nat)
    | ReadSource(t: nat)
    | MoveOn(t: nat)         // no improvement
    | Swap(t: nat)           // compare-and-swap succeeds
    | Retry(t: nat)          // it failed; read again
    | File(t: nat)
    | Finish(t: nat)         // no edge left
    | Advance(next: nat)

  function Without<T>(s: seq<T>, i: nat): seq<T>
    requires i < |s|
  {
    s[..i] + s[i + 1..]
  }

  /** The vertices filed under `bin`, and what remains without them. */
  function Chosen(es: seq<Entry>, bin: nat): seq<nat> {
    if es == [] then [] else (if es[0].bin == bin then [es[0].v] else []) + Chosen(es[1..], bin)
  }

  function Rest(es: seq<Entry>, bin: nat): seq<Entry> {
    if es == [] then [] else (if es[0].bin == bin then [] else [es[0]]) + Rest(es[1..], bin)
  }

  function Gather(bins: seq<seq<Entry>>, bin: nat): seq<nat> {
    if bins == [] then [] else Chosen(bins[0], bin) + Gather(bins[1..], bin)
  }

  function Leave(bins: seq<seq<Entry>>, bin: nat): (r: seq<seq<Entry>>)
    ensures |r| == |bins|
  {
    seq(|bins|, t requires 0 <= t < |bins| => Rest(bins[t], bin))
  }

  lemma {:induction false} SplitMembers(es: seq<Entry>, bin: nat)
    ensures forall v :: v in Chosen(es, bin) <==> Entry(bin, v) in es
    ensures forall e :: e in Rest(es, bin) <==> e in es && e.bin != bin
  {
    if es != [] {
      SplitMembers(es[1..], bin);
      assert es == [es[0]] + es[1..];
    }
  }

  lemma {:induction false} GatherMembers(bins: seq<seq<Entry>>, bin: nat)
    ensures forall v :: v in Gather(bins, bin) <==> exists t :: 0 <= t < |bins| && Entry(bin, v) in bins[t]
  {
    if bins != [] {
      GatherMembers(bins[1..], bin);
      SplitMembers(bins[0], bin);
      forall v
        ensures v in Gather(bins, bin) <==> exists t :: 0 <= t < |bins| && Entry(bin, v) in bins[t]
      {
        if t :| 0 <= t < |bins| && Entry(bin, v) in bins[t] {
          assert t > 0 ==> bins[t] == bins[1..][t - 1];
        }
        if v in Gather(bins[1..], bin) {
          var t :| 0 <= t < |bins[1..]| && Entry(bin, v) in bins[1..][t];
          assert bins[t + 1] == bins[1..][t];
        }
      }
    }
  }

  lemma WithoutMembers<T>(s: seq<T>, i: nat)
    requires i < |s|
    ensures forall x :: x in s <==> x in Without(s, i) || x == s[i]
  {
    assert s == s[..i] + [s[i]] + s[i + 1..];
  }

  predicate Sized(c: Config, s: State) {
    |s.dist| == |c.out| && |s.bins| == |s.threads| == c.workers
  }

  ghost predicate Quiet(s: State) {
    s.frontier == [] && forall t :: 0 <= t < |s.threads| ==> s.threads[t] == Idle
  }

  /** next is the least bin in which any thread has filed anything. */
  ghost predicate LeastBin(s: State, next: nat) {
    && (exists t, e :: 0 <= t < |s.bins| && e in s.bins[t] && e.bin == next)
    && (forall t, e :: 0 <= t < |s.bins| && e in s.bins[t] ==> e.bin >= next)
  }

  ghost predicate Enabled(c: Config, s: State, a: Action)
    requires c.Ok() && Sized(c, s)
  {
    match a
    case Take(t, i) =>
      && t < c.workers && s.threads[t] == Idle && i < |s.frontier|
      && s.frontier[i] < |s.dist| && s.dist[s.frontier[i]] >= c.delta * s.curr
    case Skip(i) => i < |s.frontier| && s.frontier[i] < |s.dist| && s.dist[s.frontier[i]] < c.delta * s.curr
    case Fuse(t, i) => t < c.workers && s.threads[t] == Idle && i < |s.bins[t]| && s.bins[t][i].bin == s.curr
    case ReadOld(t) => t < c.workers && s.threads[t].AtEdge? && c.IsEdge(s.threads[t].u, s.threads[t].k)
    case Finish(t) => t < c.workers && s.threads[t].AtEdge? && !c.IsEdge(s.threads[t].u, s.threads[t].k)
    case ReadSource(t) => t < c.workers && s.threads[t].HaveOld?
    case MoveOn(t) => t < c.workers && s.threads[t].Trying? && s.threads[t].cand >= s.threads[t].before
    case Swap(t) =>
      t < c.workers && s.threads[t].Trying? && s.threads[t].cand < s.threads[t].before
            && ReadsBefore(c, s, s.threads[t])
    case Retry(t) =>
      t < c.workers && s.threads[t].Trying? && s.threads[t].cand < s.threads[t].before
            && !ReadsBefore(c, s, s.threads[t])
    case File(t) => t < c.workers && s.threads[t].Pushing?
    case Advance(next) => Quiet(s) && LeastBin(s, next)
  }

  /** The compare of compare-and-swap. */
  ghost predicate ReadsBefore(c: Config, s: State, th: Thread)
    requires th.Trying?
  {
    c.IsEdge(th.u, th.k) && c.out[th.u][th.k].v < |s.dist| && s.dist[c.out[th.u][th.k].v] == th.before
  }

  ghost predicate Next(c: Config, s: State, a: Action, s': State)
    requires c.Ok() && Sized(c, s)
  {
    Enabled(c, s, a) && Sized(c, s') &&
    match a
    case Take(t, i) => s' == s.(frontier := Without(s.frontier, i), threads := s.threads[t := AtEdge(s.frontier[i], 0)])
    case Skip(i) => s' == s.(frontier := Without(s.frontier, i))
    case Fuse(t, i) =>
      s' == s.(bins := s.bins[t := Without(s.bins[t], i)], threads := s.threads[t := AtEdge(s.bins[t][i].v, 0)])
    case ReadOld(t) =>
      var th := s.threads[t];
      c.out[th.u][th.k].v < |s.dist| &&
      s' == s.(threads := s.threads[t := HaveOld(th.u, th.k, s.dist[c.out[th.u][th.k].v])])
    case Finish(t) => s' == s.(threads := s.threads[t := Idle])
    case ReadSource(t) =>
      var th := s.threads[t];
      c.IsEdge(th.u, th.k) && th.u < |s.dist| &&
      s' == s.(threads := s.threads[t := Trying(th.u, th.k, th.before, s.dist[th.u] + c.out[th.u][th.k].w)])
    case MoveOn(t) => s' == s.(threads := s.threads[t := AtEdge(s.threads[t].u, s.threads[t].k + 1)])
    case Swap(t) =>
      var th := s.threads[t];
      var v := c.out[th.u][th.k].v;
      s' == s.(dist := s.dist[v := th.cand], threads := s.threads[t := Pushing(th.u, th.k, v, th.cand)])
    case Retry(t) =>
      var th := s.threads[t];
      c.IsEdge(th.u, th.k) && c.out[th.u][th.k].v < |s.dist| &&
      s' == s.(threads := s.threads[t := Trying(th.u, th.k, s.dist[c.out[th.u][th.k].v], th.cand)])
    case File(t) =>
      var th := s.threads[t];
      s' == s.(bins := s.bins[t := s.bins[t] + [Entry(c.Bin(th.d), th.v)]],
            threads := s.threads[t := AtEdge(th.u, th.k + 1)])
    case Advance(next) => s' == s.(curr := next, frontier := Gather(s.bins, next), bins := Leave(s.bins, next))
  }

  ghost predicate Init(c: Config, s: State)
    requires c.Ok()
  {
    && Sized(c, s) && s.curr == 0 && s.frontier == [c.source]
    && s.dist == seq(|c.out|, v => c.inf)[c.source := 0]
    && s.threads == seq(c.workers, _ => Idle) && s.bins == seq(c.workers, _ => [])
  }

  // ----- What every reachable state satisfies

  ghost predicate ThreadOk(c: Config, s: State, th: Thread)
    requires c.Ok() && Sized(c, s)
  {
    match th
    case Idle => true
    case AtEdge(u, k) => u < |c.out| && k <= |c.out[u]| && c.Bin(s.dist[u]) >= s.curr
    case HaveOld(u, k, before) =>
      c.IsEdge(u, k) && c.out[u][k].v < |c.out| && c.Bin(s.dist[u]) >= s.curr && before >= s.dist[c.out[u][k].v]
    case Trying(u, k, before, cand) =>
      && c.IsEdge(u, k) && c.out[u][k].v < |c.out| && c.Bin(s.dist[u]) >= s.curr && before >= s.dist[c.out[u][k].v]
      && cand >= s.dist[u] + c.out[u][k].w && c.Bin(cand) >= s.curr && (cand < c.inf ==>
            HasWalk(c, c.out[u][k].v, cand))
    case Pushing(u, k, v, d) =>
      && c.IsEdge(u, k) && v == c.out[u][k].v && v < |c.out| && c.Bin(s.dist[u]) >= s.curr
      && s.dist[v] <= d && c.Bin(s.dist[v]) >= s.curr
  }

  /** No bin below the current one is in use, and what is in the current one has not been overtaken. */
  ghost predicate EntryOk(c: Config, s: State, e: Entry)
    requires c.Ok() && Sized(c, s)
  {
    e.v < |c.out| && e.bin >= s.curr && (e.bin == s.curr ==> c.Bin(s.dist[e.v]) >= s.curr)
  }

  ghost predicate DistOk(c: Config, s: State, v: nat)
    requires c.Ok() && Sized(c, s) && v < |c.out|
  {
    s.dist[v] <= c.inf && (s.dist[v] < c.inf ==> HasWalk(c, v, s.dist[v]))
  }

  ghost predicate Unrelaxed(c: Config, s: State, u: nat, k: nat)
    requires c.Ok() && Sized(c, s) && c.IsEdge(u, k)
  {
    c.out[u][k].v < |s.dist| && s.dist[c.out[u][k].v] > s.dist[u] + c.out[u][k].w
  }

  /** This thread will still relax edge k of u from the current distance of u, or file u for it. */
  ghost predicate Carries(c: Config, s: State, th: Thread, u: nat, k: nat)
    requires c.Ok() && Sized(c, s) && c.IsEdge(u, k)
  {
    match th
    case Idle => false
    case AtEdge(u', k') => u' == u && k' <= k
    case HaveOld(u', k', _) => u' == u && k' <= k
    case Trying(u', k', _, cand) => u' == u && (k' < k || (k' == k && cand == s.dist[u] + c.out[u][k].w))
    case Pushing(u', k', v, d) => (u' == u && k' < k) || (v == u && d == s.dist[u])
  }

  datatype Why = InBin(t: nat) | InFrontier | InThread(t: nat)

  ghost predicate CoveredBy(c: Config, s: State, u: nat, k: nat, why: Why)
    requires c.Ok() && Sized(c, s) && c.IsEdge(u, k)
  {
    match why
    case InBin(t) => t < c.workers && Entry(c.Bin(s.dist[u]), u) in s.bins[t]
    case InFrontier => u in s.frontier && c.Bin(s.dist[u]) >= s.curr
    case InThread(t) => t < c.workers && Carries(c, s, s.threads[t], u, k)
  }

  /** Every edge that could still shorten a distance is waiting somewhere. */
  ghost predicate Covered(c: Config, s: State, u: nat, k: nat)
    requires c.Ok() && Sized(c, s) && c.IsEdge(u, k)
  {
    Unrelaxed(c, s, u, k) ==> exists why :: CoveredBy(c, s, u, k, why)
  }

  ghost predicate Inv(c: Config, s: State) {
    && c.Ok() && Sized(c, s) && s.dist[c.source] == 0
    && (forall v :: 0 <= v < |c.out| ==> DistOk(c, s, v))
    && (forall u :: u in s.frontier ==> u < |c.out|)
    && (forall t :: 0 <= t < c.workers ==> ThreadOk(c, s, s.threads[t]))
    && (forall t, e :: 0 <= t < c.workers && e in s.bins[t] ==> EntryOk(c, s, e))
    && (forall u, k :: c.IsEdge(u, k) ==> Covered(c, s, u, k))
  }

  lemma BinFloor(delta: nat, d: nat, b: nat)
    requires delta > 0
    ensures d >= delta * b <==> d / delta >= b
  {
    if d / delta >= b {
      assert delta * (d / delta) >= delta * b;
    } else {
      assert delta * (d / delta + 1) <= delta * b;
    }
  }

  lemma BinGrows(delta: nat, d: nat, d': nat)
    requires delta > 0 && d <= d'
    ensures d / delta <= d' / delta
  {
    BinFloor(delta, d', d / delta);
  }

  lemma InitHolds(c: Config, s: State)
    requires c.Ok() && Init(c, s)
    ensures Inv(c, s)
  {
    assert Walk(c, [], c.source, 0);
    forall u: nat, k: nat | c.IsEdge(u, k)
      ensures Covered(c, s, u, k)
    {
      if Unrelaxed(c, s, u, k) {
        assert CoveredBy(c, s, u, k, InFrontier);
      }
    }
  }

  // ----- Every step keeps it

  lemma TakeKeeps(c: Config, s: State, t: nat, i: nat, s': State)
    requires Inv(c, s) && Next(c, s, Take(t, i), s')
    ensures Inv(c, s')
  {
    hide HasWalk, Config.Bin;
    var u0 := s.frontier[i];
    WithoutMembers(s.frontier, i);
    AtFloor(c, s.dist[u0], s.curr);
    SameDist(c, s, s');
    forall u: nat, k: nat | c.IsEdge(u, k)
      ensures Covered(c, s', u, k)
    {
      assert Covered(c, s, u, k);
      if Unrelaxed(c, s', u, k) {
        var why :| CoveredBy(c, s, u, k, why);
        assert CoveredBy(c, s', u, k, if u == u0 then InThread(t) else why);
      }
    }
  }

  lemma SkipKeeps(c: Config, s: State, i: nat, s': State)
    requires Inv(c, s) && Next(c, s, Skip(i), s')
    ensures Inv(c, s')
  {
    hide HasWalk, Config.Bin;
    WithoutMembers(s.frontier, i);
    AtFloor(c, s.dist[s.frontier[i]], s.curr);
    SameDist(c, s, s');
    forall u: nat, k: nat | c.IsEdge(u, k)
      ensures Covered(c, s', u, k)
    {
      assert Covered(c, s, u, k);
      if Unrelaxed(c, s', u, k) {
        var why :| CoveredBy(c, s, u, k, why);
        assert CoveredBy(c, s', u, k, why);
      }
    }
  }

  lemma AtFloor(c: Config, d: nat, b: nat)
    requires c.delta > 0
    ensures d >= c.delta * b <==> c.Bin(d) >= b
  {
    BinFloor(c.delta, d, b);
  }

  /** Everything but coverage only reads distances and the current bin. */
  lemma SameDist(c: Config, s: State, s': State)
    requires c.Ok() && Sized(c, s) && Sized(c, s') && s'.dist == s.dist && s'.curr == s.curr
    ensures forall v :: 0 <= v < |c.out| ==> DistOk(c, s', v) == DistOk(c, s, v)
    ensures forall th :: ThreadOk(c, s', th) == ThreadOk(c, s, th)
    ensures forall e :: EntryOk(c, s', e) == EntryOk(c, s, e)
    ensures forall u, k :: c.IsEdge(u, k) ==> Unrelaxed(c, s', u, k) == Unrelaxed(c, s, u, k)
    ensures forall th, u, k :: c.IsEdge(u, k) ==> Carries(c, s', th, u, k) == Carries(c, s, th, u, k)
  {
  }

  lemma FuseKeeps(c: Config, s: State, t: nat, i: nat, s': State)
    requires Inv(c, s) && Next(c, s, Fuse(t, i), s')
    ensures Inv(c, s')
  {
    hide HasWalk, Config.Bin;
    var e0 := s.bins[t][i];
    WithoutMembers(s.bins[t], i);
    assert EntryOk(c, s, e0);
    SameDist(c, s, s');
    forall u: nat, k: nat | c.IsEdge(u, k)
      ensures Covered(c, s', u, k)
    {
      assert Covered(c, s, u, k);
      if Unrelaxed(c, s', u, k) {
        var why :| CoveredBy(c, s, u, k, why);
        assert CoveredBy(c, s', u, k, if u == e0.v then InThread(t) else why);
      }
    }
  }

  /** A thread moves on by itself: what it carried it must still carry, unless that is relaxed by now. */
  lemma LocalKeeps(c: Config, s: State, t: nat, th: Thread, s': State)
    requires Inv(c, s) && t < c.workers && s' == s.(threads := s.threads[t := th])
    requires ThreadOk(c, s, th)
    requires forall u, k :: c.IsEdge(u, k) && Carries(c, s, s.threads[t], u, k) && Unrelaxed(c, s, u, k) ==>
          Carries(c, s, th, u, k)
    ensures Inv(c, s')
  {
    hide HasWalk, Config.Bin, ThreadOk, EntryOk, DistOk, Unrelaxed, Carries;
    SameDist(c, s, s');
    forall u: nat, k: nat | c.IsEdge(u, k)
      ensures Covered(c, s', u, k)
    {
      assert Covered(c, s, u, k);
      if Unrelaxed(c, s', u, k) {
        var why :| CoveredBy(c, s, u, k, why);
        assert CoveredBy(c, s', u, k, why);
      }
    }
  }

  lemma ReadKeeps(c: Config, s: State, a: Action, s': State)
    requires Inv(c, s) && Next(c, s, a, s') && (a.ReadOld? || a.Finish? || a.MoveOn? || a.Retry? || a.ReadSource?)
    ensures Inv(c, s')
  {
    hide HasWalk, Config.Bin, EntryOk, Covered;
    assert ThreadOk(c, s, s.threads[a.t]);
    if a.ReadSource? {
      ReadSourceOk(c, s, a.t);
    }
    if a.ReadOld? {
      assert c.TargetsOk(s.threads[a.t].u);
    }
    LocalKeeps(c, s, a.t, s'.threads[a.t], s');
  }

  lemma ReadSourceOk(c: Config, s: State, t: nat)
    requires Inv(c, s) && t < c.workers && s.threads[t].HaveOld?
    ensures var th := s.threads[t];
      c.IsEdge(th.u, th.k) && ThreadOk(c, s, Trying(th.u, th.k, th.before, s.dist[th.u] + c.out[th.u][th.k].w))
  {
    var th := s.threads[t];
    assert ThreadOk(c, s, th) && DistOk(c, s, th.u);
    BinGrows(c.delta, s.dist[th.u], s.dist[th.u] + c.out[th.u][th.k].w);
    if s.dist[th.u] < c.inf {
      ExtendWalk(c, th.u, th.k, s.dist[th.u]);
    }
  }

  lemma FileKeeps(c: Config, s: State, t: nat, s': State)
    requires Inv(c, s) && Next(c, s, File(t), s')
    ensures Inv(c, s')
  {
    hide HasWalk;
    var th := s.threads[t];
    assert ThreadOk(c, s, th);
    BinGrows(c.delta, s.dist[th.v], th.d);
    hide Config.Bin;
    SameDist(c, s, s');
    forall u: nat, k: nat | c.IsEdge(u, k)
      ensures Covered(c, s', u, k)
    {
      assert Covered(c, s, u, k);
      if Unrelaxed(c, s', u, k) {
        var why :| CoveredBy(c, s, u, k, why);
        if why == InThread(t) && u == th.v && th.d == s.dist[u] {
          assert CoveredBy(c, s', u, k, InBin(t));
        } else {
          assert CoveredBy(c, s', u, k, why);
        }
      }
    }
  }

  lemma AdvanceKeeps(c: Config, s: State, next: nat, s': State)
    requires Inv(c, s) && Next(c, s, Advance(next), s')
    ensures Inv(c, s')
  {
    hide HasWalk, Config.Bin;
    GatherMembers(s.bins, next);
    forall t | 0 <= t < c.workers
      ensures forall e :: e in s'.bins[t] <==> e in s.bins[t] && e.bin != next
    {
      SplitMembers(s.bins[t], next);
    }
    forall v | 0 <= v < |c.out|
      ensures DistOk(c, s', v)
    {
      assert DistOk(c, s, v);
    }
    forall t, e | 0 <= t < c.workers && e in s'.bins[t]
      ensures EntryOk(c, s', e)
    {
      assert EntryOk(c, s, e);
    }
    forall u | u in s'.frontier
      ensures u < |c.out|
    {
      var t :| 0 <= t < |s.bins| && Entry(next, u) in s.bins[t];
      assert EntryOk(c, s, Entry(next, u));
    }
    forall u: nat, k: nat | c.IsEdge(u, k)
      ensures Covered(c, s', u, k)
    {
      assert Covered(c, s, u, k);
      if Unrelaxed(c, s', u, k) {
        assert Unrelaxed(c, s, u, k);
        var why :| CoveredBy(c, s, u, k, why);
        assert CoveredBy(c, s', u, k, if c.Bin(s.dist[u]) == next then InFrontier else why);
      }
    }
  }

  /** The swap lowers one distance: that vertex is about to be filed, and everything else is only better off. */
  lemma SwapKeeps(c: Config, s: State, t: nat, s': State)
    requires Inv(c, s) && Next(c, s, Swap(t), s')
    ensures Inv(c, s')
  {
    hide HasWalk, Config.Bin;
    var th := s.threads[t];
    var v0 := c.out[th.u][th.k].v;
    assert ThreadOk(c, s, th);
    assert DistOk(c, s, v0);
    assert s'.dist[v0] == th.cand < s.dist[v0];
    forall v | 0 <= v < |c.out|
      ensures DistOk(c, s', v)
    {
      assert DistOk(c, s, v);
    }
    forall q | 0 <= q < c.workers
      ensures ThreadOk(c, s', s'.threads[q])
    {
      SwapThreadOk(c, s, t, s', q);
    }
    forall q, e | 0 <= q < c.workers && e in s'.bins[q]
      ensures EntryOk(c, s', e)
    {
      assert EntryOk(c, s, e);
    }
    forall u: nat, k: nat | c.IsEdge(u, k)
      ensures Covered(c, s', u, k)
    {
      SwapCovered(c, s, t, s', u, k);
    }
  }

  lemma SwapThreadOk(c: Config, s: State, t: nat, s': State, q: nat)
    requires Inv(c, s) && Next(c, s, Swap(t), s') && q < c.workers
    ensures ThreadOk(c, s', s'.threads[q])
  {
    hide HasWalk, Config.Bin, EntryOk, Covered;
    assert ThreadOk(c, s, s.threads[t]) && ThreadOk(c, s, s.threads[q]);
  }

  lemma SwapCovered(c: Config, s: State, t: nat, s': State, u: nat, k: nat)
    requires Inv(c, s) && Next(c, s, Swap(t), s') && c.IsEdge(u, k)
    ensures Covered(c, s', u, k)
  {
    hide HasWalk, Config.Bin, EntryOk, DistOk;
    var th := s.threads[t];
    var v0 := c.out[th.u][th.k].v;
    assert ThreadOk(c, s, th);
    assert Covered(c, s, u, k);
    if Unrelaxed(c, s', u, k) {
      if u == v0 {
        assert CoveredBy(c, s', u, k, InThread(t));
      } else {
        assert Unrelaxed(c, s, u, k);
        var why :| CoveredBy(c, s, u, k, why);
        assert CoveredBy(c, s', u, k, why);
      }
    }
  }

  lemma StepKeeps(c: Config, s: State, a: Action, s': State)
    requires Inv(c, s) && Next(c, s, a, s')
    ensures Inv(c, s')
  {
    hide Inv, Next;
    match a
    case Take(t, i) => TakeKeeps(c, s, t, i, s');
    case Skip(i) => SkipKeeps(c, s, i, s');
    case Fuse(t, i) => FuseKeeps(c, s, t, i, s');
    case Swap(t) => SwapKeeps(c, s, t, s');
    case File(t) => FileKeeps(c, s, t, s');
    case Advance(next) => AdvanceKeeps(c, s, next, s');
    case _ => ReadKeeps(c, s, a, s');
  }

  // ----- Runs

  /** run[0] is initial and each state follows from the one before by some action. */
  ghost predicate Run(c: Config, run: seq<State>) {
    && c.Ok() && |run| > 0 && Init(c, run[0])
    && (forall i :: 0 <= i < |run| ==> Sized(c, run[i]))
    && (forall i :: 0 < i < |run| ==> Steps(c, run[i - 1], run[i]))
  }

  ghost predicate Steps(c: Config, s: State, s': State) {
    c.Ok() && Sized(c, s) && exists a :: Next(c, s, a, s')
  }

  lemma {:induction false} RunInv(c: Config, run: seq<State>, i: nat)
    requires Run(c, run) && i < |run|
    ensures Inv(c, run[i])
  {
    if i == 0 {
      InitHolds(c, run[0]);
    } else {
      RunInv(c, run, i - 1);
      assert Steps(c, run[i - 1], run[i]);
      var a :| Next(c, run[i - 1], a, run[i]);
      StepKeeps(c, run[i - 1], a, run[i]);
    }
  }

  /** Nothing is at work, waiting or filed. */
  ghost predicate Done(s: State) {
    Quiet(s) && forall t :: 0 <= t < |s.bins| ==> s.bins[t] == []
  }

  lemma DoneRelaxed(c: Config, s: State, u: nat, k: nat)
    requires Inv(c, s) && Done(s) && c.IsEdge(u, k)
    ensures !Unrelaxed(c, s, u, k)
  {
    assert Covered(c, s, u, k);
    forall why: Why
      ensures !CoveredBy(c, s, u, k, why)
    {
    }
  }

  lemma {:induction false} NoShorterWalk(c: Config, s: State, p: seq<(nat, nat)>, v: nat, d: nat)
    requires Inv(c, s) && Done(s) && Walk(c, p, v, d)
    ensures v < |c.out| && s.dist[v] <= d
  {
    if p != [] {
      var (u, k) := p[|p| - 1];
      NoShorterWalk(c, s, p[..|p| - 1], u, d - c.out[u][k].w);
      assert c.TargetsOk(u);
      DoneRelaxed(c, s, u, k);
    }
  }

  /** dist[v] is the weight of a lightest walk to v, capped at the value that stands for unreachable. */
  ghost predicate Shortest(c: Config, dist: seq<nat>, v: nat)
    requires v < |dist|
  {
    && dist[v] <= c.inf
    && (dist[v] < c.inf ==> HasWalk(c, v, dist[v]))
    && (forall d :: HasWalk(c, v, d) ==> dist[v] <= d)
  }

  /** Whatever the interleaving, the number of threads, delta and the use of fusion, a finished run holds exactly the
      shortest distances. */
  lemma FinishedIsShortest(c: Config, run: seq<State>, v: nat)
    requires Run(c, run) && Done(run[|run| - 1]) && v < |c.out|
    ensures |run[|run| - 1].dist| == |c.out| && Shortest(c, run[|run| - 1].dist, v)
  {
    var s := run[|run| - 1];
    RunInv(c, run, |run| - 1);
    assert DistOk(c, s, v);
    forall d | HasWalk(c, v, d)
      ensures s.dist[v] <= d
    {
      var p :| Walk(c, p, v, d);
      NoShorterWalk(c, s, p, v, d);
    }
  }

  // ----- Progress and termination

  /** The action that a busy thread takes next. */
  ghost function ThreadAction(c: Config, s: State, t: nat): Action
    requires c.Ok() && Sized(c, s) && t < c.workers
  {
    match s.threads[t]
    case Idle => Advance(0)
    case AtEdge(u, k) => if c.IsEdge(u, k) then ReadOld(t) else Finish(t)
    case HaveOld(_, _, _) => ReadSource(t)
    case Trying(u, k, before, cand) =>
      if cand >= before then MoveOn(t) else if ReadsBefore(c, s, s.threads[t]) then Swap(t) else Retry(t)
    case Pushing(_, _, _, _) => File(t)
  }

  ghost function ThreadResult(c: Config, s: State, t: nat): State
    requires c.Ok() && Sized(c, s) && t < c.workers && ThreadOk(c, s, s.threads[t])
  {
    match s.threads[t]
    case Idle => s
    case AtEdge(u, k) =>
      if c.IsEdge(u, k) && c.out[u][k].v < |s.dist| then
        s.(threads := s.threads[t := HaveOld(u, k, s.dist[c.out[u][k].v])])
      else s.(threads := s.threads[t := Idle])
    case HaveOld(u, k, before) => s.(threads := s.threads[t := Trying(u, k, before, s.dist[u] + c.out[u][k].w)])
    case Trying(u, k, before, cand) =>
      var v := c.out[u][k].v;
      if cand >= before then s.(threads := s.threads[t := AtEdge(u, k + 1)])
      else if s.dist[v] == before then s.(dist := s.dist[v := cand], threads := s.threads[t := Pushing(u, k, v, cand)])
      else s.(threads := s.threads[t := Trying(u, k, s.dist[v], cand)])
    case Pushing(u, k, v, d) =>
      s.(bins := s.bins[t := s.bins[t] + [Entry(c.Bin(d), v)]], threads := s.threads[t := AtEdge(u, k + 1)])
  }

  lemma BusyCanStep(c: Config, s: State, t: nat)
    requires Inv(c, s) && t < c.workers && s.threads[t] != Idle
    ensures Next(c, s, ThreadAction(c, s, t), ThreadResult(c, s, t)) && Steps(c, s, ThreadResult(c, s, t))
  {
    hide HasWalk, Config.Bin, Covered, EntryOk, DistOk;
    assert ThreadOk(c, s, s.threads[t]);
    if s.threads[t].AtEdge? {
      assert c.TargetsOk(s.threads[t].u);
    }
    assert Next(c, s, ThreadAction(c, s, t), ThreadResult(c, s, t));
  }

  lemma SomeLeastBin(s: State, t0: nat, e0: Entry)
    requires t0 < |s.bins| && e0 in s.bins[t0]
    ensures exists next :: LeastBin(s, next)
    decreases e0.bin
  {
    if t, e :| 0 <= t < |s.bins| && e in s.bins[t] && e.bin < e0.bin {
      SomeLeastBin(s, t, e);
    } else {
      assert LeastBin(s, e0.bin);
    }
  }

  /** A machine that is not done can always take a step. */
  lemma NeverStuck(c: Config, s: State)
    requires Inv(c, s) && !Done(s)
    ensures exists s' :: Steps(c, s, s')
  {
    hide HasWalk, Config.Bin, Covered, EntryOk, DistOk, ThreadOk;
    if t :| 0 <= t < c.workers && s.threads[t] != Idle {
      BusyCanStep(c, s, t);
    } else if s.frontier != [] {
      var u := s.frontier[0];
      assert u in s.frontier;
      if s.dist[u] >= c.delta * s.curr {
        var s' := s.(frontier := Without(s.frontier, 0), threads := s.threads[0 := AtEdge(u, 0)]);
        assert Next(c, s, Take(0, 0), s');
        assert Steps(c, s, s');
      } else {
        var s' := s.(frontier := Without(s.frontier, 0));
        assert Next(c, s, Skip(0), s');
        assert Steps(c, s, s');
      }
    } else {
      var t :| 0 <= t < |s.bins| && s.bins[t] != [];
      SomeLeastBin(s, t, s.bins[t][0]);
      var next :| LeastBin(s, next);
      var s' := s.(curr := next, frontier := Gather(s.bins, next), bins := Leave(s.bins, next));
      assert Next(c, s, Advance(next), s');
      assert Steps(c, s, s');
    }
  }

  ghost function Sum(a: seq<nat>): nat {
    if a == [] then 0 else a[0] + Sum(a[1..])
  }

  lemma {:induction false} SumUpdate(a: seq<nat>, i: nat, x: nat)
    requires i < |a|
    ensures Sum(a[i := x]) == Sum(a) - a[i] + x
  {
    if i > 0 {
      SumUpdate(a[1..], i - 1, x);
      assert a[i := x][1..] == a[1..][i - 1 := x];
    } else {
      assert a[0 := x][1..] == a[1..];
    }
  }

  ghost function Degree(c: Config, u: nat): nat {
    if u < |c.out| then |c.out[u]| else 0
  }

  /** Steps still ahead because of one waiting entry, or one thread. */
  ghost function Ahead(c: Config, u: nat): nat {
    4 * Degree(c, u) + 2
  }

  ghost function ThreadWork(c: Config, th: Thread): nat {
    match th
    case Idle => 0
    case AtEdge(u, k) => Left(c, u, k) + 1
    case HaveOld(u, k, _) => Left(c, u, k)
    case Trying(u, k, _, _) => if Left(c, u, k) > 0 then Left(c, u, k) - 1 else 0
    case Pushing(u, k, v, _) => Left(c, u, k + 1) + 1 + Ahead(c, v) + 2
  }

  ghost function Left(c: Config, u: nat, k: nat): nat {
    if k < Degree(c, u) then 4 * (Degree(c, u) - k) else 0
  }

  ghost function ListWork(c: Config, f: seq<nat>): nat {
    if f == [] then 0 else Ahead(c, f[0]) + ListWork(c, f[1..])
  }

  ghost function BinWork(c: Config, es: seq<Entry>): nat {
    if es == [] then 0 else Ahead(c, es[0].v) + 1 + BinWork(c, es[1..])
  }

  ghost function BinWorks(c: Config, bins: seq<seq<Entry>>): (r: seq<nat>)
    ensures |r| == |bins|
  {
    seq(|bins|, t requires 0 <= t < |bins| => BinWork(c, bins[t]))
  }

  ghost function ThreadWorks(c: Config, threads: seq<Thread>): (r: seq<nat>)
    ensures |r| == |threads|
  {
    seq(|threads|, t requires 0 <= t < |threads| => ThreadWork(c, threads[t]))
  }

  ghost function Work(c: Config, s: State): nat {
    ListWork(c, s.frontier) + Sum(BinWorks(c, s.bins)) + Sum(ThreadWorks(c, s.threads))
  }

  ghost function Befores(threads: seq<Thread>): (r: seq<nat>)
    ensures |r| == |threads|
  {
    seq(|threads|, t requires 0 <= t < |threads| => if threads[t].Trying? then threads[t].before else 0)
  }

  /** The lexicographic measure (sum of distances, work ahead, values last read) goes down. */
  ghost predicate Decreases(c: Config, s: State, s': State) {
    || Sum(s'.dist) < Sum(s.dist)
    || (Sum(s'.dist) == Sum(s.dist) && Work(c, s') < Work(c, s))
    || (Sum(s'.dist) == Sum(s.dist) && Work(c, s') == Work(c, s) && Sum(Befores(s'.threads)) < Sum(Befores(s.threads)))
  }

  lemma {:induction false} ListWorkWithout(c: Config, f: seq<nat>, i: nat)
    requires i < |f|
    ensures ListWork(c, f) == ListWork(c, Without(f, i)) + Ahead(c, f[i])
  {
    if i == 0 {
      assert Without(f, 0) == f[1..];
    } else {
      ListWorkWithout(c, f[1..], i - 1);
      assert Without(f, i) == [f[0]] + Without(f[1..], i - 1);
    }
  }

  lemma {:induction false} BinWorkWithout(c: Config, es: seq<Entry>, i: nat)
    requires i < |es|
    ensures BinWork(c, es) == BinWork(c, Without(es, i)) + Ahead(c, es[i].v) + 1
  {
    if i == 0 {
      assert Without(es, 0) == es[1..];
    } else {
      BinWorkWithout(c, es[1..], i - 1);
      assert Without(es, i) == [es[0]] + Without(es[1..], i - 1);
    }
  }

  lemma {:induction false} BinWorkAppend(c: Config, es: seq<Entry>, e: Entry)
    ensures BinWork(c, es + [e]) == BinWork(c, es) + Ahead(c, e.v) + 1
  {
    if es != [] {
      BinWorkAppend(c, es[1..], e);
      assert (es + [e])[1..] == es[1..] + [e];
    }
  }

  lemma OneThread(c: Config, s: State, t: nat, th: Thread)
    requires t < |s.threads|
    ensures Sum(ThreadWorks(c, s.threads[t := th])) == Sum(ThreadWorks(c, s.threads)) - ThreadWork(c, s.threads[t])
          + ThreadWork(c, th)
    ensures Sum(Befores(s.threads[t := th]))
         == Sum(Befores(s.threads)) - Befores(s.threads)[t] + (if th.Trying? then th.before else 0)
  {
    SumUpdate(ThreadWorks(c, s.threads), t, ThreadWork(c, th));
    assert ThreadWorks(c, s.threads[t := th]) == ThreadWorks(c, s.threads)[t := ThreadWork(c, th)];
    SumUpdate(Befores(s.threads), t, if th.Trying? then th.before else 0);
    assert Befores(s.threads[t := th]) == Befores(s.threads)[t := if th.Trying? then th.before else 0];
  }

  lemma OneBin(c: Config, bins: seq<seq<Entry>>, t: nat, es: seq<Entry>)
    requires t < |bins|
    ensures Sum(BinWorks(c, bins[t := es])) == Sum(BinWorks(c, bins)) - BinWork(c, bins[t]) + BinWork(c, es)
  {
    SumUpdate(BinWorks(c, bins), t, BinWork(c, es));
    assert BinWorks(c, bins[t := es]) == BinWorks(c, bins)[t := BinWork(c, es)];
  }

  lemma {:induction false} SplitWork(c: Config, es: seq<Entry>, bin: nat)
    ensures ListWork(c, Chosen(es, bin)) + BinWork(c, Rest(es, bin)) + |Chosen(es, bin)| == BinWork(c, es)
  {
    if es != [] {
      SplitWork(c, es[1..], bin);
      ListWorkConcat(c, if es[0].bin == bin then [es[0].v] else [], Chosen(es[1..], bin));
      if es[0].bin == bin {
        assert Rest(es, bin) == Rest(es[1..], bin);
        assert [es[0].v][1..] == [];
      } else {
        assert Rest(es, bin)[1..] == Rest(es[1..], bin);
        assert Chosen(es, bin) == Chosen(es[1..], bin);
      }
    }
  }

  lemma {:induction false} ListWorkConcat(c: Config, f: seq<nat>, g: seq<nat>)
    ensures ListWork(c, f + g) == ListWork(c, f) + ListWork(c, g)
  {
    if f == [] {
      assert f + g == g;
    } else {
      ListWorkConcat(c, f[1..], g);
      assert (f + g)[1..] == f[1..] + g;
    }
  }

  lemma {:induction false} GatherWork(c: Config, bins: seq<seq<Entry>>, bin: nat)
    ensures ListWork(c, Gather(bins, bin)) + Sum(BinWorks(c, Leave(bins, bin))) + |Gather(bins, bin)|
          == Sum(BinWorks(c, bins))
  {
    if bins != [] {
      GatherWork(c, bins[1..], bin);
      SplitWork(c, bins[0], bin);
      ListWorkConcat(c, Chosen(bins[0], bin), Gather(bins[1..], bin));
      assert BinWorks(c, bins)[1..] == BinWorks(c, bins[1..]);
      assert BinWorks(c, Leave(bins, bin))[1..] == BinWorks(c, Leave(bins[1..], bin));
    }
  }

  lemma FuseDecreases(c: Config, s: State, t: nat, i: nat, s': State)
    requires Inv(c, s) && Next(c, s, Fuse(t, i), s')
    ensures Decreases(c, s, s')
  {
    hide HasWalk, Config.Bin, Covered, EntryOk, DistOk, Sum, BinWork, ListWork, BinWorks, ThreadWorks;
    OneThread(c, s, t, AtEdge(s.bins[t][i].v, 0));
    OneBin(c, s.bins, t, Without(s.bins[t], i));
    BinWorkWithout(c, s.bins[t], i);
  }

  lemma FileDecreases(c: Config, s: State, t: nat, s': State)
    requires Inv(c, s) && Next(c, s, File(t), s')
    ensures Decreases(c, s, s')
  {
    hide HasWalk, Config.Bin, Covered, EntryOk, DistOk, Sum, BinWork, ListWork, BinWorks, ThreadWorks;
    var th := s.threads[t];
    OneThread(c, s, t, AtEdge(th.u, th.k + 1));
    OneBin(c, s.bins, t, s.bins[t] + [Entry(c.Bin(th.d), th.v)]);
    BinWorkAppend(c, s.bins[t], Entry(c.Bin(th.d), th.v));
  }

  lemma AdvanceDecreases(c: Config, s: State, next: nat, s': State)
    requires Inv(c, s) && Next(c, s, Advance(next), s')
    ensures Decreases(c, s, s')
  {
    hide HasWalk, Config.Bin, Covered, EntryOk, DistOk, Sum, BinWork, ListWork, BinWorks, ThreadWorks;
    GatherWork(c, s.bins, next);
    GatherMembers(s.bins, next);
    var t, e :| 0 <= t < |s.bins| && e in s.bins[t] && e.bin == next;
    assert e == Entry(next, e.v) && e.v in Gather(s.bins, next);
    NothingWaiting(c);
  }

  /** A thread that only reads, retries or moves on. */
  lemma LocalDecreases(c: Config, s: State, a: Action, s': State)
    requires Inv(c, s) && Next(c, s, a, s') && !a.Take? && !a.Skip? && !a.Fuse? && !a.Swap? && !a.File? && !a.Advance?
    ensures Decreases(c, s, s')
  {
    hide HasWalk, Config.Bin, Covered, EntryOk, DistOk, Sum, BinWork, ListWork, BinWorks, ThreadWorks;
    assert ThreadOk(c, s, s.threads[a.t]);
    OneThread(c, s, a.t, s'.threads[a.t]);
  }

  /** Every step takes the machine closer to its end: no run is infinite. */
  lemma StepDecreases(c: Config, s: State, a: Action, s': State)
    requires Inv(c, s) && Next(c, s, a, s')
    ensures Decreases(c, s, s')
  {
    hide HasWalk, Config.Bin, Covered, EntryOk, DistOk, Sum, BinWork, ListWork, BinWorks, ThreadWorks;
    match a
    case Take(t, i) =>
      OneThread(c, s, t, AtEdge(s.frontier[i], 0));
      ListWorkWithout(c, s.frontier, i);
    case Skip(i) => ListWorkWithout(c, s.frontier, i);
    case Fuse(t, i) => FuseDecreases(c, s, t, i, s');
    case Swap(t) => SumUpdate(s.dist, c.out[s.threads[t].u][s.threads[t].k].v, s.threads[t].cand);
    case File(t) => FileDecreases(c, s, t, s');
    case Advance(next) => AdvanceDecreases(c, s, next, s');
    case _ => LocalDecreases(c, s, a, s');
  }

  lemma NothingWaiting(c: Config)
    ensures ListWork(c, []) == 0
  {
  }
}
