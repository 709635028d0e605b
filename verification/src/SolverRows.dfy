/** The rows that the cache delivers are the ones the solver works with, before and after every exchange. */
module SolverRows {
  import opened DualProblem
  import opened Swaps
  import opened KernelCache
  import opened KernelRows

  /** The dual's matrix is the kernel matrix signed by the labels. */
  ghost predicate SignedKernel(d: Dual, K: seq<seq<real>>) {
    && d.WellFormed() && |K| == |d.p| && (forall s :: 0 <= s < |K| ==> |K[s]| == |K|)
    && (forall s, t :: 0 <= s < |K| && 0 <= t < |K| ==> SignedAt(d, K, s, t))
  }

  ghost predicate SignedAt(d: Dual, K: seq<seq<real>>, s: nat, t: nat)
    requires d.WellFormed() && |K| == |d.p| && s < |K| && t < |K| && |K[s]| == |K|
  {
    d.Q[s][t] == (d.y[s] * d.y[t]) as real * K[s][t]
  }

  /** The cache's points and labels are permuted like the solver's active set. */
  ghost predicate InStep(d: Dual, activeSet: seq<nat>, x: seq<nat>, y: seq<int>) {
    && |d.y| == |activeSet| == |x| == |y| && x == activeSet
    && forall i :: 0 <= i < |x| ==> x[i] < |d.y| && y[i] == d.y[x[i]]
  }

  /** A delivered row is the permuted row of the dual's matrix. */
  lemma CachedRowIsSolverRow(d: Dual, K: seq<seq<real>>, activeSet: seq<nat>, x: seq<nat>, y: seq<int>, i: nat,
                             row: seq<real>)
    requires SignedKernel(d, K) && InStep(d, activeSet, x, y) && Points(K, x, y, |K|) && i < |K|
          && RowOf(K, x, y, i, row)
    ensures forall j :: 0 <= j < |row| ==>
              activeSet[i] < |d.Q| && activeSet[j] < |d.Q[activeSet[i]]| && row[j] == d.Q[activeSet[i]][activeSet[j]]
  {
    forall j | 0 <= j < |row|
      ensures row[j] == d.Q[activeSet[i]][activeSet[j]]
    {
      assert SignedAt(d, K, x[i], x[j]);
    }
  }

  /** Exchanging the same two places on both sides keeps them in step. */
  lemma ExchangeInStep(d: Dual, activeSet: seq<nat>, x: seq<nat>, y: seq<int>, i: nat, j: nat)
    requires InStep(d, activeSet, x, y) && i < |x| && j < |x|
    ensures InStep(d, Swapped(activeSet, i, j), Swapped(x, i, j), Swapped(y, i, j))
  {
  }

  // ----- Whole conversations between the solver and its matrix -----

  /** What the solver asks of its matrix: some first entries of a row, or the exchange of two variables. */
  datatype Request = Row(i: nat, want: nat) | Exchanged(i: nat, j: nat)

  predicate Sensible(r: Request, l: nat) {
    match r
    case Row(i, want) => i < l && 1 <= want <= l
    case Exchanged(i, j) => i < l && j < l
  }

  /** The solver's order of the variables after the first k requests. */
  ghost function OrderAfter(l: nat, requests: seq<Request>, k: nat): (order: seq<nat>)
    requires k <= |requests| && forall n :: 0 <= n < k ==> Sensible(requests[n], l)
    ensures |order| == l && forall n :: 0 <= n < l ==> order[n] < l
  {
    if k == 0 then seq(l, n => n)
    else
      assert Sensible(requests[k - 1], l);
      OrderThen(OrderAfter(l, requests, k - 1), requests[k - 1])
  }

  ghost function OrderThen(order: seq<nat>, r: Request): seq<nat>
    requires Sensible(r, |order|)
  {
    match r
    case Row(_, _) => order
    case Exchanged(i, j) => Swapped(order, i, j)
  }

  /** The answer holds at least the requested entries of the row, in the given order of the variables. */
  ghost predicate Answers(d: Dual, order: seq<nat>, r: Request, answer: seq<real>)
    requires d.WellFormed() && |order| == |d.p| && forall n :: 0 <= n < |order| ==> order[n] < |d.p|
  {
    r.Row? && Sensible(r, |d.p|) ==>
      r.want <= |answer| <= |d.p| && forall n :: 0 <= n < |answer| ==> answer[n] == d.Q[order[r.i]][order[n]]
  }

  method ServeOne(d: Dual, K: seq<seq<real>>, q: SvcQ, ghost order: seq<nat>, r: Request) returns (answer: seq<real>)
    requires SignedKernel(d, K) && q.Valid() && q.K == K && InStep(d, order, q.x, q.y) && Sensible(r, |K|)
    modifies q, q.cache
    ensures q.Valid() && |order| == |K| && InStep(d, OrderThen(order, r), q.x, q.y)
    ensures (forall n :: 0 <= n < |order| ==> order[n] < |d.p|) && Answers(d, order, r, answer)
  {
    answer := [];
    KernelShape(d, K);
    match r {
      case Row(i, want) =>
        hide Entry, Cache.Valid, SignedKernel;
        answer := q.GetQ(i, want);
        CachedRowIsSolverRow(d, K, order, q.x, q.y, i, answer);
      case Exchanged(i, j) =>
        hide Entry, Cache.Valid, SignedKernel, RowOf, Dual.WellFormed;
        ExchangeInStep(d, order, q.x, q.y, i, j);
        q.SwapIndex(i, j);
    }
  }

  /** Whatever the solver asks in whatever order, with whatever room in the cache, it is given the rows of its matrix in
      its present order of the variables. */
  method Serve(d: Dual, K: seq<seq<real>>, budget: int, requests: seq<Request>) returns (answers: seq<seq<real>>)
    requires SignedKernel(d, K) && forall k :: 0 <= k < |requests| ==> Sensible(requests[k], |K|)
    ensures |answers| == |requests|
    ensures forall k :: 0 <= k < |requests| ==> Answers(d, OrderAfter(|K|, requests, k), requests[k], answers[k])
  {
    hide SignedKernel, OrderAfter, Dual.WellFormed, SvcQ.Valid, InStep, Answers, OrderThen;
    KernelShape(d, K);
    var q := new SvcQ(K, d.y, budget);
    answers := [];
    StartsInStep(d, requests);
    for k := 0 to |requests|
      invariant q.Valid() && q.K == K && fresh(q) && fresh(q.cache) && |answers| == k
      invariant InStep(d, OrderAfter(|K|, requests, k), q.x, q.y)
      invariant forall n :: 0 <= n < k ==> Answers(d, OrderAfter(|K|, requests, n), requests[n], answers[n])
    {
      OrderNext(|K|, requests, k);
      var answer := ServeOne(d, K, q, OrderAfter(|K|, requests, k), requests[k]);
      answers := answers + [answer];
    }
  }

  lemma KernelShape(d: Dual, K: seq<seq<real>>)
    requires SignedKernel(d, K)
    ensures d.WellFormed() && |K| == |d.p| == |d.y| && forall s :: 0 <= s < |K| ==> |K[s]| == |K|
  {
  }

  lemma StartsInStep(d: Dual, requests: seq<Request>)
    requires d.WellFormed()
    ensures InStep(d, OrderAfter(|d.y|, requests, 0), seq(|d.y|, i => i), d.y)
  {
  }

  lemma OrderNext(l: nat, requests: seq<Request>, k: nat)
    requires k < |requests| && forall n :: 0 <= n < |requests| ==> Sensible(requests[n], l)
    ensures OrderAfter(l, requests, k + 1) == OrderThen(OrderAfter(l, requests, k), requests[k])
  {
  }
}
