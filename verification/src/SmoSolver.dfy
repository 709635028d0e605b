/** The sequential minimal optimisation solver with shrinking, in place on its arrays.
    `nu` selects the overriding member functions of the nu-variant. Rows of the kernel matrix come from the cached
    matrix `q`, whose points and labels are permuted in step with the active set. */
module SmoSolver {
  import opened Swaps
  import opened Vectors
  import opened DualProblem
  import opened SmoState
  import opened PairStep
  import opened WorkingSet
  import opened Bias
  import opened KernelRows
  import R = SolverRows

  method Clone<T>(s: seq<T>) returns (a: array<T>)
    ensures fresh(a) && a[..] == s
  {
    a := new T[|s|](i requires 0 <= i < |s| => s[i]);
  }

  lemma InitiallyAgrees(d: Dual, a: seq<real>, s: State)
    requires d.WellFormed() && |a| == |d.p| && Indexed(d, s)
    requires s.y == d.y && s.p == d.p && s.alpha == a
    requires forall k :: 0 <= k < |d.p| ==> s.status[k] == StatusOf(d, a[k], k) && s.activeSet[k] == k
    ensures forall k :: 0 <= k < |d.p| ==> AgreesAt(d, a, s, k)
  {
  }

  method SwapCells<T>(a: array<T>, i: nat, j: nat)
    requires i < a.Length && j < a.Length
    modifies a
    ensures a[..] == Swapped(old(a[..]), i, j)
  {
    a[i], a[j] := a[j], a[i];
  }

  function FreeCount(status: seq<Status>, n: nat): nat
    requires n <= |status|
  {
    if n == 0 then 0 else FreeCount(status, n - 1) + (if status[n - 1] == Free then 1 else 0)
  }

  const INT_MAX: int := 2147483647

  class Solver {
    const d: Dual
    const eps: real
    const nu: bool
    const y: array<int>
    const G: array<real>
    const status: array<Status>
    const alpha: array<real>
    const p: array<real>
    const activeSet: array<nat>
    const Gbar: array<real>
    const q: SvcQ
    var activeSize: nat
    var unshrink: bool
    ghost var A: seq<real>
    ghost var pos: seq<nat>

    ghost function View(): State
      reads this, y, G, status, alpha, p, activeSet, Gbar
    {
      State(activeSize, y[..], G[..], status[..], alpha[..], p[..], activeSet[..], Gbar[..])
    }

    ghost predicate Separate() {
      && G != alpha && G != p && G != Gbar && alpha != p && alpha != Gbar && p != Gbar
      && y as object != activeSet as object
    }

    ghost predicate CoreUpTo(n: nat)
      reads this, y, G, status, alpha, p, activeSet, Gbar
    {
      Separate() && Core(d, A, pos, View(), n)
    }

    ghost predicate Valid()
      reads this, y, G, status, alpha, p, activeSet, Gbar
    {
      Separate() && eps > 0.0 && Inv(d, A, pos, View())
    }

    /** The cached matrix is the kernel of this problem, in the present order of the variables. */
    ghost predicate Served()
      reads q, q.cache, activeSet
    {
      q.Valid() && R.SignedKernel(d, q.K) && R.InStep(d, activeSet[..], q.x, q.y)
    }

    /** The row holds first entries of row i of the permuted matrix. */
    ghost predicate IsRow(i: nat, row: seq<real>)
      reads activeSet
    {
      && d.WellFormed() && i < activeSet.Length == |d.p| && |row| <= |d.p|
      && (forall k :: 0 <= k < |d.p| ==> activeSet[k] < |d.p|)
      && forall k :: 0 <= k < |row| ==> row[k] == d.Q[activeSet[i]][activeSet[k]]
    }

    /** Requests the first `want` entries of a row. */
    method Fetch(i: nat, want: nat) returns (row: seq<real>)
      requires Served() && i < |d.p| && 1 <= want <= |d.p|
      modifies q.cache
      ensures Served() && IsRow(i, row) && |row| >= want
    {
      hide R.SignedKernel, Entry;
      R.KernelShape(d, q.K);
      row := q.GetQ(i, want);
      R.CachedRowIsSolverRow(d, q.K, activeSet[..], q.x, q.y, i, row);
    }

    /** The diagonal in the present order. */
    lemma DiagonalServed(i: nat)
      requires Served() && i < |d.p|
      ensures d.WellFormed() && i < activeSet.Length && activeSet[i] < |d.p| && i < |q.QD|
      ensures q.QD[i] == d.Q[activeSet[i]][activeSet[i]]
    {
      hide RowOf;
      R.KernelShape(d, q.K);
      assert R.SignedAt(d, q.K, q.x[i], q.x[i]);
    }

    /** The state in which the optimisation starts: everything active and in its original order. */
    constructor (d: Dual, q: SvcQ, start: seq<real>, eps: real, nu: bool)
      requires d.WellFormed() && d.InBox(start) && eps > 0.0
      requires q.Valid() && R.SignedKernel(d, q.K) && R.InStep(d, seq(|d.p|, k => k), q.x, q.y)
      modifies q.cache
      ensures this.d == d && this.eps == eps && this.nu == nu && this.q == q
      ensures Valid() && Served() && A == start && activeSize == |d.p| && !unshrink
      ensures fresh(y) && fresh(G) && fresh(status) && fresh(alpha) && fresh(p) && fresh(activeSet) && fresh(Gbar)
    {
      hide Inv, Dot, SvcQ.Valid, R.SignedKernel, R.InStep;
      var l := |d.p|;
      this.d, this.eps, this.nu := d, eps, nu;
      var labels := Clone(d.y);
      var linear := Clone(d.p);
      var point := Clone(start);
      var grad := Clone(d.p);
      var bar := Clone(seq(l, _ => 0.0));
      var bounds := Clone(seq(l, k requires 0 <= k < l => StatusOf(d, start[k], k)));
      var identity := Clone<nat>(seq(l, k => k));
      y, p, alpha, G, Gbar, status, activeSet := labels, linear, point, grad, bar, bounds, identity;
      activeSize, unshrink, A, pos := l, false, start, seq(l, k => k);
      this.q := q;
      new;
      Initialise(start);
    }

    method Initialise(ghost start: seq<real>)
      requires d.WellFormed() && d.InBox(start) && eps > 0.0 && Separate() && A == start && pos == seq(|d.p|, k => k)
      requires activeSize == |d.p| && y[..] == d.y && p[..] == d.p && alpha[..] == start && G[..] == d.p
      requires Gbar[..] == seq(|d.p|, _ => 0.0) && activeSet[..] == seq(|d.p|, k => k)
      requires status[..] == seq(|d.p|, k requires 0 <= k < |d.p| => StatusOf(d, start[k], k))
      requires q.Valid() && R.SignedKernel(d, q.K) && R.InStep(d, seq(|d.p|, k => k), q.x, q.y)
      modifies G, Gbar, q.cache
      ensures Valid() && Served()
    {
      hide Inv, Dot, SvcQ.Valid, R.SignedKernel, R.InStep, StatusOf;
      InitiallyAgrees(d, start, View());
      InitialGradient();
    }

    /** Every position still holds the variable of its own index. */
    ghost predicate Unpermuted()
      reads this, y, G, status, alpha, p, activeSet, Gbar
    {
      && Separate() && Indexed(d, View()) && d.InBox(A) && activeSize == |d.p| == |pos|
      && (forall k :: 0 <= k < |d.p| ==> activeSet[k] == k && pos[k] == k)
      && (forall k :: 0 <= k < |d.p| ==> AgreesAt(d, A, View(), k))
    }

    ghost predicate ColumnsAdded(u: seq<real>, n: nat)
      requires d.WellFormed() && |A| == |u| == |d.p| && G.Length == Gbar.Length == |d.p| && n <= |d.p|
      reads this, G, Gbar
    {
      && (forall k :: 0 <= k < |d.p| ==> G[k] == d.p[k] + Dot(d.Q[k], A, n))
      && (forall k :: 0 <= k < |d.p| ==> Gbar[k] == Dot(d.Q[k], u, n))
    }

    method InitialGradient()
      requires Unpermuted() && Served() && eps > 0.0
      requires forall k :: 0 <= k < |d.p| ==> G[k] == d.p[k] && Gbar[k] == 0.0
      modifies G, Gbar, q.cache
      ensures Valid() && Served()
    {
      hide Served, AgreesAt, Dot, StatusOf, UpperPart, Inv, ColumnsAdded;
      ghost var u := UpperPart(d, A);
      NothingAdded(u);
      for i := 0 to |d.p|
        invariant Unpermuted() && Served() && ColumnsAdded(u, i)
      {
        InitialColumn(i, u);
      }
      StartsValid(u);
    }

    lemma NothingAdded(u: seq<real>)
      requires d.WellFormed() && |A| == |u| == |d.p| && G.Length == Gbar.Length == |d.p|
      requires forall k :: 0 <= k < |d.p| ==> G[k] == d.p[k] && Gbar[k] == 0.0
      ensures ColumnsAdded(u, 0)
    {
    }

    lemma StartsValid(u: seq<real>)
      requires Unpermuted() && eps > 0.0 && u == UpperPart(d, A) && ColumnsAdded(u, |d.p|)
      ensures Valid()
    {
      hide Dot, StatusOf;
    }

    lemma KeepUnpermuted(s: State)
      requires Indexed(d, s) && |A| == |d.p| && forall k :: 0 <= k < |d.p| ==> AgreesAt(d, A, s, k)
      requires View() == s.(G := G[..], Gbar := Gbar[..])
      ensures forall k :: 0 <= k < |d.p| ==> AgreesAt(d, A, View(), k)
    {
      hide StatusOf, Dual.WellFormed;
      forall k | 0 <= k < |d.p|
        ensures AgreesAt(d, A, View(), k)
      {
        assert AgreesAt(d, A, s, k);
      }
    }

    method InitialColumn(i: nat, ghost u: seq<real>)
      requires Unpermuted() && Served() && i < |d.p| && u == UpperPart(d, A)
      requires ColumnsAdded(u, i)
      modifies G, Gbar, q.cache
      ensures Unpermuted() && Served() && ColumnsAdded(u, i + 1)
    {
      hide Dot, Shift, UpperPart, Served;
      ghost var s, next := View(), i + 1;
      assert AgreesAt(d, A, s, i);
      if status[i] != LowerBound {
        AddColumn(G, i, alpha[i]);
        if status[i] == UpperBound {
          AddColumn(Gbar, i, d.C(activeSet[i]));
        }
      }
      KeepUnpermuted(s);
      forall k | 0 <= k < |d.p|
        ensures G[k] == d.p[k] + Dot(d.Q[k], A, next) && Gbar[k] == Dot(d.Q[k], u, next)
      {
        DotNext(d, k, A, i);
        DotNext(d, k, u, i);
      }
    }

    /** Adds c times column i of the permuted matrix. */
    method AddColumn(arr: array<real>, i: nat, c: real)
      requires d.WellFormed() && Served() && i < |d.p| && arr.Length == activeSet.Length == |d.p|
      requires forall k :: 0 <= k < |d.p| ==> activeSet[k] < |d.p|
      modifies arr, q.cache
      ensures Served()
      ensures forall k :: 0 <= k < |d.p| ==> arr[k] == old(arr[k]) + Shift(d, activeSet[k], activeSet[i], c)
    {
      hide Served;
      var row := Fetch(i, |d.p|);
      for k := 0 to |d.p|
        invariant Served()
        invariant forall m :: 0 <= m < k ==> arr[m] == old(arr[m]) + Shift(d, activeSet[m], activeSet[i], c)
        invariant forall m :: k <= m < |d.p| ==> arr[m] == old(arr[m])
      {
        arr[k] := arr[k] + c * row[k];
      }
    }

    ghost predicate SameLengths(l: nat)
      reads this
    {
      y.Length == G.Length == status.Length == alpha.Length == p.Length == activeSet.Length == Gbar.Length == l
    }

    method ExchangeArrays(i: nat, j: nat)
      requires Separate() && SameLengths(y.Length) && i < y.Length && j < y.Length
      modifies y, G, status, alpha, p, activeSet, Gbar
      ensures View() == old(SwapState(View(), i, j))
    {
      SwapCells(y, i, j);
      SwapCells(G, i, j);
      SwapCells(status, i, j);
      SwapCells(alpha, i, j);
      SwapCells(p, i, j);
      SwapCells(activeSet, i, j);
      SwapCells(Gbar, i, j);
    }

    method SwapIndex(i: nat, j: nat, ghost n: nat)
      requires CoreUpTo(n) && Served() && i < n && j < n
      modifies y, G, status, alpha, p, activeSet, Gbar, this`pos, q, q.cache
      ensures CoreUpTo(n) && Served()
      ensures View() == old(SwapState(View(), i, j))
    {
      hide Core, SwapState, SvcQ.Valid, R.SignedKernel, R.InStep, CoreUpTo, Served, Separate, SwapPos;
      SwapShape(n);
      ghost var s, places := View(), SwapPos(pos, activeSet[i], activeSet[j]);
      CoreSwap(d, A, pos, s, i, j, n);
      pos := places;
      SwapServed(i, j);
      ExchangeArrays(i, j);
      Exchanged(i, j, n, s);
    }

    lemma SwapShape(n: nat)
      requires CoreUpTo(n)
      ensures Separate() && SameLengths(|d.p|) && n <= |d.p| == |pos| && Core(d, A, pos, View(), n)
      ensures y.Length == G.Length == status.Length == alpha.Length == |d.p|
      ensures p.Length == activeSet.Length == Gbar.Length == |d.p|
      ensures forall k :: 0 <= k < |d.p| ==> activeSet[k] < |d.p|
    {
      hide AgreesAt, GradientUpTo, BarEverywhere, Dual.WellFormed, Dual.InBox;
    }

    lemma Exchanged(i: nat, j: nat, n: nat, s: State)
      requires |s.y| == |s.G| == |s.status| == |s.alpha| == |s.p| == |s.Gbar| == |s.activeSet| && i < |s.y| && j < |s.y|
      requires View() == SwapState(s, i, j) && Separate() && Core(d, A, pos, SwapState(s, i, j), n)
      requires q.Valid() && R.SignedKernel(d, q.K) && R.InStep(d, Swapped(s.activeSet, i, j), q.x, q.y)
      ensures CoreUpTo(n) && Served()
    {
      hide Core, SvcQ.Valid, R.SignedKernel, R.InStep;
    }

    /** The cached matrix makes the exchange that the active set is about to make. */
    method SwapServed(i: nat, j: nat)
      requires Served() && i < |d.p| && j < |d.p|
      modifies q, q.cache
      ensures i < activeSet.Length && j < activeSet.Length
      ensures q.Valid() && R.SignedKernel(d, q.K) && R.InStep(d, Swapped(activeSet[..], i, j), q.x, q.y)
    {
      hide R.SignedKernel, Entry;
      R.KernelShape(d, q.K);
      R.ExchangeInStep(d, activeSet[..], q.x, q.y, i, j);
      q.SwapIndex(i, j);
    }

    /** Nothing but G has changed since s, and G only at inactive positions. */
    ghost predicate OnlyInactiveG(s: State)
      reads this, y, G, status, alpha, p, activeSet, Gbar
    {
      && Separate() && Inv(d, A, pos, s)
      && View() == s.(G := G[..]) && |G[..]| == |s.G| && s.activeSize <= |s.G|
      && forall k :: 0 <= k < s.activeSize ==> G[k] == s.G[k]
    }

    method ReconstructGradient()
      requires Valid() && Served()
      modifies G, q.cache
      ensures Valid() && Served() && CoreUpTo(|d.p|)
    {
      hide Served, Dot, AgreesAt, GradientUpTo, BarEverywhere, PartialSum, Dual.WellFormed;
      if activeSize == |d.p| {
        return;
      }
      ghost var s := View();
      FillFromBar(s);
      var free := CountFree();
      if free * |d.p| > 2 * activeSize * (|d.p| - activeSize) {
        AddFreeByRows(s);
      } else {
        AddFreeByColumns(s);
      }
      PartialEnd(d, A, pos, s, G[..]);
      CoreWeaken(d, A, pos, View(), activeSize, |d.p|);
    }

    method FillFromBar(ghost s: State)
      requires OnlyInactiveG(s)
      modifies G
      ensures OnlyInactiveG(s)
      ensures forall k :: activeSize <= k < |d.p| ==> G[k] == PartialSum(d, A, pos, s, k, 0)
    {
      hide Dot, AgreesAt, GradientUpTo, BarEverywhere, PartialSum, Dual.WellFormed;
      for j := activeSize to |d.p|
        invariant forall k :: 0 <= k < activeSize ==> G[k] == s.G[k]
        invariant forall k :: activeSize <= k < j ==> G[k] == PartialSum(d, A, pos, s, k, 0)
      {
        G[j] := Gbar[j] + p[j];
        PartialStart(d, A, pos, s, j);
      }
    }

    method CountFree() returns (n: nat)
      requires activeSize <= status.Length
      ensures n == FreeCount(status[..], activeSize)
    {
      n := 0;
      for j := 0 to activeSize
        invariant n == FreeCount(status[..], j)
      {
        if status[j] == Free {
          n := n + 1;
        }
      }
    }

    method AddFreeByRows(ghost s: State)
      requires OnlyInactiveG(s) && Served()
      requires forall k :: activeSize <= k < |d.p| ==> G[k] == PartialSum(d, A, pos, s, k, 0)
      modifies G, q.cache
      ensures OnlyInactiveG(s) && Served()
      ensures forall k :: activeSize <= k < |d.p| ==> G[k] == PartialSum(d, A, pos, s, k, activeSize)
    {
      hide Served, Dot, AgreesAt, GradientUpTo, BarEverywhere, PartialSum, Dual.WellFormed;
      for i := activeSize to |d.p|
        invariant OnlyInactiveG(s) && Served()
        invariant forall k :: activeSize <= k < i ==> G[k] == PartialSum(d, A, pos, s, k, activeSize)
        invariant forall k :: i <= k < |d.p| ==> G[k] == PartialSum(d, A, pos, s, k, 0)
      {
        AddFreeRow(i, s);
      }
    }

    method AddFreeRow(i: nat, ghost s: State)
      requires OnlyInactiveG(s) && Served() && activeSize <= i < |d.p|
      requires G[i] == PartialSum(d, A, pos, s, i, 0)
      modifies G, q.cache
      ensures OnlyInactiveG(s) && Served()
      ensures G[i] == PartialSum(d, A, pos, s, i, activeSize)
      ensures forall k :: 0 <= k < |d.p| && k != i ==> G[k] == old(G[k])
    {
      hide Served, Dot, AgreesAt, GradientUpTo, BarEverywhere, PartialSum;
      if activeSize == 0 {
        return;
      }
      var row := Fetch(i, activeSize);
      for j := 0 to activeSize
        invariant Served() && G[i] == PartialSum(d, A, pos, s, i, j)
        invariant forall k :: 0 <= k < |d.p| && k != i ==> G[k] == old(G[k])
      {
        PartialNext(d, A, pos, s, i, j);
        if status[j] == Free {
          G[i] := G[i] + alpha[j] * row[j];
        }
      }
    }

    method AddFreeByColumns(ghost s: State)
      requires OnlyInactiveG(s) && Served()
      requires forall k :: activeSize <= k < |d.p| ==> G[k] == PartialSum(d, A, pos, s, k, 0)
      modifies G, q.cache
      ensures OnlyInactiveG(s) && Served()
      ensures forall k :: activeSize <= k < |d.p| ==> G[k] == PartialSum(d, A, pos, s, k, activeSize)
    {
      hide Served, Dot, AgreesAt, GradientUpTo, BarEverywhere, PartialSum, Dual.WellFormed;
      for i := 0 to activeSize
        invariant OnlyInactiveG(s) && Served()
        invariant forall k :: activeSize <= k < |d.p| ==> G[k] == PartialSum(d, A, pos, s, k, i)
      {
        if status[i] == Free {
          AddFreeColumn(i, s);
        } else {
          forall k | activeSize <= k < |d.p|
            ensures G[k] == PartialSum(d, A, pos, s, k, i + 1)
          {
            PartialNext(d, A, pos, s, k, i);
          }
        }
      }
    }

    method AddFreeColumn(i: nat, ghost s: State)
      requires OnlyInactiveG(s) && Served() && i < activeSize && status[i] == Free
      requires forall k :: activeSize <= k < |d.p| ==> G[k] == PartialSum(d, A, pos, s, k, i)
      modifies G, q.cache
      ensures OnlyInactiveG(s) && Served()
      ensures var next := i + 1; forall k :: activeSize <= k < |d.p| ==> G[k] == PartialSum(d, A, pos, s, k, next)
    {
      hide Served, Dot, AgreesAt, GradientUpTo, BarEverywhere, PartialSum;
      var row := Fetch(i, |d.p|);
      var alphaI := alpha[i];
      ghost var next := i + 1;
      for j := activeSize to |d.p|
        invariant Served() && forall k :: 0 <= k < activeSize ==> G[k] == s.G[k]
        invariant forall k :: activeSize <= k < j ==> G[k] == PartialSum(d, A, pos, s, k, next)
        invariant forall k :: j <= k < |d.p| ==> G[k] == PartialSum(d, A, pos, s, k, i)
      {
        PartialNext(d, A, pos, s, j, i);
        G[j] := G[j] + alphaI * row[j];
      }
    }

    predicate ShrunkHere(k: nat, th: Thresholds)
      requires k < y.Length && k < status.Length && k < G.Length
      reads y, status, G
    {
      BeShrunk(y[k] == 1, status[k], G[k], th)
    }

    /** Position i is to go: fill it with the last position that stays, if one is left. */
    method CloseGap(i: nat, ghost n: nat, th: Thresholds)
      requires CoreUpTo(n) && Served() && i < activeSize <= n && NoneFreeFrom(View(), n)
      requires forall k :: 0 <= k < i ==> !ShrunkAt(y[..], status[..], G[..], th, k)
      requires ShrunkAt(y[..], status[..], G[..], th, i)
      requires forall k :: activeSize <= k < n ==> ShrunkAt(y[..], status[..], G[..], th, k)
      modifies this`activeSize, this`pos, y, G, status, alpha, p, activeSet, Gbar, q, q.cache
      ensures CoreUpTo(n) && Served() && i <= activeSize < old(activeSize) && NoneFreeFrom(View(), n)
      ensures forall k :: 0 <= k <= i && k < activeSize ==> !ShrunkAt(y[..], status[..], G[..], th, k)
      ensures forall k :: activeSize <= k < n ==> ShrunkAt(y[..], status[..], G[..], th, k)
    {
      hide Served, Dot, AgreesAt, GradientUpTo, BarEverywhere, Dual.WellFormed, BeShrunk;
      ghost var s := View();
      activeSize := activeSize - 1;
      while activeSize > i
        invariant i <= activeSize < n && Served()
        invariant View() == s.(activeSize := activeSize) && Separate() && Core(d, A, pos, s, n)
        invariant forall k :: activeSize < k < n ==> ShrunkAt(s.y, s.status, s.G, th, k)
        decreases activeSize
      {
        CoreResize(d, A, pos, s, activeSize, n);
        if !ShrunkHere(activeSize, th) {
          ghost var m := activeSize;
          SwapIndex(i, activeSize, n);
          AfterSwap(s.(activeSize := m), View(), th, i, m, n);
          return;
        }
        activeSize := activeSize - 1;
      }
      CoreResize(d, A, pos, s, activeSize, n);
    }

    /** Two-pointer partition: keeps in front exactly the positions that the test does not shrink. */
    method Partition(th: Thresholds)
      requires Valid() && Served()
      modifies this`activeSize, this`pos, y, G, status, alpha, p, activeSet, Gbar, q, q.cache
      ensures Valid() && Served() && CoreUpTo(old(activeSize)) && activeSize <= old(activeSize)
      ensures forall k :: 0 <= k < activeSize ==> !ShrunkAt(y[..], status[..], G[..], th, k)
      ensures forall k :: activeSize <= k < old(activeSize) ==> ShrunkAt(y[..], status[..], G[..], th, k)
    {
      hide Dot, AgreesAt, GradientUpTo, BarEverywhere, Dual.WellFormed, BeShrunk, Permutation, SwapState, Served;
      ghost var n := activeSize;
      var i := 0;
      while i < activeSize
        invariant CoreUpTo(n) && Served() && activeSize <= n
        invariant NoneFreeFrom(View(), n)
        invariant forall k :: 0 <= k < i && k < activeSize ==> !ShrunkAt(y[..], status[..], G[..], th, k)
        invariant forall k :: activeSize <= k < n ==> ShrunkAt(y[..], status[..], G[..], th, k)
        decreases activeSize - i
      {
        if ShrunkHere(i, th) {
          CloseGap(i, n, th);
        }
        i := i + 1;
      }
      ShrunkIsBound(View(), th, activeSize, n);
      CoreWeaken(d, A, pos, View(), activeSize, n);
    }

    /** First loop of the selection: the last maximal violator of a group, if any may go up. */
    method MaxUp(group: int) returns (m: Ext, idx: int)
      requires Sized(View(), activeSize)
      ensures UpMax(View(), nu, group, activeSize, m)
      ensures SlotHolds(View(), nu, group, activeSize, m, idx)
    {
      m, idx := NegInf, -1;
      ghost var s := View();
      for t := 0 to activeSize
        invariant UpMax(s, nu, group, t, m)
        invariant SlotHolds(s, nu, group, t, m, idx)
      {
        assert UpAt(s, nu, group, t) == (InGroup(nu, y[t], group) && Up(y[t], status[t]));
        if InGroup(nu, y[t], group) && Up(y[t], status[t]) {
          var g := -Signed(y[t], G[t]);
          if m.AtMost(g) {
            m, idx := Fin(g), t;
          }
        }
      }
    }

    /** The row of a slot, if it holds an index. */
    method FetchSlot(i: int) returns (row: seq<real>)
      requires Served() && -1 <= i < activeSize <= |d.p|
      modifies q.cache
      ensures Served() && (i != -1 ==> IsRow(i, row) && |row| >= activeSize)
    {
      hide Served, IsRow;
      row := [];
      if i != -1 {
        row := Fetch(i, activeSize);
      }
    }

    /** Second loop of the selection: the group maxima of y*G, and the best partner found. */
    method BestPartner(upP: Ext, ip: int, upN: Ext, im: int) returns (lowP: Ext, lowN: Ext, best: int)
      requires Labelled() && SlotHolds(View(), nu, 1, activeSize, upP, ip)
            && SlotHolds(View(), nu, -1, activeSize, upN, im)
      requires Served()
      modifies q.cache
      ensures Served()
      ensures LowMax(View(), nu, 1, activeSize, lowP) && (nu ==> LowMax(View(), nu, -1, activeSize, lowN))
      ensures exists least :: BestSoFar(d, View(), nu, upP, ip, upN, im, activeSize, best, least)
    {
      hide Curvature, Estimate, PairCurvature, LowMax, BestSoFar, Dual.WellFormed, Served, IsRow;
      var rowP := FetchSlot(ip);
      var rowN := FetchSlot(im);
      lowP, lowN, best := NegInf, NegInf, -1;
      var least := 0.0;
      ghost var s := View();
      SearchStart(d, s, nu, upP, ip, upN, im);
      for j := 0 to activeSize
        invariant LowMax(s, nu, 1, j, lowP) && (nu ==> LowMax(s, nu, -1, j, lowN))
        invariant BestSoFar(d, s, nu, upP, ip, upN, im, j, best, least)
        invariant Served() && (ip != -1 ==> IsRow(ip, rowP) && |rowP| >= activeSize)
        invariant im != -1 ==> IsRow(im, rowN) && |rowN| >= activeSize
      {
        best, least := Consider(upP, ip, rowP, upN, im, rowN, j, best, least);
        lowP, lowN := RaiseLow(lowP, lowN, j);
      }
    }

    /** One position's chance to be the best partner. */
    method Consider(upP: Ext, ip: int, rowP: seq<real>, upN: Ext, im: int, rowN: seq<real>, j: nat, best: int,
                    least: real)
      returns (best': int, least': real)
      requires Labelled() && Served() && j < activeSize
      requires SlotHolds(View(), nu, 1, activeSize, upP, ip) && SlotHolds(View(), nu, -1, activeSize, upN, im)
      requires (ip != -1 ==> IsRow(ip, rowP) && |rowP| >= activeSize)
            && (im != -1 ==> IsRow(im, rowN) && |rowN| >= activeSize)
      requires BestSoFar(d, View(), nu, upP, ip, upN, im, j, best, least)
      ensures BestSoFar(d, View(), nu, upP, ip, upN, im, j + 1, best', least')
    {
      hide SlotHolds, BestSoFar, Offer, Dual.WellFormed, Served, IsRow;
      BestStep(d, View(), nu, upP, ip, upN, im, j, best, least);
      best', least' := best, least;
      if Low(y[j], status[j]) {
        var up := if SecondSlot(nu, y[j]) then upN else upP;
        if up.Fin? && up.v + Signed(y[j], G[j]) > 0.0 {
          var objDiff := OfferOf(upP, ip, rowP, upN, im, rowN, j);
          if best == -1 || objDiff <= least {
            best', least' := j, objDiff;
          }
        }
      }
    }

    /** One position's share in the maxima of the variables that may go down. */
    method RaiseLow(lowP: Ext, lowN: Ext, j: nat) returns (lowP': Ext, lowN': Ext)
      requires Labelled() && j < activeSize
      requires LowMax(View(), nu, 1, j, lowP) && (nu ==> LowMax(View(), nu, -1, j, lowN))
      ensures LowMax(View(), nu, 1, j + 1, lowP') && (nu ==> LowMax(View(), nu, -1, j + 1, lowN'))
    {
      hide LowMax, Dual.WellFormed;
      LowMaxStep(View(), nu, 1, j, lowP);
      if nu {
        LowMaxStep(View(), nu, -1, j, lowN);
      }
      lowP', lowN' := lowP, lowN;
      if Low(y[j], status[j]) {
        var g := Signed(y[j], G[j]);
        if SecondSlot(nu, y[j]) {
          if lowN.AtMost(g) {
            lowN' := Fin(g);
          }
        } else {
          if lowP.AtMost(g) {
            lowP' := Fin(g);
          }
        }
      }
    }

    /** What a candidate offers, from the rows of the two slots. */
    method OfferOf(upP: Ext, ip: int, rowP: seq<real>, upN: Ext, im: int, rowN: seq<real>, j: nat) returns (offer: real)
      requires Labelled() && Served() && j < activeSize && Candidate(View(), nu, upP, upN, j)
      requires SlotHolds(View(), nu, 1, activeSize, upP, ip) && SlotHolds(View(), nu, -1, activeSize, upN, im)
      requires (ip != -1 ==> IsRow(ip, rowP) && |rowP| >= activeSize)
            && (im != -1 ==> IsRow(im, rowN) && |rowN| >= activeSize)
      ensures offer == Offer(d, View(), nu, upP, ip, upN, im, j)
    {
      hide Curvature, Estimate, PairCurvature, Dual.WellFormed, Served, IsRow, QuadFrom;
      var i, row, up := ip, rowP, upP;
      if SecondSlot(nu, y[j]) {
        i, row, up := im, rowN, upN;
      }
      QuadIsCurvature(row, i, j);
      offer := Estimate(up.v + Signed(y[j], G[j]), QuadFrom(row, i, j));
    }

    /** QD[i] + QD[j] -/+ 2 Q_i[j], by whether the labels agree. */
    function QuadFrom(row: seq<real>, i: nat, j: nat): real
      requires i < y.Length && j < y.Length && i < |q.QD| && j < |q.QD| && j < |row|
      reads q, y
    {
      if y[i] == y[j] then q.QD[i] + q.QD[j] - 2.0 * row[j] else q.QD[i] + q.QD[j] + 2.0 * row[j]
    }

    method SelectWorkingSet() returns (optimal: bool, i: nat, j: nat)
      requires Labelled() && Served() && eps > 0.0
      modifies q.cache
      ensures Served()
      ensures optimal <==> Optimal(View(), nu, activeSize, eps)
      ensures !optimal ==> i < activeSize && j < activeSize && Violating(View(), nu, i, j)
      ensures !optimal ==> MaximalUp(View(), nu, i, y[j], activeSize) && BestFor(d, View(), nu, i, j, activeSize)
    {
      hide UpMax, LowMax, BestSoFar, Optimal, Violating, MaximalUp, BestFor, Dual.WellFormed, Served;
      var upP, ip := MaxUp(1);
      var upN, im := NegInf, -1;
      if nu {
        upN, im := MaxUp(-1);
      }
      var lowP, lowN, best := BestPartner(upP, ip, upN, im);
      ghost var s := View();
      StopsExactlyWhenOptimal(s, nu, activeSize, upP, lowP, upN, lowN, eps);
      if SumBelow(upP, lowP, eps) && (!nu || SumBelow(upN, lowN, eps)) {
        return true, 0, 0;
      }
      SearchEnds(d, s, nu, upP, ip, upN, im, lowP, lowN, activeSize, best, eps);
      optimal, j := false, best;
      i := if SecondSlot(nu, y[j]) then im else ip;
    }

    lemma QuadIsCurvature(row: seq<real>, i: nat, j: nat)
      requires Labelled() && Served() && IsRow(i, row) && i < |d.p| && j < |row|
      ensures j < |d.p| && i < |q.QD| && j < |q.QD|
      ensures QuadFrom(row, i, j) == PairCurvature(d, activeSet[i], activeSet[j])
    {
      DiagonalServed(i);
      DiagonalServed(j);
    }

    lemma RowLength(i: nat, row: seq<real>)
      requires IsRow(i, row)
      ensures |row| <= |d.p|
    {
    }

    /** All that the selection reads: the labels and the permutation. */
    ghost predicate Labelled()
      reads this, y, G, status, alpha, p, activeSet, Gbar
    {
      y.Length == |d.p| && G.Length == |d.p| && status.Length == |d.p| && activeSize <= |d.p| && Labels(d, View())
    }

    lemma CoreLabelled(n: nat)
      requires CoreUpTo(n)
      ensures Labelled()
    {
      forall k | 0 <= k < |d.p|
        ensures View().y[k] == d.y[View().activeSet[k]]
      {
        assert AgreesAt(d, A, View(), k);
      }
    }

    method MaxLow(group: int) returns (m: Ext)
      requires Sized(View(), activeSize)
      ensures LowMax(View(), nu, group, activeSize, m)
    {
      m := NegInf;
      ghost var s := View();
      for t := 0 to activeSize
        invariant LowMax(s, nu, group, t, m)
      {
        assert LowAt(s, nu, group, t) == (InGroup(nu, y[t], group) && Low(y[t], status[t]));
        if InGroup(nu, y[t], group) && Low(y[t], status[t]) {
          var g := Signed(y[t], G[t]);
          if m.AtMost(g) {
            m := Fin(g);
          }
        }
      }
    }

    method ShrinkingThresholds() returns (th: Thresholds)
      requires Sized(View(), activeSize)
      ensures ThresholdsOf(View(), nu, activeSize, th)
    {
      var upP, _ := MaxUp(1);
      var lowP := MaxLow(1);
      var upN, lowN := upP, lowP;
      if nu {
        var idx;
        upN, idx := MaxUp(-1);
        lowN := MaxLow(-1);
      }
      th := Thresholds(upP, lowP, upN, lowN);
    }

    /** Drops from the active set exactly the variables that the thresholds say cannot move, after
        reactivating everything once when the solver first comes near its tolerance. */
    method DoShrinking() returns (ghost th: Thresholds, ghost scanned: nat)
      requires Valid() && Served()
      modifies this`activeSize, this`pos, this`unshrink, y, G, status, alpha, p, activeSet, Gbar, q, q.cache
      ensures Valid() && Served() && scanned <= |d.p| && CoreUpTo(scanned)
      ensures ThresholdsOf(old(View()), nu, old(activeSize), th)
      ensures scanned == if old(unshrink) == unshrink then old(activeSize) else |d.p|
      ensures unshrink == (old(unshrink) || Close(old(View()), nu, old(activeSize), 10.0 * eps))
      ensures activeSize <= scanned
      ensures forall k :: 0 <= k < activeSize ==> !ShrunkAt(y[..], status[..], G[..], th, k)
      ensures forall k :: activeSize <= k < scanned ==> ShrunkAt(y[..], status[..], G[..], th, k)
    {
      hide Dot, AgreesAt, GradientUpTo, BarEverywhere, Dual.WellFormed, BeShrunk, ThresholdsOf, Served, Close;
      var t := ShrinkingThresholds();
      th := t;
      CoreLabelled(activeSize);
      CloseExactly(View(), nu, activeSize, t, 10.0 * eps);
      if !unshrink && SumAtMost(t.upP, t.lowP, eps * 10.0) && SumAtMost(t.upN, t.lowN, eps * 10.0) {
        unshrink := true;
        Reactivate();
      }
      scanned := activeSize;
      Partition(t);
    }

    /** Restores the whole gradient and makes every variable active again. */
    method Reactivate()
      requires Valid() && Served()
      modifies G, this`activeSize, q.cache
      ensures Valid() && Served() && activeSize == |d.p|
    {
      hide Served, Dot, AgreesAt, GradientUpTo, BarEverywhere, Dual.WellFormed;
      ReconstructGradient();
      CoreResize(d, A, pos, View(), |d.p|, |d.p|);
      activeSize := |d.p|;
    }

    /** The new values of a violating pair. */
    method NewValues(i: nat, j: nat, row: seq<real>) returns (ni: real, nj: real)
      requires Valid() && Served() && IsRow(i, row) && j < |row|
      requires i < activeSize && j < activeSize && Violating(View(), nu, i, j)
      ensures activeSet[i] != activeSet[j]
      ensures GoodMove(d, A, activeSet[i], activeSet[j], ni, nj)
    {
      hide Dot, BarEverywhere, Dual.Objective, GoodMove, Curvature, PairCurvature, Dual.Gradient, Served, IsRow;
      hide QuadFrom;
      ghost var s, ti, tj := View(), activeSet[i], activeSet[j];
      assert AgreesAt(d, A, s, i) && AgreesAt(d, A, s, j);
      assert s.G[i] == d.Gradient(A, ti) && s.G[j] == d.Gradient(A, tj);
      CoreLabelled(activeSize);
      QuadIsCurvature(row, i, j);
      var quad := Curvature(QuadFrom(row, i, j));
      var Ci, Cj := d.C(activeSet[i]), d.C(activeSet[j]);
      if y[i] != y[j] {
        var delta := (-G[i] - G[j]) / quad;
        SignOfQuotient(-G[i] - G[j], quad);
        ni, nj := MoveTogether(alpha[i], alpha[j], Ci, Cj, delta);
      } else {
        var delta := (G[i] - G[j]) / quad;
        SignOfQuotient(G[i] - G[j], quad);
        ni, nj := MoveAgainst(alpha[i], alpha[j], Ci, Cj, delta);
      }
      CutStepIsGood(d, A, ti, tj, ni, nj);
    }

    method UpdateGradient(i: nat, j: nat, di: real, dj: real, rowI: seq<real>, rowJ: seq<real>)
      requires Labelled() && i < |d.p| && j < |d.p|
      requires IsRow(i, rowI) && IsRow(j, rowJ) && activeSize <= |rowI| && activeSize <= |rowJ|
      modifies G
      ensures forall k :: 0 <= k < activeSize ==>
        G[k] == old(G[k]) + Shift(d, activeSet[k], activeSet[i], di) + Shift(d, activeSet[k], activeSet[j], dj)
    {
      for k := 0 to activeSize
        invariant forall m :: 0 <= m < k ==>
          G[m] == old(G[m]) + Shift(d, activeSet[m], activeSet[i], di) + Shift(d, activeSet[m], activeSet[j], dj)
        invariant forall m :: k <= m < activeSize ==> G[m] == old(G[m])
      {
        G[k] := G[k] + (rowI[k] * di + rowJ[k] * dj);
      }
    }

    /** G_bar gains or loses one column when a variable reaches or leaves its upper bound. */
    method UpdateBar(i: nat, was: bool, now: bool, Ci: real)
      requires Labelled() && Served() && i < |d.p| && Gbar.Length == |d.p| && Gbar != G
      modifies Gbar, q.cache
      ensures Served()
      ensures forall k :: 0 <= k < |d.p| ==>
        Gbar[k] == old(Gbar[k]) + Shift(d, activeSet[k], activeSet[i], (if now then Ci else 0.0)
              - (if was then Ci else 0.0))
    {
      ghost var c := (if now then Ci else 0.0) - (if was then Ci else 0.0);
      if was != now {
        AddColumn(Gbar, i, if was then -Ci else Ci);
      } else {
        assert forall m :: 0 <= m < |d.p| ==> Shift(d, activeSet[m], activeSet[i], c) == 0.0;
      }
    }

    /** Sets the two new statuses and brings G_bar up to date everywhere. */
    method UpdateStatusAndBar(i: nat, j: nat, si: Status, sj: Status)
      requires Labelled() && Served() && i < |d.p| && j < |d.p| && i != j && Gbar.Length == |d.p| && Gbar != G
      modifies status, Gbar, q.cache
      ensures Served()
      ensures status[..] == old(status[..])[i := si][j := sj]
      ensures forall k :: 0 <= k < |d.p| ==>
        Gbar[k] == old(Gbar[k])
          + Shift(d, activeSet[k], activeSet[i], BarShare(d, status[..], activeSet[..], i)
                - old(BarShare(d, status[..], activeSet[..], i)))
          + Shift(d, activeSet[k], activeSet[j], BarShare(d, status[..], activeSet[..], j)
                - old(BarShare(d, status[..], activeSet[..], j)))
    {
      hide Shift, Dual.WellFormed, Served;
      var Ci, Cj := d.C(activeSet[i]), d.C(activeSet[j]);
      var ui, uj := status[i] == UpperBound, status[j] == UpperBound;
      status[i] := si;
      status[j] := sj;
      assert Labelled();
      UpdateBar(i, ui, status[i] == UpperBound, Ci);
      UpdateBar(j, uj, status[j] == UpperBound, Cj);
    }

    /** Writes new values for a pair and brings G (where active) and G_bar (everywhere) up to date. */
    method WriteStep(i: nat, j: nat, ni: real, nj: real, rowI: seq<real>, rowJ: seq<real>)
      requires Separate() && Labelled() && Served() && Indexed(d, View()) && i < |d.p| && j < |d.p| && i != j
      requires IsRow(i, rowI) && IsRow(j, rowJ) && activeSize <= |rowI| && activeSize <= |rowJ|
      modifies alpha, G, status, Gbar, q.cache
      ensures Served()
      ensures StepWrites(d, old(View()), View(), i, j, ni, nj, activeSize)
    {
      hide Shift, Dual.WellFormed, StatusOf, BarShare, Served, IsRow;
      var di, dj := ni - alpha[i], nj - alpha[j];
      alpha[i], alpha[j] := ni, nj;
      UpdateGradient(i, j, di, dj, rowI, rowJ);
      assert Labelled();
      UpdateStatusAndBar(i, j, StatusOf(d, ni, activeSet[i]), StatusOf(d, nj, activeSet[j]));
    }

    /** One optimisation step on a violating pair. */
    method TakeStep(i: nat, j: nat)
      requires Valid() && Served() && i < activeSize && j < activeSize && Violating(View(), nu, i, j)
      modifies alpha, G, status, Gbar, this`A, q.cache
      ensures Valid() && Served()
      ensures var ti, tj := activeSet[i], activeSet[j];
        ti != tj && A == old(A)[ti := A[ti]][tj := A[tj]] && GoodMove(d, old(A), ti, tj, A[ti], A[tj])
    {
      hide Dot, GradientUpTo, BarEverywhere, GoodMove, Dual.Objective, Dual.Gradient, Shift, AgreesAt, Dual.WellFormed;
      hide Served, IsRow;
      CoreLabelled(activeSize);
      var rowI := Fetch(i, activeSize);
      var rowJ := Fetch(j, activeSize);
      var ni, nj := NewValues(i, j, rowI);
      ghost var s := View();
      GoodInBox(d, A, activeSet[i], activeSet[j], ni, nj);
      WriteStep(i, j, ni, nj, rowI, rowJ);
      A := A[activeSet[i] := ni][activeSet[j] := nj];
      CoreStep(d, old(A), pos, s, View(), i, j, ni, nj, activeSize);
    }

    /** What no step, shrink or swap of a run changes or loses. */
    ghost predicate RunInvariant(start: seq<real>, steps: nat)
      requires d.WellFormed() && d.InBox(start)
      reads this, y, G, status, alpha, p, activeSet, Gbar
    {
      && Valid() && d.Balance(A) == d.Balance(start)
      && (nu ==> d.LabelSum(A, 1, |d.y|) == d.LabelSum(start, 1, |d.y|))
      && (if steps == 0 then d.Objective(A) == d.Objective(start) else d.Objective(A) < d.Objective(start))
    }

    /** The optimisation loop. `iterations` and `counter` only decide when it shrinks and gives up. */
    method Optimise(shrinking: bool, maxIter: nat, ghost start: seq<real>) returns (steps: nat, converged: bool)
      requires d.WellFormed() && d.InBox(start) && RunInvariant(start, 0) && Served()
      modifies this`activeSize, this`pos, this`unshrink, this`A, y, G, status, alpha, p, activeSet, Gbar, q, q.cache
      ensures RunInvariant(start, steps) && activeSize == |d.p| && steps <= maxIter
      ensures converged ==> Optimal(View(), nu, |d.p|, eps)
      ensures !converged ==> steps == maxIter
    {
      hide Dot, Core, NoneFreeFrom, Dual.Objective, Dual.WellFormed, Dual.InBox, GoodMove, Optimal, Violating;
      hide ThresholdsOf, Served;
      hide MaximalUp, BestFor, ShrunkAt, Dual.LabelSum, Labels;
      steps, converged := 0, false;
      var period := if |d.p| < 1000 then |d.p| else 1000;
      var counter: int := period + 1;
      while steps < maxIter
        invariant RunInvariant(start, steps) && Served() && steps <= maxIter
        decreases maxIter - steps
      {
        counter := counter - 1;
        if counter == 0 {
          counter := period;
          if shrinking {
            ghost var th, scanned := DoShrinking();
          }
        }
        CoreLabelled(activeSize);
        var optimal, i, j := SelectWorkingSet();
        if optimal {
          Reactivate();
          CoreLabelled(activeSize);
          optimal, i, j := SelectWorkingSet();
          if optimal {
            converged := true;
            return;
          }
          counter := 1;
        }
        steps := steps + 1;
        CountedStep(i, j, start, steps);
      }
      CoreLabelled(activeSize);
      if activeSize < |d.p| {
        Reactivate();
      }
    }

    method CountedStep(i: nat, j: nat, ghost start: seq<real>, ghost steps: nat)
      requires d.WellFormed() && d.InBox(start) && steps > 0 && RunInvariant(start, steps - 1)
      requires Served() && i < activeSize && j < activeSize && Violating(View(), nu, i, j)
      modifies alpha, G, status, Gbar, this`A, q.cache
      ensures RunInvariant(start, steps) && Served()
    {
      hide Served, Dot, GradientUpTo, BarEverywhere, Dual.Objective, AgreesAt, Dual.LabelSum;
      ghost var a, ti, tj := A, activeSet[i], activeSet[j];
      CoreLabelled(activeSize);
      TakeStep(i, j);
      LineKeepsBalance(d, a, ti, tj, A[ti], A[tj]);
    }

    /** The objective value, from the gradient. */
    method ObjectiveValue() returns (obj: real)
      requires Valid() && activeSize == |d.p|
      ensures obj == d.Objective(A)
    {
      hide Dot, BarEverywhere, Dual.Objective;
      var v := 0.0;
      PlacedStart(d, A, pos);
      for i := 0 to |d.p|
        invariant v == PlacedSum(d, A, pos, i)
      {
        PlacedNext(d, A, pos, View(), i);
        v := v + alpha[i] * (G[i] + p[i]);
      }
      PlacedAll(d, A, pos, View());
      obj := v / 2.0;
    }

    /** The threshold, and in the nu problem the margin r as well: `None` is an infinite or undefined value. */
    method CalculateRho() returns (rho: Limit, r: real)
      requires Valid() && activeSize == |d.p|
      ensures d.WellFormed() && |A| == |d.p| && (rho, r) == BiasOf(d, A, nu) && (rho.At? <==> Movable(d, A, nu))
      ensures rho.At? && Optimal(View(), nu, |d.p|, eps) ==> d.Certified(A, rho.v + r, rho.v - r, 2.0 * eps)
      ensures !nu ==> r == 0.0
    {
      CoreSize(d, A, pos, View());
      CoreLabelled(activeSize);
      hide *;
      var plus, minus := TallyVariables(y, status, G, nu, View());
      var both := Combine(plus, minus, nu);
      rho, r := both.0, both.1;
      BiasIs(plus, minus);
    }

    lemma BiasIs(plus: Tally, minus: Tally)
      requires Valid() && activeSize == |d.p| && Sized(View(), |View().y|) && |View().y| == |d.p|
      requires plus == GroupTally(View(), nu, 1, |d.p|) && (nu ==> minus == GroupTally(View(), nu, -1, |d.p|))
      ensures d.WellFormed() && |A| == |d.p| && Combine(plus, minus, nu) == BiasOf(d, A, nu)
      ensures BiasOf(d, A, nu).0.At? <==> Movable(d, A, nu)
      ensures var (rho, r) := BiasOf(d, A, nu);
        && (rho.At? && Optimal(View(), nu, |d.p|, eps) ==> d.Certified(A, rho.v + r, rho.v - r, 2.0 * eps))
        && (!nu ==> r == 0.0)
    {
      CoreSize(d, A, pos, View());
      hide GroupTally, Movable, GroupMiddle, Threshold, Optimal, Dual.Certified;
      CombineIsBias(d, A, pos, View(), nu, plus, minus);
      BiasExists(d, A, nu);
      var (rho, r) := BiasOf(d, A, nu);
      if rho.At? && Optimal(View(), nu, |d.p|, eps) {
        BiasCertifies(d, A, pos, View(), nu, eps, rho.v + r, rho.v - r, 2.0 * eps);
      }
    }

    /** What is reported of the final state. */
    method Report(ghost start: seq<real>, ghost converged: bool)
      returns (result: array<real>, obj: real, rho: Limit, r: real)
      requires Valid() && activeSize == |d.p| && |start| == |d.p| && d.WellFormed() && Rival(d, start, nu, A)
      requires converged ==> Sized(View(), |d.p|) && Optimal(View(), nu, |d.p|, eps)
      ensures result[..] == A && Reported(d, start, nu, eps, A, obj, rho, r, converged)
    {
      CoreSize(d, A, pos, View());
      hide *;
      rho, r := CalculateRho();
      obj := ObjectiveValue();
      result := PutBack();
      ReportedIs(d, A, pos, View(), start, nu, eps, obj, rho, r, converged);
    }

    lemma RunStarts(start: seq<real>)
      requires Valid() && A == start
      ensures d.WellFormed() && d.InBox(start) && RunInvariant(start, 0)
    {
      hide Dot, Dual.Objective, Dual.LabelSum, GradientUpTo, BarEverywhere, AgreesAt;
    }

    lemma RunGives(start: seq<real>, steps: nat)
      requires d.WellFormed() && d.InBox(start) && RunInvariant(start, steps)
      ensures Valid() && |start| == |A| == |d.p| && Rival(d, start, nu, A)
      ensures if steps == 0 then d.Objective(A) == d.Objective(start) else d.Objective(A) < d.Objective(start)
      ensures Sized(View(), |d.p|)
    {
      hide Dot, Dual.Objective, Dual.LabelSum, GradientUpTo, BarEverywhere, AgreesAt;
    }

    /** The solution in the caller's order. */
    method PutBack() returns (r: array<real>)
      requires Valid()
      ensures fresh(r) && r[..] == A && d.WellFormed() && d.InBox(A)
    {
      hide Dot, BarEverywhere, GradientUpTo;
      r := new real[|d.p|];
      for i := 0 to |d.p|
        invariant forall t :: 0 <= t < |d.p| && pos[t] < i ==> r[t] == A[t]
      {
        assert AgreesAt(d, A, View(), i);
        r[activeSet[i]] := alpha[i];
      }
    }
  }

  /** One pass over the variables: one tally, or with nu one for each label. */
  method TallyVariables(y: array<int>, status: array<Status>, G: array<real>, nu: bool, ghost s: State)
    returns (plus: Tally, minus: Tally)
    requires y.Length == status.Length == G.Length && s.y == y[..] && s.status == status[..] && s.G == G[..]
    requires Sized(s, |s.y|) && forall k :: 0 <= k < |s.y| ==> s.y[k] == 1 || s.y[k] == -1
    ensures plus == GroupTally(s, nu, 1, |s.y|) && (nu ==> minus == GroupTally(s, nu, -1, |s.y|))
  {
    hide CountVariable, GroupTally;
    NoTally(s, nu, 1);
    NoTally(s, nu, -1);
    plus, minus := NOTHING, NOTHING;
    for i := 0 to y.Length
      invariant plus == GroupTally(s, nu, 1, i) && (nu ==> minus == GroupTally(s, nu, -1, i))
    {
      TallyNext(s, nu, 1, i);
      TallyNext(s, nu, -1, i);
      if nu && y[i] != 1 {
        minus := CountVariable(minus, nu, y[i], status[i], G[i]);
      } else {
        plus := CountVariable(plus, nu, y[i], status[i], G[i]);
      }
    }
  }

  /** The cached matrix of a problem, in the original order. */
  method NewMatrix(d: Dual, budget: int) returns (q: SvcQ)
    requires d.WellFormed()
    ensures fresh(q) && fresh(q.cache)
    ensures q.Valid() && R.SignedKernel(d, q.K) && R.InStep(d, seq(|d.p|, k => k), q.x, q.y)
  {
    hide SvcQ.Valid, R.SignedKernel;
    UnsignedIsKernel(d);
    q := new SvcQ(Unsigned(d), d.y, budget);
  }

  /** The kernel matrix of which the dual's is the signed one. */
  function Unsigned(d: Dual): seq<seq<real>>
    requires d.WellFormed()
  {
    seq(|d.p|, s requires 0 <= s < |d.p| =>
      seq(|d.p|, t requires 0 <= t < |d.p| => (d.y[s] * d.y[t]) as real * d.Q[s][t]))
  }

  lemma UnsignedIsKernel(d: Dual)
    requires d.WellFormed()
    ensures R.SignedKernel(d, Unsigned(d))
  {
    var K := Unsigned(d);
    forall s, t | 0 <= s < |K| && 0 <= t < |K|
      ensures R.SignedAt(d, K, s, t)
    {
      var c := d.y[s] * d.y[t];
      assert c == 1 || c == -1;
      assert K[s][t] == c as real * d.Q[s][t];
    }
  }

  lemma AfterSwap(s: State, s': State, th: Thresholds, i: nat, m: nat, n: nat)
    requires |s.y| == |s.G| == |s.status| == |s.alpha| == |s.p| == |s.Gbar| == |s.activeSet|
    requires i < m < n <= |s.y|
    requires s' == SwapState(s, i, m)
    requires forall k :: 0 <= k < i ==> !ShrunkAt(s.y, s.status, s.G, th, k)
    requires ShrunkAt(s.y, s.status, s.G, th, i) && !ShrunkAt(s.y, s.status, s.G, th, m)
    requires forall k :: m < k < n ==> ShrunkAt(s.y, s.status, s.G, th, k)
    requires NoneFreeFrom(s, n)
    ensures forall k :: 0 <= k <= i ==> !ShrunkAt(s'.y, s'.status, s'.G, th, k)
    ensures forall k :: m <= k < n ==> ShrunkAt(s'.y, s'.status, s'.G, th, k)
    ensures NoneFreeFrom(s', n)
  {
    hide BeShrunk;
    forall k | 0 <= k < n
      ensures ShrunkAt(s'.y, s'.status, s'.G, th, k) == ShrunkAt(s.y, s.status, s.G, th, Exchange(i, m, k))
    {
      SwapMovesShrunk(s, th, i, m, k);
    }
  }

  /** Every feasible point with the same balance (and, for the nu solver, the same label sums). */
  ghost predicate Rival(d: Dual, a: seq<real>, nu: bool, b: seq<real>)
    requires d.WellFormed() && |a| == |d.p|
  {
    && d.InBox(b) && d.Balance(b) == d.Balance(a)
    && (nu ==> d.LabelSum(b, 1, |d.y|) == d.LabelSum(a, 1, |d.y|))
  }

  /** Runs the solver from a feasible point. The result is feasible with the same balance, no worse than the
      start, reported with its exact objective value, and near-optimal if the stopping test ended the run. */
  method Solve(d: Dual, budget: int, start: seq<real>, eps: real, nu: bool, shrinking: bool)
    returns (result: array<real>, obj: real, rho: Limit, r: real, converged: bool, steps: nat)
    requires d.WellFormed() && d.InBox(start) && eps > 0.0
    ensures result.Length == |d.p| && d.InBox(result[..]) && Rival(d, start, nu, result[..])
    ensures forall t :: 0 <= t < |d.p| && d.y[t] == 1 ==> 0.0 <= result[t] <= d.Cp
    ensures forall t :: 0 <= t < |d.p| && d.y[t] == -1 ==> 0.0 <= result[t] <= d.Cn
    ensures obj == d.Objective(result[..])
    ensures if steps == 0 then obj == d.Objective(start) else obj < d.Objective(start)
    ensures !converged ==>
      steps == if |d.p| > 21474836 then 2147483647 else if |d.p| > 100000 then 100 * |d.p| else 10000000
    ensures converged ==> WithinTolerance(d, result[..], nu, eps)
    ensures converged && d.PositiveSemidefinite() ==>
      forall b :: Rival(d, start, nu, b) ==> obj <= d.Objective(b) + eps / 2.0 * Distance(result[..], b, |d.p|)
    ensures (rho, r) == BiasOf(d, result[..], nu) && (rho.At? <==> Movable(d, start, nu))
    ensures rho.At? ==> IsBias(d, result[..], nu, rho.v, r)
    ensures converged && rho.At? ==> d.Certified(result[..], rho.v + r, rho.v - r, 2.0 * eps)
    ensures !nu ==> r == 0.0
  {
    hide Dual.Objective, Dual.PositiveSemidefinite, BiasOf, Movable, Dual.Certified, IsBias, WithinTolerance, Distance;
    hide Dot, Dual.LabelSum;
    var most := if |d.p| > INT_MAX / 100 then INT_MAX else 100 * |d.p|;
    var maxIter := if most > 10000000 then most else 10000000;
    result, obj, rho, r, converged, steps := RunSolver(d, budget, start, eps, nu, shrinking, maxIter);
  }

  /** The run and its report. */
  method RunSolver(d: Dual, budget: int, start: seq<real>, eps: real, nu: bool, shrinking: bool, maxIter: nat)
    returns (result: array<real>, obj: real, rho: Limit, r: real, converged: bool, steps: nat)
    requires d.WellFormed() && d.InBox(start) && eps > 0.0
    ensures |start| == |result[..]| == |d.p| && Rival(d, start, nu, result[..])
    ensures Reported(d, start, nu, eps, result[..], obj, rho, r, converged)
    ensures if steps == 0 then d.Objective(result[..]) == d.Objective(start)
            else d.Objective(result[..]) < d.Objective(start)
    ensures !converged ==> steps == maxIter
  {
    hide Core, NoneFreeFrom, Dual.Objective, Optimal, Inv, Reported, Rival;
    hide Dot, Dual.LabelSum, Distance, Solver.RunInvariant, Solver.Valid, Solver.Served;
    var q := NewMatrix(d, budget);
    var solver := new Solver(d, q, start, eps, nu);
    solver.RunStarts(start);
    steps, converged := solver.Optimise(shrinking, maxIter, start);
    solver.RunGives(start, steps);
    result, obj, rho, r := solver.Report(start, converged);
  }

  /** What is said of a reported solution a. */
  ghost predicate Reported(d: Dual, start: seq<real>, nu: bool, eps: real, a: seq<real>, obj: real, rho: Limit, r: real,
                           converged: bool)
    requires d.WellFormed() && |start| == |d.p|
  {
    && d.InBox(a) && obj == d.Objective(a) && (converged ==> WithinTolerance(d, a, nu, eps))
    && (converged && d.PositiveSemidefinite() ==>
          forall b :: Rival(d, start, nu, b) ==> obj <= d.Objective(b) + eps / 2.0 * Distance(a, b, |d.p|))
    && (rho, r) == BiasOf(d, a, nu) && (rho.At? <==> Movable(d, start, nu)) && (!nu ==> r == 0.0)
    && (rho.At? ==> IsBias(d, a, nu, rho.v, r))
    && (converged && rho.At? ==> d.Certified(a, rho.v + r, rho.v - r, 2.0 * eps))
  }

  lemma ReportedIs(d: Dual, a: seq<real>, pos: seq<nat>, s: State, start: seq<real>, nu: bool, eps: real, obj: real,
                   rho: Limit, r: real, converged: bool)
    requires Core(d, a, pos, s, |d.p|) && eps > 0.0 && |start| == |d.p| && Rival(d, start, nu, a) && d.InBox(a)
    requires converged ==> Optimal(s, nu, |d.p|, eps)
    requires obj == d.Objective(a) && (rho, r) == BiasOf(d, a, nu) && (rho.At? <==> Movable(d, a, nu))
    requires !nu ==> r == 0.0
    requires converged && rho.At? ==> d.Certified(a, rho.v + r, rho.v - r, 2.0 * eps)
    ensures Reported(d, start, nu, eps, a, obj, rho, r, converged)
  {
    hide Dot, Dual.Objective, Dual.LabelSum, Dual.Certified, Dual.PositiveSemidefinite, Distance, GradientUpTo;
    hide BarEverywhere, AgreesAt, Optimal, BiasOf, Movable, WithinTolerance, IsBias;
    SameMovable(d, start, a, nu);
    if rho.At? {
      BiasSplits(d, a, nu);
    }
    if converged {
      OptimalIsTolerance(d, a, pos, s, nu, eps);
    }
    if converged && d.PositiveSemidefinite() {
      NearBest(d, a, pos, s, nu, eps, start);
    }
  }

  lemma NearBest(d: Dual, a: seq<real>, pos: seq<nat>, s: State, nu: bool, eps: real, start: seq<real>)
    requires Core(d, a, pos, s, |d.p|) && eps > 0.0 && Optimal(s, nu, |d.p|, eps)
    requires d.PositiveSemidefinite() && |start| == |d.p| && Rival(d, start, nu, a)
    ensures forall b :: Rival(d, start, nu, b) ==> d.Objective(a) <= d.Objective(b) + eps / 2.0 * Distance(a, b, |d.p|)
  {
    hide Dot, Dual.Objective, Dual.LabelSum, Dual.Certified, Dual.PositiveSemidefinite, Distance, GradientUpTo;
    hide BarEverywhere, AgreesAt, Optimal;
    var lamP, lamN := OptimalIsCertified(d, a, pos, s, nu, eps);
    forall b | Rival(d, start, nu, b)
      ensures d.Objective(a) <= d.Objective(b) + eps / 2.0 * Distance(a, b, |d.p|)
    {
      NearThisOne(d, a, b, lamP, lamN, eps, nu, start);
    }
  }

  lemma NearThisOne(d: Dual, a: seq<real>, b: seq<real>, lamP: real, lamN: real, eps: real, nu: bool, start: seq<real>)
    requires d.WellFormed() && |start| == |d.p| && Rival(d, start, nu, a) && Rival(d, start, nu, b) && eps > 0.0
    requires d.PositiveSemidefinite() && d.Certified(a, lamP, lamN, eps) && (!nu ==> lamP == lamN)
    ensures d.Objective(a) <= d.Objective(b) + eps / 2.0 * Distance(a, b, |d.p|)
  {
    hide Dual.Objective, Dual.LabelSum, Dual.Certified, Dual.PositiveSemidefinite, Distance;
    NearOptimal(d, a, b, lamP, lamN, eps);
  }
}
