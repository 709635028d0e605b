/** The solver's working state as a value, and what every operation on it keeps.
    All facts are stated about the data in its original order: `A` is alpha in that order,
    `active_set[i]` is the original index now stored at position i and `pos` is its inverse. */
module SmoState {
  import opened Swaps
  import opened Vectors
  import opened DualProblem

  datatype Status = LowerBound | UpperBound | Free

  datatype State = State(activeSize: nat, y: seq<int>, G: seq<real>, status: seq<Status>, alpha: seq<real>,
                         p: seq<real>, activeSet: seq<nat>, Gbar: seq<real>)

  function StatusOf(d: Dual, x: real, t: nat): Status
    requires t < |d.y|
  {
    if x >= d.C(t) then UpperBound else if x <= 0.0 then LowerBound else Free
  }

  /** The share of a variable that counts as sitting at its upper bound. */
  function AtUpper(d: Dual, x: real, t: nat): real
    requires t < |d.y|
  {
    if x >= d.C(t) then d.C(t) else 0.0
  }

  ghost function UpperPart(d: Dual, A: seq<real>): (u: seq<real>)
    requires d.WellFormed() && |A| == |d.p|
    ensures |u| == |d.p|
    ensures forall t :: 0 <= t < |d.p| ==> u[t] == AtUpper(d, A[t], t)
  {
    seq(|d.p|, t requires 0 <= t < |d.p| => AtUpper(d, A[t], t))
  }

  ghost predicate Permutation(activeSet: seq<nat>, pos: seq<nat>, l: nat) {
    && |activeSet| == |pos| == l
    && (forall i :: 0 <= i < l ==> activeSet[i] < l && pos[activeSet[i]] == i)
    && (forall t :: 0 <= t < l ==> pos[t] < l && activeSet[pos[t]] == t)
  }

  ghost predicate Shape(d: Dual, A: seq<real>, pos: seq<nat>, s: State) {
    && d.WellFormed() && d.InBox(A)
    && |s.y| == |s.G| == |s.status| == |s.alpha| == |s.p| == |s.Gbar| == |d.p|
    && Permutation(s.activeSet, pos, |d.p|)
    && s.activeSize <= |d.p|
  }

  ghost predicate AgreesAt(d: Dual, A: seq<real>, s: State, i: nat)
    requires d.WellFormed() && |A| == |d.p|
    requires i < |s.y| == |s.status| == |s.alpha| == |s.p| == |s.activeSet| && s.activeSet[i] < |d.p|
  {
    var t := s.activeSet[i];
    && s.y[i] == d.y[t] && s.p[i] == d.p[t] && s.alpha[i] == A[t]
    && s.status[i] == StatusOf(d, A[t], t)
  }

  /** G is the gradient at the first n positions. */
  ghost predicate GradientUpTo(d: Dual, A: seq<real>, s: State, n: nat)
    requires d.WellFormed() && |A| == |d.p|
    requires n <= |s.G| == |s.activeSet| && (forall i :: 0 <= i < |s.activeSet| ==> s.activeSet[i] < |d.p|)
  {
    forall i :: 0 <= i < n ==> s.G[i] == d.Gradient(A, s.activeSet[i])
  }

  /** G_bar is the gradient that the upper-bounded variables alone would give, everywhere. */
  ghost predicate BarEverywhere(d: Dual, A: seq<real>, s: State)
    requires d.WellFormed() && |A| == |d.p|
    requires |s.Gbar| == |s.activeSet| && (forall i :: 0 <= i < |s.activeSet| ==> s.activeSet[i] < |d.p|)
  {
    forall i :: 0 <= i < |s.Gbar| ==> s.Gbar[i] == Dot(d.Q[s.activeSet[i]], UpperPart(d, A), |d.p|)
  }

  /** The invariant with G known good on the first n positions. */
  ghost predicate Core(d: Dual, A: seq<real>, pos: seq<nat>, s: State, n: nat) {
    && Shape(d, A, pos, s)
    && n <= |d.p|
    && (forall i :: 0 <= i < |d.p| ==> AgreesAt(d, A, s, i))
    && GradientUpTo(d, A, s, n)
    && BarEverywhere(d, A, s)
  }

  ghost predicate NoneFreeFrom(s: State, n: nat) {
    forall i :: n <= i < |s.status| ==> s.status[i] != Free
  }

  /** What holds between any two operations of the solver. */
  ghost predicate Inv(d: Dual, A: seq<real>, pos: seq<nat>, s: State) {
    Core(d, A, pos, s, s.activeSize) && NoneFreeFrom(s, s.activeSize)
  }

  ghost function SwapState(s: State, i: nat, j: nat): State
    requires |s.y| == |s.G| == |s.status| == |s.alpha| == |s.p| == |s.Gbar| == |s.activeSet|
    requires i < |s.y| && j < |s.y|
  {
    State(s.activeSize, Swapped(s.y, i, j), Swapped(s.G, i, j), Swapped(s.status, i, j), Swapped(s.alpha, i, j),
          Swapped(s.p, i, j), Swapped(s.activeSet, i, j), Swapped(s.Gbar, i, j))
  }

  ghost function SwapPos(pos: seq<nat>, a: nat, b: nat): seq<nat>
    requires a < |pos| && b < |pos|
  {
    Swapped(pos, a, b)
  }

  /** Exchanging two positions keeps the invariant: nothing changes in the original order. */
  lemma CoreSwap(d: Dual, A: seq<real>, pos: seq<nat>, s: State, i: nat, j: nat, n: nat)
    requires Core(d, A, pos, s, n)
    requires i < n && j < n
    ensures Core(d, A, SwapPos(pos, s.activeSet[i], s.activeSet[j]), SwapState(s, i, j), n)
  {
    hide Dual.Gradient, Dot, UpperPart, StatusOf;
    SwapShape(d, A, pos, s, i, j);
    SwapAgrees(d, A, pos, s, i, j, n);
    var s' := SwapState(s, i, j);
    forall k | 0 <= k < n
      ensures s'.G[k] == d.Gradient(A, s'.activeSet[k])
    {
      assert s'.G[k] == s.G[Exchange(i, j, k)];
    }
    forall k | 0 <= k < |d.p|
      ensures s'.Gbar[k] == Dot(d.Q[s'.activeSet[k]], UpperPart(d, A), |d.p|)
    {
      assert s'.Gbar[k] == s.Gbar[Exchange(i, j, k)];
    }
  }

  lemma SwapShape(d: Dual, A: seq<real>, pos: seq<nat>, s: State, i: nat, j: nat)
    requires Shape(d, A, pos, s) && i < |d.p| && j < |d.p|
    ensures Shape(d, A, SwapPos(pos, s.activeSet[i], s.activeSet[j]), SwapState(s, i, j))
  {
  }

  lemma SwapAgrees(d: Dual, A: seq<real>, pos: seq<nat>, s: State, i: nat, j: nat, n: nat)
    requires Core(d, A, pos, s, n) && i < n && j < n
    ensures var s' := SwapState(s, i, j);
      forall k :: 0 <= k < |d.p| ==> s'.activeSet[k] < |d.p| && AgreesAt(d, A, s', k)
  {
    hide GradientUpTo, BarEverywhere, StatusOf;
    var s' := SwapState(s, i, j);
    forall k | 0 <= k < |d.p|
      ensures s'.activeSet[k] < |d.p| && AgreesAt(d, A, s', k)
    {
      assert AgreesAt(d, A, s, Exchange(i, j, k));
    }
  }

  /** What moving variable t by x adds to the gradient of variable k. */
  ghost function Shift(d: Dual, k: nat, t: nat, x: real): real
    requires d.WellFormed() && k < |d.p| && t < |d.p|
  {
    d.Q[k][t] * x
  }

  lemma DotNext(d: Dual, k: nat, v: seq<real>, i: nat)
    requires d.WellFormed() && |v| == |d.p| && k < |d.p| && i < |d.p|
    ensures Dot(d.Q[k], v, i + 1) == Dot(d.Q[k], v, i) + Shift(d, k, i, v[i])
    ensures Shift(d, k, i, 0.0) == 0.0
  {
  }

  /** The part of position i that G_bar counts. */
  ghost function BarShare(d: Dual, status: seq<Status>, activeSet: seq<nat>, i: nat): real
    requires i < |status| && i < |activeSet| && activeSet[i] < |d.y|
  {
    if status[i] == UpperBound then d.C(activeSet[i]) else 0.0
  }

  ghost predicate Indexed(d: Dual, s: State) {
    && d.WellFormed()
    && |s.y| == |s.G| == |s.status| == |s.alpha| == |s.p| == |s.Gbar| == |s.activeSet| == |d.p|
    && forall k :: 0 <= k < |d.p| ==> s.activeSet[k] < |d.p|
  }

  /** What a two-variable step must write, entry by entry, in terms of the old state. */
  ghost predicate StepWrites(d: Dual, s: State, s': State, i: nat, j: nat, vi: real, vj: real, n: nat)
    requires Indexed(d, s) && i < |d.p| && j < |d.p| && n <= |d.p|
  {
    var ti, tj := s.activeSet[i], s.activeSet[j];
    && |s'.G| == |s'.Gbar| == |d.p|
    && s' == s.(alpha := s.alpha[i := vi][j := vj],
                status := s.status[i := StatusOf(d, vi, ti)][j := StatusOf(d, vj, tj)],
                G := s'.G, Gbar := s'.Gbar)
    && (forall k :: 0 <= k < n ==>
          s'.G[k] == s.G[k] + Shift(d, s.activeSet[k], ti, vi - s.alpha[i])
                + Shift(d, s.activeSet[k], tj, vj - s.alpha[j]))
    && (forall k :: 0 <= k < |d.p| ==>
          s'.Gbar[k] == s.Gbar[k]
            + Shift(d, s.activeSet[k], ti, BarShare(d, s'.status, s.activeSet, i)
                  - BarShare(d, s.status, s.activeSet, i))
            + Shift(d, s.activeSet[k], tj, BarShare(d, s'.status, s.activeSet, j)
                  - BarShare(d, s.status, s.activeSet, j)))
  }

  lemma DotUpdateTwo(row: seq<real>, v: seq<real>, ti: nat, tj: nat, xi: real, xj: real, n: nat)
    requires n <= |row| && n <= |v| && ti < n && tj < n && ti != tj
    ensures Dot(row, v[ti := xi][tj := xj], n) == Dot(row, v, n) + row[ti] * (xi - v[ti]) + row[tj] * (xj - v[tj])
  {
    DotUpdate(row, v, ti, xi, n);
    DotUpdate(row, v[ti := xi], tj, xj, n);
  }

  /** The same change of a matrix row's product, in terms of the two shifts. */
  lemma ShiftTwo(d: Dual, r: nat, v: seq<real>, ti: nat, tj: nat, xi: real, xj: real)
    requires d.WellFormed() && |v| == |d.p| && r < |d.p| && ti < |d.p| && tj < |d.p| && ti != tj
    ensures Dot(d.Q[r], v[ti := xi][tj := xj], |d.p|)
         == Dot(d.Q[r], v, |d.p|) + Shift(d, r, ti, xi - v[ti]) + Shift(d, r, tj, xj - v[tj])
  {
    hide Dot;
    DotUpdateTwo(d.Q[r], v, ti, tj, xi, xj, |d.p|);
  }

  lemma UpperPartUpdate(d: Dual, A: seq<real>, ti: nat, tj: nat, xi: real, xj: real)
    requires d.WellFormed() && |A| == |d.p| && ti < |d.p| && tj < |d.p| && ti != tj
    ensures UpperPart(d, A[ti := xi][tj := xj])
         == UpperPart(d, A)[ti := AtUpper(d, xi, ti)][tj := AtUpper(d, xj, tj)]
  {
  }

  /** A two-variable step keeps the invariant for the moved point. */
  lemma CoreStep(d: Dual, A: seq<real>, pos: seq<nat>, s: State, s': State, i: nat, j: nat, vi: real, vj: real, n: nat)
    requires Core(d, A, pos, s, n)
    requires i < |d.p| && j < |d.p| && i != j
    requires 0.0 <= vi <= d.C(s.activeSet[i]) && 0.0 <= vj <= d.C(s.activeSet[j])
    requires StepWrites(d, s, s', i, j, vi, vj, n)
    ensures Core(d, A[s.activeSet[i] := vi][s.activeSet[j] := vj], pos, s', n)
  {
    hide Dot;
    StepAgrees(d, A, pos, s, s', i, j, vi, vj, n);
    StepGradient(d, A, pos, s, s', i, j, vi, vj, n);
    StepBar(d, A, pos, s, s', i, j, vi, vj, n);
  }

  lemma StepGradient(d: Dual, A: seq<real>, pos: seq<nat>, s: State, s': State, i: nat, j: nat, vi: real, vj: real,
                     n: nat)
    requires Core(d, A, pos, s, n)
    requires i < |d.p| && j < |d.p| && i != j
    requires StepWrites(d, s, s', i, j, vi, vj, n)
    ensures GradientUpTo(d, A[s.activeSet[i] := vi][s.activeSet[j] := vj], s', n)
  {
    hide Dot, BarEverywhere, BarShare, StatusOf, Shift;
    assert AgreesAt(d, A, s, i) && AgreesAt(d, A, s, j);
    var ti, tj := s.activeSet[i], s.activeSet[j];
    forall k | 0 <= k < n
      ensures s'.G[k] == d.Gradient(A[ti := vi][tj := vj], s'.activeSet[k])
    {
      ShiftTwo(d, s.activeSet[k], A, ti, tj, vi, vj);
    }
  }

  lemma ShareIsUpper(d: Dual, status: seq<Status>, activeSet: seq<nat>, i: nat, x: real)
    requires i < |status| && i < |activeSet| && activeSet[i] < |d.y|
    requires status[i] == StatusOf(d, x, activeSet[i])
    ensures BarShare(d, status, activeSet, i) == AtUpper(d, x, activeSet[i])
  {
  }

  lemma StepBar(d: Dual, A: seq<real>, pos: seq<nat>, s: State, s': State, i: nat, j: nat, vi: real, vj: real, n: nat)
    requires Core(d, A, pos, s, n)
    requires i < |d.p| && j < |d.p| && i != j
    requires StepWrites(d, s, s', i, j, vi, vj, n)
    ensures BarEverywhere(d, A[s.activeSet[i] := vi][s.activeSet[j] := vj], s')
  {
    hide Dot, GradientUpTo, AtUpper, StatusOf, BarShare, Shift;
    assert AgreesAt(d, A, s, i) && AgreesAt(d, A, s, j);
    var ti, tj := s.activeSet[i], s.activeSet[j];
    ShareIsUpper(d, s.status, s.activeSet, i, A[ti]);
    ShareIsUpper(d, s.status, s.activeSet, j, A[tj]);
    ShareIsUpper(d, s'.status, s.activeSet, i, vi);
    ShareIsUpper(d, s'.status, s.activeSet, j, vj);
    var u := UpperPart(d, A);
    UpperPartUpdate(d, A, ti, tj, vi, vj);
    assert ti != tj && u[ti] == AtUpper(d, A[ti], ti) && u[tj] == AtUpper(d, A[tj], tj);
    forall k | 0 <= k < |d.p|
      ensures s'.Gbar[k] == Dot(d.Q[s'.activeSet[k]], UpperPart(d, A[ti := vi][tj := vj]), |d.p|)
    {
      assert s.Gbar[k] == Dot(d.Q[s.activeSet[k]], u, |d.p|);
      ShiftTwo(d, s.activeSet[k], u, ti, tj, AtUpper(d, vi, ti), AtUpper(d, vj, tj));
    }
  }

  lemma StepAgrees(d: Dual, A: seq<real>, pos: seq<nat>, s: State, s': State, i: nat, j: nat, vi: real, vj: real,
                   n: nat)
    requires Core(d, A, pos, s, n)
    requires i < |d.p| && j < |d.p| && i != j
    requires 0.0 <= vi <= d.C(s.activeSet[i]) && 0.0 <= vj <= d.C(s.activeSet[j])
    requires StepWrites(d, s, s', i, j, vi, vj, n)
    ensures var A' := A[s.activeSet[i] := vi][s.activeSet[j] := vj];
      Shape(d, A', pos, s') && forall k :: 0 <= k < |d.p| ==> AgreesAt(d, A', s', k)
  {
    hide Dot;
    var A' := A[s.activeSet[i] := vi][s.activeSet[j] := vj];
    forall k | 0 <= k < |d.p|
      ensures AgreesAt(d, A', s', k)
    {
      assert AgreesAt(d, A, s, k);
    }
  }

  /** A with the free variables kept only at the first n positions. */
  ghost function FreeUpTo(d: Dual, A: seq<real>, pos: seq<nat>, n: nat): (w: seq<real>)
    requires d.WellFormed() && |A| == |d.p| == |pos|
    ensures |w| == |d.p|
    ensures forall t :: 0 <= t < |d.p| ==>
      w[t] == if pos[t] < n && StatusOf(d, A[t], t) == Free then A[t] else AtUpper(d, A[t], t)
  {
    seq(|d.p|, t requires 0 <= t < |d.p| =>
      if pos[t] < n && StatusOf(d, A[t], t) == Free then A[t] else AtUpper(d, A[t], t))
  }

  lemma FreeNone(d: Dual, A: seq<real>, pos: seq<nat>)
    requires d.WellFormed() && d.InBox(A) && |A| == |pos|
    ensures FreeUpTo(d, A, pos, 0) == UpperPart(d, A)
  {
  }

  lemma FreeAll(d: Dual, A: seq<real>, pos: seq<nat>, s: State)
    requires Inv(d, A, pos, s)
    ensures FreeUpTo(d, A, pos, s.activeSize) == A
  {
    hide Dot, GradientUpTo, BarEverywhere;
    forall t | 0 <= t < |d.p|
      ensures FreeUpTo(d, A, pos, s.activeSize)[t] == A[t]
    {
      assert AgreesAt(d, A, s, pos[t]);
    }
  }

  lemma Admit(d: Dual, A: seq<real>, pos: seq<nat>, t: nat, j: nat)
    requires d.WellFormed() && |A| == |d.p| == |pos| && t < |d.p|
    requires forall u :: 0 <= u < |d.p| ==> (pos[u] == j <==> u == t)
    ensures var w, w' := FreeUpTo(d, A, pos, j), FreeUpTo(d, A, pos, j + 1);
      if StatusOf(d, A[t], t) == Free then w' == w[t := A[t]] && w[t] == 0.0 else w' == w
  {
  }

  /** Admitting one more position adds that position's column, if it is free. */
  lemma FreeNext(d: Dual, A: seq<real>, pos: seq<nat>, s: State, j: nat, row: seq<real>)
    requires Core(d, A, pos, s, s.activeSize) && j < |d.p| && |row| == |d.p|
    ensures Dot(row, FreeUpTo(d, A, pos, j + 1), |d.p|)
         == Dot(row, FreeUpTo(d, A, pos, j), |d.p|) + (if s.status[j] == Free then s.alpha[j] * row[s.activeSet[j]]
               else 0.0)
  {
    hide Dot, GradientUpTo, BarEverywhere, StatusOf, FreeUpTo;
    assert AgreesAt(d, A, s, j);
    var t := s.activeSet[j];
    Admit(d, A, pos, t, j);
    DotUpdate(row, FreeUpTo(d, A, pos, j), t, A[t], |d.p|);
  }

  /** What G must be at position k once the free variables below position n are accounted for. */
  ghost function PartialSum(d: Dual, A: seq<real>, pos: seq<nat>, s: State, k: nat, n: nat): real
    requires Shape(d, A, pos, s) && k < |d.p|
  {
    s.p[k] + Dot(d.Q[s.activeSet[k]], FreeUpTo(d, A, pos, n), |d.p|)
  }

  lemma PartialStart(d: Dual, A: seq<real>, pos: seq<nat>, s: State, k: nat)
    requires Inv(d, A, pos, s) && k < |d.p|
    ensures PartialSum(d, A, pos, s, k, 0) == s.Gbar[k] + s.p[k]
  {
    hide Dot;
    FreeNone(d, A, pos);
  }

  lemma PartialNext(d: Dual, A: seq<real>, pos: seq<nat>, s: State, k: nat, n: nat)
    requires Inv(d, A, pos, s) && k < |d.p| && n < |d.p|
    ensures PartialSum(d, A, pos, s, k, n + 1)
         == PartialSum(d, A, pos, s, k, n)
            + (if s.status[n] == Free then s.alpha[n] * d.Q[s.activeSet[k]][s.activeSet[n]] else 0.0)
  {
    hide Dot;
    FreeNext(d, A, pos, s, n, d.Q[s.activeSet[k]]);
  }

  /** With every free variable accounted for, both ways of restoring G give the whole gradient. */
  lemma PartialEnd(d: Dual, A: seq<real>, pos: seq<nat>, s: State, g: seq<real>)
    requires Inv(d, A, pos, s) && |g| == |d.p|
    requires g[..s.activeSize] == s.G[..s.activeSize]
    requires forall k :: s.activeSize <= k < |d.p| ==> g[k] == PartialSum(d, A, pos, s, k, s.activeSize)
    ensures Core(d, A, pos, s.(G := g), |d.p|)
  {
    hide Dot, StatusOf;
    FreeAll(d, A, pos, s);
    var s' := s.(G := g);
    forall k | 0 <= k < |d.p|
      ensures AgreesAt(d, A, s', k) && g[k] == d.Gradient(A, s.activeSet[k])
    {
      assert AgreesAt(d, A, s, k);
      if k < s.activeSize {
        assert g[k] == g[..s.activeSize][k] == s.G[k];
      }
    }
  }

  lemma CoreWeaken(d: Dual, A: seq<real>, pos: seq<nat>, s: State, m: nat, n: nat)
    requires Core(d, A, pos, s, n) && m <= n
    ensures Core(d, A, pos, s, m)
  {
  }

  /** Thresholds of the shrinking test, one per label and direction. */
  datatype Ext = NegInf | Fin(v: real) {
    predicate AtMost(x: real) { NegInf? || v <= x }
    predicate Under(x: real) { NegInf? || v < x }
  }

  datatype Thresholds = Thresholds(upP: Ext, lowP: Ext, upN: Ext, lowN: Ext)

  /** A variable at a bound whose gradient points strictly beyond every violating one. */
  predicate BeShrunk(positive: bool, st: Status, g: real, th: Thresholds) {
    match st
    case UpperBound => if positive then th.upP.Under(-g) else th.lowN.Under(-g)
    case LowerBound => if positive then th.lowP.Under(g) else th.upN.Under(g)
    case Free => false
  }

  ghost predicate ShrunkAt(y: seq<int>, status: seq<Status>, G: seq<real>, th: Thresholds, k: nat)
    requires k < |y| && k < |status| && k < |G|
  {
    BeShrunk(y[k] == 1, status[k], G[k], th)
  }

  lemma SwapMovesShrunk(s: State, th: Thresholds, i: nat, j: nat, k: nat)
    requires |s.y| == |s.G| == |s.status| == |s.alpha| == |s.p| == |s.Gbar| == |s.activeSet|
    requires i < |s.y| && j < |s.y| && k < |s.y|
    ensures var s' := SwapState(s, i, j);
      ShrunkAt(s'.y, s'.status, s'.G, th, k) == ShrunkAt(s.y, s.status, s.G, th, Exchange(i, j, k))
  {
  }

  lemma CoreResize(d: Dual, A: seq<real>, pos: seq<nat>, s: State, m: nat, n: nat)
    requires Core(d, A, pos, s, n) && m <= |d.p|
    ensures Core(d, A, pos, s.(activeSize := m), n)
  {
    forall i | 0 <= i < |d.p|
      ensures AgreesAt(d, A, s.(activeSize := m), i)
    {
      assert AgreesAt(d, A, s, i);
    }
  }

  lemma ShrunkIsBound(s: State, th: Thresholds, m: nat, n: nat)
    requires m <= n <= |s.status| == |s.y| == |s.G|
    requires NoneFreeFrom(s, n)
    requires forall k :: m <= k < n ==> ShrunkAt(s.y, s.status, s.G, th, k)
    ensures NoneFreeFrom(s, m)
  {
    forall k | m <= k < |s.status|
      ensures s.status[k] != Free
    {
      if k < n {
        assert ShrunkAt(s.y, s.status, s.G, th, k);
      }
    }
  }

  ghost function Ones(n: nat): (r: seq<real>)
    ensures |r| == n && forall t :: 0 <= t < n ==> r[t] == 1.0
  {
    seq(n, _ => 1.0)
  }

  ghost function Contribution(d: Dual, A: seq<real>, t: nat): real
    requires d.WellFormed() && |A| == |d.p| && t < |d.p|
  {
    A[t] * (d.Gradient(A, t) + d.p[t])
  }

  /** The contributions of the variables placed below position n, zero for the others. */
  ghost function Placed(d: Dual, A: seq<real>, pos: seq<nat>, n: nat): (w: seq<real>)
    requires d.WellFormed() && |A| == |d.p| == |pos|
    ensures |w| == |d.p|
    ensures forall t :: 0 <= t < |d.p| ==> w[t] == if pos[t] < n then Contribution(d, A, t) else 0.0
  {
    seq(|d.p|, t requires 0 <= t < |d.p| => if pos[t] < n then Contribution(d, A, t) else 0.0)
  }

  ghost function PlacedSum(d: Dual, A: seq<real>, pos: seq<nat>, n: nat): real
    requires d.WellFormed() && |A| == |d.p| == |pos|
  {
    Dot(Ones(|d.p|), Placed(d, A, pos, n), |d.p|)
  }

  lemma PlacedStart(d: Dual, A: seq<real>, pos: seq<nat>)
    requires d.WellFormed() && |A| == |d.p| == |pos|
    ensures PlacedSum(d, A, pos, 0) == 0.0
  {
    hide Dot;
    DotZero(Ones(|d.p|), Placed(d, A, pos, 0), |d.p|);
  }

  lemma PlacedNext(d: Dual, A: seq<real>, pos: seq<nat>, s: State, i: nat)
    requires Core(d, A, pos, s, |d.p|) && i < |d.p|
    ensures PlacedSum(d, A, pos, i + 1) == PlacedSum(d, A, pos, i) + s.alpha[i] * (s.G[i] + s.p[i])
  {
    hide Dot, BarEverywhere, StatusOf, Dual.Gradient;
    assert AgreesAt(d, A, s, i) && s.G[i] == d.Gradient(A, s.activeSet[i]);
    var t, w := s.activeSet[i], Placed(d, A, pos, i);
    assert Contribution(d, A, t) == s.alpha[i] * (s.G[i] + s.p[i]);
    PlacedUpdate(d, A, pos, s, i);
    DotUpdate(Ones(|d.p|), w, t, Contribution(d, A, t), |d.p|);
  }

  lemma PlacedUpdate(d: Dual, A: seq<real>, pos: seq<nat>, s: State, i: nat)
    requires Shape(d, A, pos, s) && i < |d.p|
    ensures var t := s.activeSet[i]; Placed(d, A, pos, i + 1) == Placed(d, A, pos, i)[t := Contribution(d, A, t)]
  {
    hide Contribution;
  }

  lemma PlacedAll(d: Dual, A: seq<real>, pos: seq<nat>, s: State)
    requires Core(d, A, pos, s, |d.p|)
    ensures PlacedSum(d, A, pos, |d.p|) == 2.0 * d.Objective(A)
  {
    hide Dot, BarEverywhere, StatusOf, GradientUpTo;
    DoubleObjective(d, A, Placed(d, A, pos, |d.p|));
  }

  lemma DoubleObjective(d: Dual, A: seq<real>, w: seq<real>)
    requires d.WellFormed() && |A| == |d.p| == |w|
    requires forall t :: 0 <= t < |d.p| ==> w[t] == Contribution(d, A, t)
    ensures Dot(Ones(|d.p|), w, |d.p|) == 2.0 * d.Objective(A)
  {
    hide Dot;
    var n := |d.p|;
    var g := seq(n, t requires 0 <= t < n => d.Gradient(A, t) + d.p[t]);
    ProductSum(A, g, w, n);
    DotCombine(A, d.QTimes(A), d.p, 2.0, g, n);
    DotCommutes(A, d.p, n);
  }

  lemma {:induction false} ProductSum(a: seq<real>, g: seq<real>, w: seq<real>, n: nat)
    requires n <= |a| && n <= |g| && n <= |w|
    requires forall t :: 0 <= t < n ==> w[t] == a[t] * g[t]
    ensures Dot(seq(|w|, _ => 1.0), w, n) == Dot(a, g, n)
  {
    if n > 0 {
      ProductSum(a, g, w, n - 1);
    }
  }
}
