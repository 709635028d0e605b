/** Which pair of variables the solver moves next, and what it means that none is left. */
module WorkingSet {
  import opened Vectors
  import opened DualProblem
  import opened SmoState
  import opened PairStep

  function Signed(lab: int, g: real): real {
    if lab == 1 then g else -g
  }

  predicate Up(lab: int, st: Status) {
    if lab == 1 then st != UpperBound else st != LowerBound
  }

  predicate Low(lab: int, st: Status) {
    if lab == 1 then st != LowerBound else st != UpperBound
  }

  /** The plain solver compares all variables; the nu solver only those of one label. */
  predicate InGroup(nu: bool, lab: int, group: int) {
    !nu || lab == group
  }

  ghost predicate Sized(s: State, n: nat) {
    n <= |s.y| && n <= |s.G| && n <= |s.status|
  }

  ghost predicate UpAt(s: State, nu: bool, group: int, k: nat)
    requires Sized(s, k + 1)
  {
    InGroup(nu, s.y[k], group) && Up(s.y[k], s.status[k])
  }

  ghost predicate LowAt(s: State, nu: bool, group: int, k: nat)
    requires Sized(s, k + 1)
  {
    InGroup(nu, s.y[k], group) && Low(s.y[k], s.status[k])
  }

  ghost function SignedAt(s: State, k: nat): real
    requires Sized(s, k + 1)
  {
    Signed(s.y[k], s.G[k])
  }

  /** m is the greatest -y*G among the first n variables of the group that may go up. */
  ghost predicate UpMax(s: State, nu: bool, group: int, n: nat, m: Ext)
    requires Sized(s, n)
  {
    && (forall k :: 0 <= k < n && UpAt(s, nu, group, k) ==> m.Fin? && -SignedAt(s, k) <= m.v)
    && (m.Fin? ==> exists k :: 0 <= k < n && UpAt(s, nu, group, k) && -SignedAt(s, k) == m.v)
  }

  /** m is the greatest y*G among the first n variables of the group that may go down. */
  ghost predicate LowMax(s: State, nu: bool, group: int, n: nat, m: Ext)
    requires Sized(s, n)
  {
    && (forall k :: 0 <= k < n && LowAt(s, nu, group, k) ==> m.Fin? && SignedAt(s, k) <= m.v)
    && (m.Fin? ==> exists k :: 0 <= k < n && LowAt(s, nu, group, k) && SignedAt(s, k) == m.v)
  }

  /** Gmax + Gmax2 < bound, where minus infinity absorbs. */
  predicate SumBelow(a: Ext, b: Ext, bound: real) {
    a.NegInf? || b.NegInf? || a.v + b.v < bound
  }

  predicate SumAtMost(a: Ext, b: Ext, bound: real) {
    a.NegInf? || b.NegInf? || a.v + b.v <= bound
  }

  /** No two of the first n variables that may be moved against each other violate by eps or more. */
  ghost predicate Optimal(s: State, nu: bool, n: nat, eps: real)
    requires Sized(s, n)
  {
    forall i, j :: 0 <= i < n && 0 <= j < n && UpAt(s, nu, s.y[j], i) && LowAt(s, nu, s.y[i], j)
      ==> SignedAt(s, j) - SignedAt(s, i) < eps
  }

  /** A pair that the step may move: it violates, and in the nu solver the labels agree. */
  ghost predicate Violating(s: State, nu: bool, i: nat, j: nat)
    requires Sized(s, i + 1) && Sized(s, j + 1)
  {
    && i != j && InGroup(nu, s.y[i], s.y[j])
    && Up(s.y[i], s.status[i]) && Low(s.y[j], s.status[j])
    && SignedAt(s, i) < SignedAt(s, j)
  }

  /** i is the maximal violator of j's group, the last one if there are several. */
  ghost predicate MaximalUp(s: State, nu: bool, i: nat, group: int, n: nat)
    requires Sized(s, n) && i < n
  {
    && UpAt(s, nu, group, i)
    && (forall k :: 0 <= k < n && UpAt(s, nu, group, k) ==> -SignedAt(s, k) <= -SignedAt(s, i))
    && (forall k :: i < k < n && UpAt(s, nu, group, k) ==> -SignedAt(s, k) < -SignedAt(s, i))
  }

  lemma SumDecides(s: State, nu: bool, group: int, n: nat, up: Ext, low: Ext, eps: real)
    requires Sized(s, n) && UpMax(s, nu, group, n, up) && LowMax(s, nu, group, n, low)
    ensures SumBelow(up, low, eps)
       <==> forall i, j :: 0 <= i < n && 0 <= j < n && UpAt(s, nu, group, i) && LowAt(s, nu, group, j)
              ==> SignedAt(s, j) - SignedAt(s, i) < eps
  {
    if !SumBelow(up, low, eps) {
      var i :| 0 <= i < n && UpAt(s, nu, group, i) && -SignedAt(s, i) == up.v;
      var j :| 0 <= j < n && LowAt(s, nu, group, j) && SignedAt(s, j) == low.v;
      assert SignedAt(s, j) - SignedAt(s, i) >= eps;
    }
  }

  /** Second-order estimate of what moving a pair does to the objective. */
  function Estimate(violation: real, curvature: real): real {
    -(violation * violation) / Curvature(curvature)
  }

  ghost function EstimateAt(d: Dual, s: State, i: nat, j: nat): real
    requires d.WellFormed() && Sized(s, i + 1) && Sized(s, j + 1) && i < |s.activeSet| && j < |s.activeSet|
    requires s.activeSet[i] < |d.p| && s.activeSet[j] < |d.p|
  {
    Estimate(SignedAt(s, j) - SignedAt(s, i), PairCurvature(d, s.activeSet[i], s.activeSet[j]))
  }

  /** What the estimate says about moving the pair (i, j) to (vi, vj): on a convex line half of it is the least change
      of the objective over the whole line, reached at the full step; on any other the curvature counts as 10^-12. */
  ghost predicate Foretells(d: Dual, a: seq<real>, i: nat, j: nat, vi: real, vj: real, estimate: real)
    requires d.WellFormed() && |a| == |d.p| && i < |a| && j < |a|
  {
    var q, g := PairCurvature(d, i, j), Slope(d, a, i, j);
    if q > 0.0 then
      SameLine(d, a, i, j, vi, vj) ==>
        var change := d.Objective(a[i := vi][j := vj]) - d.Objective(a);
        estimate <= 2.0 * change && (vj - a[j] == -g / q ==> estimate == 2.0 * change)
    else estimate == -(g * g) / 0.000000000001
  }

  lemma EstimateOnLine(d: Dual, a: seq<real>, i: nat, j: nat, vi: real, vj: real)
    requires d.WellFormed() && |a| == |d.p| && i < |a| && j < |a| && i != j
    ensures Foretells(d, a, i, j, vi, vj, Estimate(Slope(d, a, i, j), PairCurvature(d, i, j)))
  {
    hide Dual.Objective, Dual.Gradient, PairCurvature, Slope, SameLine;
    var q, g := PairCurvature(d, i, j), Slope(d, a, i, j);
    if q > 0.0 && SameLine(d, a, i, j, vi, vj) {
      LineObjective(d, a, i, j, vi, vj);
      SignOfQuotient(-g, q);
      LineMinimum(g, q, -g / q, vj - a[j]);
      FullStepGain(g, q);
    }
  }

  /** The estimate with which the search compares two positions is that of the pair in the original order. */
  lemma EstimateIsGain(d: Dual, A: seq<real>, pos: seq<nat>, s: State, n: nat, i: nat, j: nat, vi: real, vj: real)
    requires Core(d, A, pos, s, n) && i < n && j < n && i != j
    ensures d.WellFormed() && |A| == |d.p| && s.activeSet[i] < |A| && s.activeSet[j] < |A|
    ensures Foretells(d, A, s.activeSet[i], s.activeSet[j], vi, vj, EstimateAt(d, s, i, j))
  {
    hide Dual.Gradient, PairCurvature, Foretells, Estimate, BarEverywhere, GradientUpTo;
    assert AgreesAt(d, A, s, i) && AgreesAt(d, A, s, j);
    GradientHere(d, A, pos, s, i, n);
    GradientHere(d, A, pos, s, j, n);
    var ti, tj := s.activeSet[i], s.activeSet[j];
    assert pos[ti] == i && pos[tj] == j;
    EstimateOnLine(d, A, ti, tj, vi, vj);
    SameSquare(Slope(d, A, ti, tj), SignedAt(s, j) - SignedAt(s, i), PairCurvature(d, ti, tj));
  }

  lemma SameSquare(g: real, v: real, q: real)
    requires g == v || g == -v
    ensures Estimate(g, q) == Estimate(v, q)
  {
    assert g * g == v * v;
  }

  lemma GradientHere(d: Dual, A: seq<real>, pos: seq<nat>, s: State, k: nat, n: nat)
    requires Core(d, A, pos, s, n) && k < n
    ensures s.activeSet[k] < |d.p| && s.G[k] == d.Gradient(A, s.activeSet[k])
  {
    hide Dual.Gradient, BarEverywhere;
    assert AgreesAt(d, A, s, k);
  }

  lemma FullStepGain(g: real, q: real)
    requires q > 0.0
    ensures 2.0 * LineChange(-g / q, g, q) == -(g * g) / q
  {
    var x := -g / q;
    assert x * q == -g;
    assert x * x * q == x * (x * q);
    assert x * g == -(g * g) / q;
  }

  /** The slot of the running maximum that position k is compared with. */
  predicate SecondSlot(nu: bool, lab: int) {
    nu && lab != 1
  }

  /** idx is the last place where the running maximum m of a slot is reached. */
  ghost predicate SlotHolds(s: State, nu: bool, group: int, n: nat, m: Ext, idx: int)
    requires Sized(s, n)
  {
    && -1 <= idx < n && (idx == -1 <==> m.NegInf?)
    && (idx >= 0 ==> UpAt(s, nu, group, idx) && -SignedAt(s, idx) == m.v)
    && (idx >= 0 ==> forall k :: idx < k < n && UpAt(s, nu, group, k) ==> -SignedAt(s, k) < m.v)
  }

  /** Both sums below eps is exactly optimality of the active variables. */
  lemma StopsExactlyWhenOptimal(s: State, nu: bool, n: nat, upP: Ext, lowP: Ext, upN: Ext, lowN: Ext, eps: real)
    requires Sized(s, n) && forall k :: 0 <= k < n ==> s.y[k] == 1 || s.y[k] == -1
    requires UpMax(s, nu, 1, n, upP) && LowMax(s, nu, 1, n, lowP)
    requires nu ==> UpMax(s, nu, -1, n, upN) && LowMax(s, nu, -1, n, lowN)
    ensures SumBelow(upP, lowP, eps) && (nu ==> SumBelow(upN, lowN, eps)) <==> Optimal(s, nu, n, eps)
  {
    SumDecides(s, nu, 1, n, upP, lowP, eps);
    if nu {
      SumDecides(s, nu, -1, n, upN, lowN, eps);
    }
    forall i, j | 0 <= i < n && 0 <= j < n
      ensures (UpAt(s, nu, s.y[j], i) && LowAt(s, nu, s.y[i], j))
         <==> (UpAt(s, nu, 1, i) && LowAt(s, nu, 1, j)) || (nu && UpAt(s, nu, -1, i) && LowAt(s, nu, -1, j))
    {
    }
  }

  lemma LowMaxStep(s: State, nu: bool, group: int, t: nat, m: Ext)
    requires Sized(s, t + 1) && LowMax(s, nu, group, t, m)
    ensures LowMax(s, nu, group, t + 1,
                   if LowAt(s, nu, group, t) && m.AtMost(SignedAt(s, t)) then Fin(SignedAt(s, t)) else m)
  {
    var m' := if LowAt(s, nu, group, t) && m.AtMost(SignedAt(s, t)) then Fin(SignedAt(s, t)) else m;
    if m'.Fin? {
      if m' == m {
        var k :| 0 <= k < t && LowAt(s, nu, group, k) && SignedAt(s, k) == m.v;
        assert LowAt(s, nu, group, k) && SignedAt(s, k) == m'.v;
      } else {
        assert LowAt(s, nu, group, t) && SignedAt(s, t) == m'.v;
      }
    }
  }

  /** Position k can be paired with the maximal violator of its slot. */
  ghost predicate Candidate(s: State, nu: bool, upP: Ext, upN: Ext, k: nat)
    requires Sized(s, k + 1)
  {
    var up := if SecondSlot(nu, s.y[k]) then upN else upP;
    Low(s.y[k], s.status[k]) && up.Fin? && up.v + SignedAt(s, k) > 0.0
  }

  ghost predicate Labels(d: Dual, s: State) {
    && d.WellFormed() && |d.y| == |d.p| && |s.activeSet| == |d.p| && Sized(s, |d.p|)
    && (forall k :: 0 <= k < |d.p| ==> s.y[k] == 1 || s.y[k] == -1)
    && (forall k :: 0 <= k < |d.p| ==> s.activeSet[k] < |d.p| && s.y[k] == d.y[s.activeSet[k]])
  }

  /** What position k offers when paired with the maximal violator of its slot. */
  ghost function Offer(d: Dual, s: State, nu: bool, upP: Ext, ip: int, upN: Ext, im: int, k: nat): real
    requires Labels(d, s) && k < |d.p| && Candidate(s, nu, upP, upN, k)
  {
    var i := if SecondSlot(nu, s.y[k]) then im else ip;
    var up := if SecondSlot(nu, s.y[k]) then upN else upP;
    if 0 <= i < |d.p| then Estimate(up.v + SignedAt(s, k), PairCurvature(d, s.activeSet[i], s.activeSet[k])) else 0.0
  }

  /** `best` is the last of the candidates below n that offer `least`, the least of them; -1 says there are none. */
  ghost predicate BestSoFar(d: Dual, s: State, nu: bool, upP: Ext, ip: int, upN: Ext, im: int, n: nat, best: int,
                            least: real)
    requires Labels(d, s) && n <= |d.p|
  {
    && -1 <= best < n
    && (best >= 0 ==> Candidate(s, nu, upP, upN, best) && least == Offer(d, s, nu, upP, ip, upN, im, best))
    && (forall k :: 0 <= k < n && Candidate(s, nu, upP, upN, k)
          ==> best >= 0 && least <= Offer(d, s, nu, upP, ip, upN, im, k))
    && (forall k :: best < k < n && Candidate(s, nu, upP, upN, k) ==> least < Offer(d, s, nu, upP, ip, upN, im, k))
  }

  lemma SearchStart(d: Dual, s: State, nu: bool, upP: Ext, ip: int, upN: Ext, im: int)
    requires Labels(d, s)
    ensures LowMax(s, nu, 1, 0, NegInf) && LowMax(s, nu, -1, 0, NegInf)
    ensures BestSoFar(d, s, nu, upP, ip, upN, im, 0, -1, 0.0)
  {
  }

  lemma BestStep(d: Dual, s: State, nu: bool, upP: Ext, ip: int, upN: Ext, im: int, j: nat, best: int, least: real)
    requires Labels(d, s) && j < |d.p| && BestSoFar(d, s, nu, upP, ip, upN, im, j, best, least)
    ensures !Candidate(s, nu, upP, upN, j) ==> BestSoFar(d, s, nu, upP, ip, upN, im, j + 1, best, least)
    ensures Candidate(s, nu, upP, upN, j) ==> var offer := Offer(d, s, nu, upP, ip, upN, im, j);
              if best == -1 || offer <= least then BestSoFar(d, s, nu, upP, ip, upN, im, j + 1, j, offer)
              else BestSoFar(d, s, nu, upP, ip, upN, im, j + 1, best, least)
  {
    hide Offer, Candidate;
  }

  /** j is the best partner of i by the second-order estimate, the last one if there are several. */
  ghost predicate BestFor(d: Dual, s: State, nu: bool, i: nat, j: nat, n: nat)
    requires Labels(d, s) && i < |d.p| && j < |d.p| && n <= |d.p|
  {
    && (forall k :: 0 <= k < n && Violating(s, nu, i, k) ==> EstimateAt(d, s, i, j) <= EstimateAt(d, s, i, k))
    && (forall k :: j < k < n && Violating(s, nu, i, k) ==> EstimateAt(d, s, i, j) < EstimateAt(d, s, i, k))
  }

  /** The best offer to the maximal violator of its slot is the best partner of that one. */
  lemma OfferIsBest(d: Dual, s: State, nu: bool, upP: Ext, ip: int, upN: Ext, im: int, n: nat, best: nat, least: real)
    requires Labels(d, s) && best < n <= |d.p| && BestSoFar(d, s, nu, upP, ip, upN, im, n, best, least)
    requires SlotHolds(s, nu, 1, n, upP, ip) && SlotHolds(s, nu, -1, n, upN, im)
    ensures var i := if SecondSlot(nu, s.y[best]) then im else ip;
      0 <= i < n && Violating(s, nu, i, best) && BestFor(d, s, nu, i, best, n)
  {
    hide Estimate, PairCurvature;
    var i := if SecondSlot(nu, s.y[best]) then im else ip;
    forall k | 0 <= k < n && Violating(s, nu, i, k)
      ensures EstimateAt(d, s, i, best) <= EstimateAt(d, s, i, k)
      ensures best < k ==> EstimateAt(d, s, i, best) < EstimateAt(d, s, i, k)
    {
      assert Candidate(s, nu, upP, upN, k);
    }
  }

  /** If the stopping test fails, the search found a pair that violates, maximal on one side and best on the other. */
  lemma SearchEnds(d: Dual, s: State, nu: bool, upP: Ext, ip: int, upN: Ext, im: int, lowP: Ext, lowN: Ext,
                   n: nat, best: int, eps: real)
    requires Labels(d, s) && n <= |d.p| && eps > 0.0
    requires UpMax(s, nu, 1, n, upP) && LowMax(s, nu, 1, n, lowP) && SlotHolds(s, nu, 1, n, upP, ip)
    requires nu ==> UpMax(s, nu, -1, n, upN) && LowMax(s, nu, -1, n, lowN)
    requires SlotHolds(s, nu, -1, n, upN, im)
    requires exists least :: BestSoFar(d, s, nu, upP, ip, upN, im, n, best, least)
    requires !(SumBelow(upP, lowP, eps) && (nu ==> SumBelow(upN, lowN, eps)))
    ensures 0 <= best < n
    ensures var i := if SecondSlot(nu, s.y[best]) then im else ip;
      0 <= i < n && Violating(s, nu, i, best) && MaximalUp(s, nu, i, s.y[best], n) && BestFor(d, s, nu, i, best, n)
  {
    hide Offer, LowMax, BestFor;
    var group := if SumBelow(upP, lowP, eps) then -1 else 1;
    var k := SomeCandidate(s, nu, group, n, if group == 1 then upP else upN, if group == 1 then lowP else lowN, eps);
    assert Candidate(s, nu, upP, upN, k);
    var least :| BestSoFar(d, s, nu, upP, ip, upN, im, n, best, least);
    OfferIsBest(d, s, nu, upP, ip, upN, im, n, best, least);
  }

  /** A sum that is not below a positive eps comes from a variable that can be paired. */
  lemma SomeCandidate(s: State, nu: bool, group: int, n: nat, up: Ext, low: Ext, eps: real) returns (k: nat)
    requires Sized(s, n) && eps > 0.0
    requires LowMax(s, nu, group, n, low) && !SumBelow(up, low, eps)
    ensures k < n && LowAt(s, nu, group, k) && up.Fin? && up.v + SignedAt(s, k) > 0.0
  {
    k :| 0 <= k < n && LowAt(s, nu, group, k) && SignedAt(s, k) == low.v;
  }

  /** The shrinking thresholds are the group maxima; the plain solver has one group. */
  ghost predicate ThresholdsOf(s: State, nu: bool, n: nat, th: Thresholds)
    requires Sized(s, n)
  {
    && UpMax(s, nu, 1, n, th.upP) && LowMax(s, nu, 1, n, th.lowP)
    && UpMax(s, nu, if nu then -1 else 1, n, th.upN) && LowMax(s, nu, if nu then -1 else 1, n, th.lowN)
  }

  /** A variable at a bound that is strictly on the safe side of every one of the first n that it could violate with. */
  ghost predicate Beyond(s: State, nu: bool, n: nat, lab: int, st: Status, g: real)
    requires Sized(s, n)
  {
    && st != Free
    && (Low(lab, st) ==> forall i :: 0 <= i < n && UpAt(s, nu, lab, i) ==> Signed(lab, g) < SignedAt(s, i))
    && (Up(lab, st) ==> forall j :: 0 <= j < n && LowAt(s, nu, lab, j) ==> SignedAt(s, j) < Signed(lab, g))
  }

  /** The test against the thresholds shrinks exactly those. */
  lemma ShrunkExactly(s: State, nu: bool, n: nat, th: Thresholds, lab: int, st: Status, g: real)
    requires Sized(s, n) && ThresholdsOf(s, nu, n, th) && (lab == 1 || lab == -1)
    ensures BeShrunk(lab == 1, st, g, th) <==> Beyond(s, nu, n, lab, st, g)
  {
    var group := if nu then lab else 1;
    var up, low := if lab == 1 then th.upP else th.upN, if lab == 1 then th.lowP else th.lowN;
    assert UpMax(s, nu, group, n, up) && LowMax(s, nu, group, n, low);
    assert forall k :: 0 <= k < n ==> UpAt(s, nu, group, k) == UpAt(s, nu, lab, k);
    assert forall k :: 0 <= k < n ==> LowAt(s, nu, group, k) == LowAt(s, nu, lab, k);
  }

  /** No two of the first n variables that may be moved against each other violate by more than `most`. */
  ghost predicate Close(s: State, nu: bool, n: nat, most: real)
    requires Sized(s, n)
  {
    forall i, j :: 0 <= i < n && 0 <= j < n && UpAt(s, nu, s.y[j], i) && LowAt(s, nu, s.y[i], j)
      ==> SignedAt(s, j) - SignedAt(s, i) <= most
  }

  lemma SumDecidesClose(s: State, nu: bool, group: int, n: nat, up: Ext, low: Ext, most: real)
    requires Sized(s, n) && UpMax(s, nu, group, n, up) && LowMax(s, nu, group, n, low)
    ensures SumAtMost(up, low, most)
       <==> forall i, j :: 0 <= i < n && 0 <= j < n && UpAt(s, nu, group, i) && LowAt(s, nu, group, j)
              ==> SignedAt(s, j) - SignedAt(s, i) <= most
  {
    if !SumAtMost(up, low, most) {
      var i :| 0 <= i < n && UpAt(s, nu, group, i) && -SignedAt(s, i) == up.v;
      var j :| 0 <= j < n && LowAt(s, nu, group, j) && SignedAt(s, j) == low.v;
      assert SignedAt(s, j) - SignedAt(s, i) > most;
    }
  }

  lemma CloseExactly(s: State, nu: bool, n: nat, th: Thresholds, most: real)
    requires Sized(s, n) && ThresholdsOf(s, nu, n, th) && forall k :: 0 <= k < n ==> s.y[k] == 1 || s.y[k] == -1
    ensures SumAtMost(th.upP, th.lowP, most) && SumAtMost(th.upN, th.lowN, most) <==> Close(s, nu, n, most)
  {
    SumDecidesClose(s, nu, 1, n, th.upP, th.lowP, most);
    SumDecidesClose(s, nu, if nu then -1 else 1, n, th.upN, th.lowN, most);
    forall i, j | 0 <= i < n && 0 <= j < n
      ensures (UpAt(s, nu, s.y[j], i) && LowAt(s, nu, s.y[i], j))
         <==> (UpAt(s, nu, 1, i) && LowAt(s, nu, 1, j)) || (nu && UpAt(s, nu, -1, i) && LowAt(s, nu, -1, j))
    {
    }
  }

  lemma {:induction false} UpMaxExists(s: State, nu: bool, group: int, n: nat) returns (m: Ext)
    requires Sized(s, n)
    ensures UpMax(s, nu, group, n, m)
  {
    m := NegInf;
    if n > 0 {
      m := UpMaxExists(s, nu, group, n - 1);
      if UpAt(s, nu, group, n - 1) && m.AtMost(-SignedAt(s, n - 1)) {
        m := Fin(-SignedAt(s, n - 1));
      }
    }
  }

  lemma {:induction false} LowMaxExists(s: State, nu: bool, group: int, n: nat) returns (m: Ext)
    requires Sized(s, n)
    ensures LowMax(s, nu, group, n, m)
  {
    m := NegInf;
    if n > 0 {
      m := LowMaxExists(s, nu, group, n - 1);
      LowMaxStep(s, nu, group, n - 1, m);
      if LowAt(s, nu, group, n - 1) && m.AtMost(SignedAt(s, n - 1)) {
        m := Fin(SignedAt(s, n - 1));
      }
    }
  }

  /** lam separates the two sides of a group up to eps. */
  ghost predicate Separates(s: State, nu: bool, group: int, n: nat, lam: real, eps: real)
    requires Sized(s, n)
  {
    && (forall k :: 0 <= k < n && UpAt(s, nu, group, k) ==> SignedAt(s, k) >= lam - eps / 2.0)
    && (forall k :: 0 <= k < n && LowAt(s, nu, group, k) ==> SignedAt(s, k) <= lam + eps / 2.0)
  }

  lemma SeparatorExists(s: State, nu: bool, group: int, n: nat, eps: real) returns (lam: real)
    requires Sized(s, n) && eps > 0.0 && Optimal(s, nu, n, eps) && (group == 1 || group == -1)
    ensures Separates(s, nu, group, n, lam, eps)
  {
    var up := UpMaxExists(s, nu, group, n);
    var low := LowMaxExists(s, nu, group, n);
    SumDecides(s, nu, group, n, up, low, eps);
    assert SumBelow(up, low, eps) by {
      forall i, j | 0 <= i < n && 0 <= j < n && UpAt(s, nu, group, i) && LowAt(s, nu, group, j)
        ensures SignedAt(s, j) - SignedAt(s, i) < eps
      {
        assert UpAt(s, nu, s.y[j], i) && LowAt(s, nu, s.y[i], j);
      }
    }
    lam := if up.Fin? && low.Fin? then (low.v - up.v) / 2.0 else if up.Fin? then -up.v else if low.Fin? then low.v
          else 0.0;
  }

  /** Two variables that may be moved against each other at a point in the original order. */
  ghost predicate Movers(d: Dual, a: seq<real>, nu: bool, i: nat, j: nat)
    requires d.WellFormed() && |a| == |d.p| && i < |a| && j < |a|
  {
    d.InUp(a[i], i) && d.InLow(a[j], j) && (nu ==> d.y[i] == d.y[j])
  }

  /** No such pair violates the optimality conditions by eps or more. */
  ghost predicate WithinTolerance(d: Dual, a: seq<real>, nu: bool, eps: real)
    requires d.WellFormed() && |a| == |d.p|
  {
    forall i: nat, j: nat :: i < |a| && j < |a| && Movers(d, a, nu, i, j) ==>
      d.y[j] as real * d.Gradient(a, j) - d.y[i] as real * d.Gradient(a, i) < eps
  }

  /** The stopping test in the solver's order is the one in the original order. */
  lemma OptimalIsTolerance(d: Dual, A: seq<real>, pos: seq<nat>, s: State, nu: bool, eps: real)
    requires Core(d, A, pos, s, |d.p|) && Optimal(s, nu, |d.p|, eps)
    ensures WithinTolerance(d, A, nu, eps)
  {
    hide Dual.Gradient, BarEverywhere, GradientUpTo;
    forall i: nat, j: nat | i < |A| && j < |A| && Movers(d, A, nu, i, j)
      ensures d.y[j] as real * d.Gradient(A, j) - d.y[i] as real * d.Gradient(A, i) < eps
    {
      var ki, kj := pos[i], pos[j];
      assert AgreesAt(d, A, s, ki) && AgreesAt(d, A, s, kj);
      GradientHere(d, A, pos, s, ki, |d.p|);
      GradientHere(d, A, pos, s, kj, |d.p|);
      assert UpAt(s, nu, s.y[kj], ki) && LowAt(s, nu, s.y[ki], kj);
    }
  }

  /** The stopping test on the full active set yields the multipliers of the near-optimality theorem. */
  lemma OptimalIsCertified(d: Dual, A: seq<real>, pos: seq<nat>, s: State, nu: bool, eps: real)
    returns (lamP: real, lamN: real)
    requires Core(d, A, pos, s, |d.p|) && eps > 0.0 && Optimal(s, nu, |d.p|, eps)
    ensures d.Certified(A, lamP, lamN, eps) && (!nu ==> lamP == lamN)
  {
    lamP := SeparatorExists(s, nu, 1, |d.p|, eps);
    lamN := lamP;
    if nu {
      lamN := SeparatorExists(s, nu, -1, |d.p|, eps);
    }
    forall t | 0 <= t < |d.p|
      ensures d.CertifiedAt(A, t, lamP, lamN, eps)
    {
      CertifiedHere(d, A, pos, s, nu, eps, lamP, lamN, pos[t]);
    }
  }

  lemma CertifiedHere(d: Dual, A: seq<real>, pos: seq<nat>, s: State, nu: bool, eps: real, lamP: real, lamN: real,
                      k: nat)
    requires Core(d, A, pos, s, |d.p|) && k < |d.p|
    requires Separates(s, nu, 1, |d.p|, lamP, eps) && Separates(s, nu, if nu then -1 else 1, |d.p|, lamN, eps)
    requires !nu ==> lamP == lamN
    ensures d.CertifiedAt(A, s.activeSet[k], lamP, lamN, eps)
  {
    hide Dot, BarEverywhere, Dual.Gradient;
    assert AgreesAt(d, A, s, k);
    assert s.G[k] == d.Gradient(A, s.activeSet[k]);
    var group := if nu then s.y[k] else 1;
    assert UpAt(s, nu, group, k) == d.InUp(A[s.activeSet[k]], s.activeSet[k]);
    assert LowAt(s, nu, group, k) == d.InLow(A[s.activeSet[k]], s.activeSet[k]);
  }
}
