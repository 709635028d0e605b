/** The clipped two-variable step of sequential minimal optimisation, and why it descends. */
module PairStep {
  import opened Vectors
  import opened DualProblem

  const TAU: real := 0.000000000001

  /** Second derivative along the step direction, replaced by TAU when it is not positive. */
  function Curvature(quad: real): (r: real)
    ensures r > 0.0 && (quad > 0.0 ==> r == quad) && (quad <= 0.0 ==> r == 0.000000000001)
  {
    if quad <= 0.0 then TAU else quad
  }

  /** `x` is `full` cut back to where one of the two variables meets a bound. */
  predicate CutBack(x: real, full: real) {
    if full > 0.0 then 0.0 < x <= full else if full < 0.0 then full <= x < 0.0 else x == 0.0
  }

  /** Labels differ: both variables move by the same amount. */
  method MoveTogether(ai: real, aj: real, Ci: real, Cj: real, delta: real) returns (ni: real, nj: real)
    requires 0.0 <= ai <= Ci && 0.0 <= aj <= Cj
    requires delta > 0.0 ==> ai < Ci && aj < Cj
    requires delta < 0.0 ==> ai > 0.0 && aj > 0.0
    ensures 0.0 <= ni <= Ci && 0.0 <= nj <= Cj
    ensures ni - ai == nj - aj
    ensures CutBack(ni - ai, delta)
    ensures ni - ai == delta || (delta > 0.0 && (ni == Ci || nj == Cj)) || (delta < 0.0 && (ni == 0.0 || nj == 0.0))
  {
    var diff := ai - aj;
    ni, nj := ai + delta, aj + delta;
    if diff > 0.0 {
      if nj < 0.0 {
        nj := 0.0;
        ni := diff;
      }
    } else {
      if ni < 0.0 {
        ni := 0.0;
        nj := -diff;
      }
    }
    if diff > Ci - Cj {
      if ni > Ci {
        ni := Ci;
        nj := Ci - diff;
      }
    } else {
      if nj > Cj {
        nj := Cj;
        ni := Cj + diff;
      }
    }
  }

  /** Labels agree: what one variable gains the other loses. */
  method MoveAgainst(ai: real, aj: real, Ci: real, Cj: real, delta: real) returns (ni: real, nj: real)
    requires 0.0 <= ai <= Ci && 0.0 <= aj <= Cj && Ci == Cj
    requires delta > 0.0 ==> ai > 0.0 && aj < Cj
    requires delta < 0.0 ==> ai < Ci && aj > 0.0
    ensures 0.0 <= ni <= Ci && 0.0 <= nj <= Cj
    ensures nj - aj == -(ni - ai)
    ensures CutBack(nj - aj, delta)
    ensures nj - aj == delta || (delta > 0.0 && (ni == 0.0 || nj == Cj)) || (delta < 0.0 && (ni == Ci || nj == 0.0))
  {
    var sum := ai + aj;
    ni, nj := ai - delta, aj + delta;
    if sum > Ci {
      if ni > Ci {
        ni := Ci;
        nj := sum - Ci;
      }
    } else {
      if nj < 0.0 {
        nj := 0.0;
        ni := sum;
      }
    }
    if sum > Cj {
      if nj > Cj {
        nj := Cj;
        ni := sum - Cj;
      }
    } else {
      if ni < 0.0 {
        ni := 0.0;
        nj := sum;
      }
    }
  }

  /** Moving two coordinates changes the objective by a quadratic form in the two moves. */
  lemma PairObjective(d: Dual, a: seq<real>, i: nat, j: nat, vi: real, vj: real)
    requires d.WellFormed() && |a| == |d.p| && i < |d.p| && j < |d.p| && i != j
    ensures d.Objective(a[i := vi][j := vj])
         == d.Objective(a) + PairChange(vi - a[i], vj - a[j], d.Gradient(a, i), d.Gradient(a, j),
                                        d.Q[i][i], d.Q[i][j], d.Q[j][j])
  {
    hide Dual.Objective, Dual.Gradient;
    ObjectiveUpdate(d, a, i, vi);
    ObjectiveUpdate(d, a[i := vi], j, vj);
    GradientUpdate(d, a, i, vi, j);
    PairAlgebra(vi - a[i], vj - a[j], d.Gradient(a, i), d.Gradient(a, j), d.Q[i][i], d.Q[i][j], d.Q[j][j]);
  }

  ghost function PairChange(si: real, sj: real, gi: real, gj: real, qii: real, qij: real, qjj: real): real {
    si * gi + sj * gj + (si * si * qii + 2.0 * (si * sj * qij) + sj * sj * qjj) / 2.0
  }

  lemma PairAlgebra(si: real, sj: real, gi: real, gj: real, qii: real, qij: real, qjj: real)
    ensures si * gi + si * si * qii / 2.0 + (sj * (gj + qij * si) + sj * sj * qjj / 2.0)
         == PairChange(si, sj, gi, gj, qii, qij, qjj)
  {
    assert sj * (gj + qij * si) == sj * gj + si * sj * qij;
  }

  /** Change of the objective after moving by x along slope g and curvature q. */
  ghost function LineChange(x: real, g: real, q: real): real {
    x * g + x * x * q / 2.0
  }

  lemma SignOfQuotient(x: real, c: real)
    requires c > 0.0
    ensures x > 0.0 <==> x / c > 0.0
    ensures x < 0.0 <==> x / c < 0.0
  {
    assert x / c * c == x;
  }

  /** A cut-back Newton step along slope g and curvature q strictly descends, convex or not. */
  lemma Descends(g: real, q: real, x: real)
    requires g != 0.0
    requires CutBack(x, -g / Curvature(q))
    ensures LineChange(x, g, q) < 0.0
  {
    var c := Curvature(q);
    var full := -g / c;
    assert full * c == -g;
    if g < 0.0 {
      assert full > 0.0 by { DivPositive(-g, c); }
      DescendsForward(g, c, q, x, full);
    } else {
      assert full < 0.0 by { DivPositive(g, c); assert -g / c == -(g / c); }
      DescendsForward(-g, c, q, -x, -full);
      assert (-x) * (-g) == x * g && (-x) * (-x) == x * x;
    }
  }

  lemma DivPositive(x: real, c: real)
    requires x > 0.0 && c > 0.0
    ensures x / c > 0.0
  {
    assert x / c * c == x;
  }

  lemma DescendsForward(g: real, c: real, q: real, x: real, full: real)
    requires g < 0.0 && c > 0.0 && 0.0 < x <= full && full * c == -g
    requires q <= c && (q > 0.0 ==> q == c)
    ensures x * g + x * x * q / 2.0 < 0.0
  {
    assert x * g < 0.0;
    if q > 0.0 {
      assert x * q <= full * q == -g;
      assert x * (x * q) <= x * (-g);
      assert x * x * q == x * (x * q);
    } else {
      assert x * x > 0.0;
      assert x * x * q <= 0.0;
    }
  }

  lemma OppositeChange(x: real, gi: real, gj: real, qii: real, qij: real, qjj: real)
    ensures PairChange(x, x, gi, gj, qii, qij, qjj) == LineChange(x, gj + gi, qii + qjj + 2.0 * qij)
  {
    var xx := x * x;
    assert xx * (qii + qjj + 2.0 * qij) == xx * qii + xx * qjj + 2.0 * (xx * qij);
  }

  lemma AgainstChange(x: real, gi: real, gj: real, qii: real, qij: real, qjj: real)
    ensures PairChange(-x, x, gi, gj, qii, qij, qjj) == LineChange(x, gj - gi, qii + qjj - 2.0 * qij)
  {
    var xx := x * x;
    assert (-x) * (-x) == xx && (-x) * x == -xx;
    assert xx * (qii + qjj - 2.0 * qij) == xx * qii + xx * qjj - 2.0 * (xx * qij);
  }

  /** With positive curvature, a step that stops only at its Newton point or at a bound is a line minimum. */
  lemma LineMinimum(g: real, q: real, x: real, other: real)
    requires q > 0.0
    requires CutBack(x, -g / q)
    requires x == -g / q || (x > 0.0 && other <= x) || (x < 0.0 && other >= x)
    ensures LineChange(x, g, q) <= LineChange(other, g, q)
  {
    var full := -g / q;
    assert full * q == -g;
    var m := (x + other) / 2.0;
    LineDifference(g, q, x, other);
    if x == full {
      assert (other - x) * (other - x) * q >= 0.0 by { assert (other - x) * (other - x) >= 0.0; }
      FullStep(g, q, x, other);
    } else if x > 0.0 {
      assert q * m <= q * full by { Scale(q, m, full); }
      assert (other - x) * (g + q * m) >= 0.0;
    } else {
      assert q * m >= q * full by { Scale(q, full, m); }
      assert (other - x) * (g + q * m) >= 0.0;
    }
  }

  lemma Scale(q: real, a: real, b: real)
    requires q > 0.0 && a <= b
    ensures q * a <= q * b
  {
  }

  lemma LineDifference(g: real, q: real, x: real, z: real)
    ensures z * g + z * z * q / 2.0 - (x * g + x * x * q / 2.0) == (z - x) * (g + q * ((x + z) / 2.0))
  {
    assert (z - x) * (q * ((x + z) / 2.0)) == (z * z - x * x) * q / 2.0;
    assert (z * z - x * x) * q == z * z * q - x * x * q;
  }

  lemma FullStep(g: real, q: real, x: real, z: real)
    requires x * q == -g && (z - x) * (z - x) * q >= 0.0
    ensures (z - x) * (g + q * ((x + z) / 2.0)) >= 0.0
  {
    assert g + q * ((x + z) / 2.0) == q * (z - x) / 2.0;
    assert (z - x) * (q * (z - x)) == (z - x) * (z - x) * q;
  }

  /** Curvature of the objective along the line that keeps y'a fixed. */
  function PairCurvature(d: Dual, ti: nat, tj: nat): real
    requires ti < |d.Q| && tj < |d.Q| && ti < |d.y| && tj < |d.y|
    requires ti < |d.Q[ti]| && tj < |d.Q[tj]| && tj < |d.Q[ti]|
  {
    if d.y[ti] == d.y[tj] then d.Q[ti][ti] + d.Q[tj][tj] - 2.0 * d.Q[ti][tj]
    else d.Q[ti][ti] + d.Q[tj][tj] + 2.0 * d.Q[ti][tj]
  }

  /** (vi, vj) lies on that line. */
  predicate SameLine(d: Dual, a: seq<real>, i: nat, j: nat, vi: real, vj: real)
    requires |d.y| == |a| && i < |a| && j < |a|
  {
    if d.y[i] == d.y[j] then vi + vj == a[i] + a[j] else vi - vj == a[i] - a[j]
  }

  ghost predicate InBoxAt(d: Dual, i: nat, j: nat, vi: real, vj: real)
    requires i < |d.y| && j < |d.y|
  {
    0.0 <= vi <= d.C(i) && 0.0 <= vj <= d.C(j)
  }

  /** What a step on (i, j) achieves: it stays feasible, strictly descends and, when the line is convex,
      reaches the least objective among all feasible points of the line. When it is not, the step goes on to a bound
      or ends after 10^12 times the slope. */
  ghost predicate GoodMove(d: Dual, a: seq<real>, i: nat, j: nat, vi: real, vj: real)
    requires d.WellFormed() && |a| == |d.p| && i < |a| && j < |a|
  {
    && InBoxAt(d, i, j, vi, vj) && SameLine(d, a, i, j, vi, vj)
    && d.Objective(a[i := vi][j := vj]) < d.Objective(a)
    && (PairCurvature(d, i, j) > 0.0 ==> forall xi: real, xj: real ::
          InBoxAt(d, i, j, xi, xj) && SameLine(d, a, i, j, xi, xj)
          ==> d.Objective(a[i := vi][j := vj]) <= d.Objective(a[i := xi][j := xj]))
    && (PairCurvature(d, i, j) <= 0.0 ==>
          AtEdge(d, a, i, j, vi, vj) || vj - a[j] == -Slope(d, a, i, j) / 0.000000000001)
  }

  /** Slope of the objective along the line, per unit of a[j]. */
  ghost function Slope(d: Dual, a: seq<real>, i: nat, j: nat): real
    requires d.WellFormed() && |a| == |d.p| && i < |a| && j < |a|
  {
    if d.y[i] == d.y[j] then d.Gradient(a, j) - d.Gradient(a, i) else d.Gradient(a, j) + d.Gradient(a, i)
  }

  lemma LineObjective(d: Dual, a: seq<real>, i: nat, j: nat, vi: real, vj: real)
    requires d.WellFormed() && |a| == |d.p| && i < |a| && j < |a| && i != j
    requires SameLine(d, a, i, j, vi, vj)
    ensures var x := vj - a[j];
      d.Objective(a[i := vi][j := vj]) == d.Objective(a) + LineChange(x, Slope(d, a, i, j), PairCurvature(d, i, j))
  {
    hide Dual.Objective, Dual.Gradient, PairChange, LineChange;
    PairObjective(d, a, i, j, vi, vj);
    var x := vj - a[j];
    if d.y[i] == d.y[j] {
      AgainstChange(x, d.Gradient(a, i), d.Gradient(a, j), d.Q[i][i], d.Q[i][j], d.Q[j][j]);
    } else {
      OppositeChange(x, d.Gradient(a, i), d.Gradient(a, j), d.Q[i][i], d.Q[i][j], d.Q[j][j]);
    }
  }

  /** A step cut back only by the box is a good move. */
  lemma CutStepIsGood(d: Dual, a: seq<real>, i: nat, j: nat, vi: real, vj: real)
    requires d.WellFormed() && d.InBox(a) && i < |a| && j < |a| && i != j
    requires InBoxAt(d, i, j, vi, vj) && SameLine(d, a, i, j, vi, vj)
    requires Slope(d, a, i, j) != 0.0
    requires CutBack(vj - a[j], -Slope(d, a, i, j) / Curvature(PairCurvature(d, i, j)))
    requires vj - a[j] == -Slope(d, a, i, j) / Curvature(PairCurvature(d, i, j)) || AtEdge(d, a, i, j, vi, vj)
    ensures GoodMove(d, a, i, j, vi, vj)
  {
    hide Dual.Objective, Dual.Gradient, Slope, PairCurvature, CutBack, Curvature, LineChange;
    var g, q, x := Slope(d, a, i, j), PairCurvature(d, i, j), vj - a[j];
    LineObjective(d, a, i, j, vi, vj);
    Descends(g, q, x);
    if q > 0.0 {
      forall xi: real, xj: real | InBoxAt(d, i, j, xi, xj) && SameLine(d, a, i, j, xi, xj)
        ensures d.Objective(a[i := vi][j := vj]) <= d.Objective(a[i := xi][j := xj])
      {
        LineObjective(d, a, i, j, xi, xj);
        LineMinimum(g, q, x, xj - a[j]);
      }
    }
  }

  /** One of the two moved up to, and in the direction of, a bound. */
  ghost predicate AtEdge(d: Dual, a: seq<real>, i: nat, j: nat, vi: real, vj: real)
    requires |d.y| == |a| && i < |a| && j < |a|
  {
    || (vj > a[j] && (vj == d.C(j) || if d.y[i] == d.y[j] then vi == 0.0 else vi == d.C(i)))
    || (vj < a[j] && (vj == 0.0 || if d.y[i] == d.y[j] then vi == d.C(i) else vi == 0.0))
  }

  /** Points of the line all have the same y'a, and the same label sums if the labels agree. */
  lemma LineKeepsBalance(d: Dual, a: seq<real>, i: nat, j: nat, vi: real, vj: real)
    requires d.WellFormed() && |a| == |d.p| && i < |a| && j < |a| && i != j
    requires SameLine(d, a, i, j, vi, vj)
    ensures var b := a[i := vi][j := vj];
      && d.Balance(b) == d.Balance(a)
      && (d.y[i] == d.y[j] ==> forall lab: int :: lab == 1 || lab == -1 ==>
            d.LabelSum(b, lab, |d.y|) == d.LabelSum(a, lab, |d.y|))
  {
    forall lab: int | lab == 1 || lab == -1
      ensures d.LabelSum(a[i := vi][j := vj], lab, |d.y|)
           == d.LabelSum(a, lab, |d.y|) + (if d.y[i] == lab then vi - a[i] else 0.0)
                                        + (if d.y[j] == lab then vj - a[j] else 0.0)
    {
      LabelSumUpdate(d, a, i, vi, lab, |d.y|);
      LabelSumUpdate(d, a[i := vi], j, vj, lab, |d.y|);
    }
  }

  lemma GoodInBox(d: Dual, a: seq<real>, i: nat, j: nat, vi: real, vj: real)
    requires d.WellFormed() && |a| == |d.p| && i < |a| && j < |a|
    requires GoodMove(d, a, i, j, vi, vj)
    ensures 0.0 <= vi <= d.C(i) && 0.0 <= vj <= d.C(j)
  {
  }
}
