/** The quadratic program that sequential minimal optimisation solves:
      minimise  1/2 a'Qa + p'a  subject to  y'a = const,  0 <= a[t] <= Cp or Cn by label.
    Everything here is in the order in which the caller gave the data. */
module DualProblem {
  import opened Vectors

  datatype Dual = Dual(Q: seq<seq<real>>, p: seq<real>, y: seq<int>, Cp: real, Cn: real) {

    ghost predicate WellFormed() {
      && |Q| == |p| == |y|
      && (forall t :: 0 <= t < |p| ==> |Q[t]| == |p|)
      && (forall s, t :: 0 <= s < |p| && 0 <= t < |p| ==> Q[s][t] == Q[t][s])
      && (forall t :: 0 <= t < |y| ==> y[t] == 1 || y[t] == -1)
      && Cp > 0.0 && Cn > 0.0
    }

    /** The bound of a variable, as the solver looks it up. */
    function C(t: nat): real
      requires t < |y|
    {
      if y[t] > 0 then Cp else Cn
    }

    ghost predicate InBox(a: seq<real>)
      requires WellFormed()
    {
      && |a| == |p|
      && (forall t :: 0 <= t < |p| && y[t] == 1 ==> 0.0 <= a[t] <= Cp)
      && (forall t :: 0 <= t < |p| && y[t] == -1 ==> 0.0 <= a[t] <= Cn)
    }

    ghost function QTimes(a: seq<real>): (r: seq<real>)
      requires WellFormed() && |a| == |p|
      ensures |r| == |p|
      ensures forall t :: 0 <= t < |p| ==> r[t] == Dot(Q[t], a, |p|)
    {
      seq(|p|, t requires 0 <= t < |p| => Dot(Q[t], a, |p|))
    }

    ghost function Gradient(a: seq<real>, t: nat): real
      requires WellFormed() && |a| == |p| && t < |p|
    {
      Dot(Q[t], a, |p|) + p[t]
    }

    ghost function Objective(a: seq<real>): real
      requires WellFormed() && |a| == |p|
    {
      Dot(a, QTimes(a), |p|) / 2.0 + Dot(p, a, |p|)
    }

    /** Sum of the entries whose label is `sgn`. */
    ghost function LabelSum(a: seq<real>, sgn: int, n: nat): real
      requires n <= |a| && n <= |y|
    {
      if n == 0 then 0.0 else LabelSum(a, sgn, n - 1) + (if y[n - 1] == sgn then a[n - 1] else 0.0)
    }

    /** y'a. */
    ghost function Balance(a: seq<real>): real
      requires |a| == |y|
    {
      LabelSum(a, 1, |y|) - LabelSum(a, -1, |y|)
    }

    ghost predicate PositiveSemidefinite()
      requires WellFormed()
    {
      forall v: seq<real> :: |v| == |p| ==> Dot(v, QTimes(v), |p|) >= 0.0
    }

    /** alpha[t] * y[t] may still grow. */
    predicate InUp(x: real, t: nat)
      requires t < |y|
    {
      if y[t] == 1 then x < Cp else x > 0.0
    }

    /** alpha[t] * y[t] may still shrink. */
    predicate InLow(x: real, t: nat)
      requires t < |y|
    {
      if y[t] == 1 then x > 0.0 else x < Cn
    }

    /** The stopping test's certificate: the signed gradients of the two groups are separated by
        multipliers lamP (positive labels) and lamN (negative labels) up to eps. */
    ghost predicate Certified(a: seq<real>, lamP: real, lamN: real, eps: real)
      requires WellFormed() && |a| == |p|
    {
      forall t :: 0 <= t < |p| ==> CertifiedAt(a, t, lamP, lamN, eps)
    }

    ghost predicate CertifiedAt(a: seq<real>, t: nat, lamP: real, lamN: real, eps: real)
      requires WellFormed() && |a| == |p| && t < |p|
    {
      var yG := y[t] as real * Gradient(a, t);
      var lam := if y[t] == 1 then lamP else lamN;
      && (InUp(a[t], t) ==> yG >= lam - eps / 2.0)
      && (InLow(a[t], t) ==> yG <= lam + eps / 2.0)
    }
  }

  lemma {:induction false} LabelSumAgree(d: Dual, a: seq<real>, b: seq<real>, sgn: int, n: nat)
    requires n <= |a| && n <= |b| && n <= |d.y|
    requires forall i :: 0 <= i < n ==> a[i] == b[i]
    ensures d.LabelSum(a, sgn, n) == d.LabelSum(b, sgn, n)
  {
    if n > 0 {
      LabelSumAgree(d, a, b, sgn, n - 1);
    }
  }

  lemma {:induction false} LabelSumUpdate(d: Dual, a: seq<real>, k: nat, v: real, sgn: int, n: nat)
    requires n <= |a| && n <= |d.y| && k < n
    ensures d.LabelSum(a[k := v], sgn, n)
         == d.LabelSum(a, sgn, n) + (if d.y[k] == sgn then v - a[k] else 0.0)
  {
    if k == n - 1 {
      LabelSumAgree(d, a[k := v], a, sgn, n - 1);
    } else {
      LabelSumUpdate(d, a, k, v, sgn, n - 1);
    }
  }

  /** One coordinate moves: the gradient moves by a multiple of that column. */
  lemma GradientUpdate(d: Dual, a: seq<real>, k: nat, v: real, t: nat)
    requires d.WellFormed() && |a| == |d.p| && k < |d.p| && t < |d.p|
    ensures d.Gradient(a[k := v], t) == d.Gradient(a, t) + d.Q[t][k] * (v - a[k])
  {
    DotUpdate(d.Q[t], a, k, v, |d.p|);
  }

  /** One coordinate moves by s: the objective is a parabola in s. */
  lemma ObjectiveUpdate(d: Dual, a: seq<real>, k: nat, v: real)
    requires d.WellFormed() && |a| == |d.p| && k < |d.p|
    ensures d.Objective(a[k := v])
         == d.Objective(a) + (v - a[k]) * d.Gradient(a, k) + (v - a[k]) * (v - a[k]) * d.Q[k][k] / 2.0
  {
    hide Dot;
    var n, s, b := |d.p|, v - a[k], a[k := v];
    var qa := d.QTimes(a);
    QuadraticUpdate(d, a, k, v);
    DotUpdate(d.p, a, k, v, n);
    Parabola(Dot(a, qa, n), Dot(d.p, a, n), s, qa[k], d.Q[k][k], d.p[k]);
  }

  lemma QuadraticUpdate(d: Dual, a: seq<real>, k: nat, v: real)
    requires d.WellFormed() && |a| == |d.p| && k < |d.p|
    ensures var s, qa := v - a[k], d.QTimes(a);
      Dot(a[k := v], d.QTimes(a[k := v]), |d.p|) == Dot(a, qa, |d.p|) + qa[k] * s + s * (qa[k] + d.Q[k][k] * s)
  {
    hide Dot;
    var n, s, b := |d.p|, v - a[k], a[k := v];
    var qa, qb := d.QTimes(a), d.QTimes(b);
    forall t | 0 <= t < n
      ensures qb[t] == qa[t] + s * d.Q[k][t]
    {
      DotUpdate(d.Q[t], a, k, v, n);
    }
    DotCombine(b, qa, d.Q[k], s, qb, n);
    DotCommutes(b, qa, n);
    DotUpdate(qa, a, k, v, n);
    DotCommutes(qa, a, n);
    DotCommutes(b, d.Q[k], n);
    DotUpdate(d.Q[k], a, k, v, n);
  }

  lemma Parabola(aqa: real, pa: real, s: real, g: real, q: real, pk: real)
    ensures (aqa + g * s + s * (g + q * s)) / 2.0 + (pa + pk * s) == aqa / 2.0 + pa + s * (g + pk) + s * s * q / 2.0
  {
  }

  /** Q is symmetric, so u'Qv == v'Qu. */
  lemma {:induction false} BilinearSymmetric(d: Dual, u: seq<real>, v: seq<real>)
    requires d.WellFormed() && |u| == |d.p| && |v| == |d.p|
    ensures Dot(u, d.QTimes(v), |d.p|) == Dot(v, d.QTimes(u), |d.p|)
  {
    var n := |d.p|;
    var zero := seq(n, _ => 0.0);
    DotZero(d.QTimes(v), zero, n);
    DotCommutes(zero, d.QTimes(v), n);
    forall t | 0 <= t < n
      ensures d.QTimes(zero)[t] == 0.0
    {
      DotZero(d.Q[t], zero, n);
    }
    DotZero(v, d.QTimes(zero), n);
    var w := zero;
    for k := 0 to n
      invariant |w| == n
      invariant forall t :: 0 <= t < n ==> w[t] == if t < k then u[t] else 0.0
      invariant Dot(w, d.QTimes(v), n) == Dot(v, d.QTimes(w), n)
    {
      BilinearStep(d, w, v, k, u[k]);
      w := w[k := u[k]];
    }
    assert w == u;
  }

  lemma BilinearStep(d: Dual, w: seq<real>, v: seq<real>, k: nat, x: real)
    requires d.WellFormed() && |w| == |d.p| && |v| == |d.p| && k < |d.p| && w[k] == 0.0
    requires Dot(w, d.QTimes(v), |d.p|) == Dot(v, d.QTimes(w), |d.p|)
    ensures Dot(w[k := x], d.QTimes(v), |d.p|) == Dot(v, d.QTimes(w[k := x]), |d.p|)
  {
    var n := |d.p|;
    var w' := w[k := x];
    var qv, qw, qw' := d.QTimes(v), d.QTimes(w), d.QTimes(w');
    DotCommutes(w', qv, n);
    DotUpdate(qv, w, k, x, n);
    DotCommutes(qv, w, n);
    forall t | 0 <= t < n
      ensures qw'[t] == qw[t] + x * d.Q[k][t]
    {
      DotUpdate(d.Q[t], w, k, x, n);
    }
    DotCombine(v, qw, d.Q[k], x, qw', n);
    DotCommutes(v, d.Q[k], n);
  }

  /** First-order expansion: f(b) - f(a) == G(a)'(b - a) + 1/2 (b - a)'Q(b - a). */
  lemma Expansion(d: Dual, a: seq<real>, b: seq<real>, s: seq<real>, g: seq<real>)
    requires d.WellFormed() && |a| == |b| == |s| == |g| == |d.p|
    requires forall t :: 0 <= t < |d.p| ==> s[t] == b[t] - a[t]
    requires forall t :: 0 <= t < |d.p| ==> g[t] == d.Gradient(a, t)
    ensures d.Objective(b) == d.Objective(a) + Dot(s, g, |d.p|) + Dot(s, d.QTimes(s), |d.p|) / 2.0
  {
    hide Dot;
    var n := |d.p|;
    QuadraticExpansion(d, a, b, s);
    DotAdd(d.p, a, s, b, n);
    DotAdd(s, d.QTimes(a), d.p, g, n);
    DotCommutes(s, d.p, n);
  }

  lemma QuadraticExpansion(d: Dual, a: seq<real>, b: seq<real>, s: seq<real>)
    requires d.WellFormed() && |a| == |b| == |s| == |d.p|
    requires forall t :: 0 <= t < |d.p| ==> b[t] == a[t] + s[t]
    ensures Dot(b, d.QTimes(b), |d.p|)
         == Dot(a, d.QTimes(a), |d.p|) + 2.0 * Dot(s, d.QTimes(a), |d.p|) + Dot(s, d.QTimes(s), |d.p|)
  {
    var n := |d.p|;
    var qa, qb, qs := d.QTimes(a), d.QTimes(b), d.QTimes(s);
    forall t | 0 <= t < n
      ensures qb[t] == qa[t] + qs[t]
    {
      DotAdd(d.Q[t], a, s, b, n);
    }
    DotAdd(b, qa, qs, qb, n);
    SplitLeft(b, a, s, qa, n);
    SplitLeft(b, a, s, qs, n);
    BilinearSymmetric(d, a, s);
  }

  lemma SplitLeft(b: seq<real>, a: seq<real>, s: seq<real>, v: seq<real>, n: nat)
    requires n <= |a| && n <= |b| && n <= |s| && n <= |v|
    requires forall t :: 0 <= t < n ==> b[t] == a[t] + s[t]
    ensures Dot(b, v, n) == Dot(a, v, n) + Dot(s, v, n)
  {
    DotCommutes(b, v, n);
    DotCommutes(a, v, n);
    DotCommutes(s, v, n);
    DotAdd(v, a, s, b, n);
  }

  /** Half the l1 distance of two vectors is what eps is multiplied with. */
  ghost function Distance(a: seq<real>, b: seq<real>, n: nat): real
    requires n <= |a| && n <= |b|
  {
    if n == 0 then 0.0 else Distance(a, b, n - 1) + Abs(b[n - 1] - a[n - 1])
  }

  ghost predicate TermBound(s: real, g: real, pos: bool, lp: real, ln: real, h: real) {
    s * g >= (if pos then lp * s else -ln * s) - h * Abs(s)
  }

  ghost function Slack(lp: real, p: real, ln: real, q: real, h: real, t: real): real {
    lp * p - ln * q - h * t
  }

  lemma CertifiedTerm(d: Dual, a: seq<real>, b: seq<real>, t: nat, lamP: real, lamN: real, eps: real)
    requires d.WellFormed() && d.InBox(a) && d.InBox(b) && t < |d.p| && eps >= 0.0
    requires d.CertifiedAt(a, t, lamP, lamN, eps)
    ensures TermBound(b[t] - a[t], d.Gradient(a, t), d.y[t] == 1, lamP, lamN, eps / 2.0)
  {
    var s, g := b[t] - a[t], d.Gradient(a, t);
    if d.y[t] == 1 {
      SlopeBound(s, g, lamP, eps / 2.0);
    } else {
      SlopeBound(-s, -g, lamN, eps / 2.0);
      assert (-s) * (-g) == s * g;
    }
  }

  lemma SlopeBound(s: real, g: real, lam: real, h: real)
    requires h >= 0.0
    requires s > 0.0 ==> g >= lam - h
    requires s < 0.0 ==> g <= lam + h
    ensures s * g >= lam * s - h * Abs(s)
  {
    if s > 0.0 {
      assert s * (g - (lam - h)) >= 0.0;
    } else if s < 0.0 {
      assert (-s) * ((lam + h) - g) >= 0.0;
    }
  }

  lemma {:induction false} SumOfBounds(d: Dual, a: seq<real>, b: seq<real>, s: seq<real>, g: seq<real>,
                                       lamP: real, lamN: real, h: real, n: nat)
    requires n <= |a| && n <= |b| && n <= |s| && n <= |g| && n <= |d.y|
    requires forall t :: 0 <= t < n ==> d.y[t] == 1 || d.y[t] == -1
    requires forall t :: 0 <= t < n ==> s[t] == b[t] - a[t]
    requires forall t :: 0 <= t < n ==> TermBound(s[t], g[t], d.y[t] == 1, lamP, lamN, h)
    ensures Dot(s, g, n) >= Slack(lamP, d.LabelSum(b, 1, n) - d.LabelSum(a, 1, n),
                                  lamN, d.LabelSum(b, -1, n) - d.LabelSum(a, -1, n), h, Distance(a, b, n))
  {
    hide TermBound, Slack;
    if n == 0 {
      SlackZero(lamP, lamN, h);
    } else {
      var k := n - 1;
      SumOfBounds(d, a, b, s, g, lamP, lamN, h, k);
      var p, q := d.LabelSum(b, 1, k) - d.LabelSum(a, 1, k), d.LabelSum(b, -1, k) - d.LabelSum(a, -1, k);
      AddTerm(Dot(s, g, k), s[k], g[k], d.y[k] == 1, lamP, p, lamN, q, h, Distance(a, b, k));
      assert d.LabelSum(b, 1, n) - d.LabelSum(a, 1, n) == p + if d.y[k] == 1 then s[k] else 0.0;
      assert d.LabelSum(b, -1, n) - d.LabelSum(a, -1, n) == q + if d.y[k] == 1 then 0.0 else s[k];
    }
  }

  lemma CertifiedSum(d: Dual, a: seq<real>, b: seq<real>, s: seq<real>, g: seq<real>, lamP: real, lamN: real, eps: real)
    requires d.WellFormed() && d.InBox(a) && d.InBox(b) && eps >= 0.0
    requires |s| == |g| == |d.p|
    requires forall t :: 0 <= t < |d.p| ==> s[t] == b[t] - a[t]
    requires forall t :: 0 <= t < |d.p| ==> g[t] == d.Gradient(a, t)
    requires d.Certified(a, lamP, lamN, eps)
    requires d.Balance(a) == d.Balance(b)
    requires lamP == lamN || d.LabelSum(a, 1, |d.p|) == d.LabelSum(b, 1, |d.p|)
    ensures Dot(s, g, |d.p|) >= -(eps / 2.0 * Distance(a, b, |d.p|))
  {
    hide TermBound, Slack, Dual.Gradient, Dot, Dual.CertifiedAt;
    forall t | 0 <= t < |d.p|
      ensures TermBound(s[t], g[t], d.y[t] == 1, lamP, lamN, eps / 2.0)
    {
      assert d.CertifiedAt(a, t, lamP, lamN, eps);
      CertifiedTerm(d, a, b, t, lamP, lamN, eps);
    }
    var n := |d.p|;
    SumOfBounds(d, a, b, s, g, lamP, lamN, eps / 2.0, n);
    Cancel(lamP, lamN, d.LabelSum(b, 1, n) - d.LabelSum(a, 1, n), d.LabelSum(b, -1, n) - d.LabelSum(a, -1, n),
           eps / 2.0, Distance(a, b, n));
  }

  lemma SlackZero(lp: real, ln: real, h: real)
    ensures Slack(lp, 0.0, ln, 0.0, h, 0.0) == 0.0
  {
  }

  lemma AddTerm(dot: real, s: real, g: real, pos: bool, lp: real, p: real, ln: real, q: real, h: real, t: real)
    requires dot >= Slack(lp, p, ln, q, h, t)
    requires TermBound(s, g, pos, lp, ln, h)
    ensures dot + s * g
         >= Slack(lp, p + if pos then s else 0.0, ln, q + if pos then 0.0 else s, h, t + Abs(s))
  {
    assert h * (t + Abs(s)) == h * t + h * Abs(s);
    assert lp * (p + s) == lp * p + lp * s;
    assert ln * (q + s) == ln * q + ln * s;
  }

  /** Near-optimality: a certified feasible point is within eps/2 * |b - a| of every feasible point b
      with the same balance y'b (and, when the two multipliers differ, the same label sums), provided
      Q is positive semidefinite. */
  lemma NearOptimal(d: Dual, a: seq<real>, b: seq<real>, lamP: real, lamN: real, eps: real)
    requires d.WellFormed() && d.InBox(a) && d.InBox(b) && eps >= 0.0
    requires d.PositiveSemidefinite()
    requires d.Certified(a, lamP, lamN, eps)
    requires d.Balance(a) == d.Balance(b)
    requires lamP == lamN || d.LabelSum(a, 1, |d.p|) == d.LabelSum(b, 1, |d.p|)
    ensures d.Objective(a) <= d.Objective(b) + eps / 2.0 * Distance(a, b, |d.p|)
  {
    hide Dual.Objective, Dot, Dual.Gradient, Dual.CertifiedAt;
    var n := |d.p|;
    var s := seq(n, t requires 0 <= t < n => b[t] - a[t]);
    var g := seq(n, t requires 0 <= t < n => d.Gradient(a, t));
    Expansion(d, a, b, s, g);
    assert Dot(s, d.QTimes(s), n) >= 0.0;
    CertifiedSum(d, a, b, s, g, lamP, lamN, eps);
  }

  lemma Cancel(lp: real, ln: real, dp: real, dn: real, h: real, t: real)
    requires dp == dn
    requires lp == ln || dp == 0.0
    ensures Slack(lp, dp, ln, dn, h, t) == -(h * t)
  {
  }
}
