/** The margin of nu-classification, by which the solution is divided: when it exists, when it is positive, and when it
    is zero. */
module NuMargin {
  import opened Bias
  import opened DualProblem
  import opened Vectors

  /** The dual problem of nu-classification: boxes of size one and no linear term. */
  ghost predicate NuProblem(d: Dual) {
    d.WellFormed() && d.Cp == 1.0 && d.Cn == 1.0 && forall t :: 0 <= t < |d.p| ==> d.p[t] == 0.0
  }

  /** A point in the boxes in which both classes hold the same share. */
  ghost predicate Feasible(d: Dual, share: real, b: seq<real>)
    requires NuProblem(d)
  {
    d.InBox(b) && d.LabelSum(b, 1, |d.y|) == d.LabelSum(b, -1, |d.y|) == share
  }

  /** Every such point has an objective above the share times eps: the classes do not come too close to each other. */
  ghost predicate KeepsApart(d: Dual, share: real, eps: real)
    requires NuProblem(d)
  {
    forall b :: Feasible(d, share, b) ==> d.Objective(b) > share * eps
  }

  /** No such point has a positive objective: whatever the weights, the two classes meet. */
  ghost predicate Coincides(d: Dual, share: real)
    requires NuProblem(d)
  {
    forall b :: Feasible(d, share, b) ==> d.Objective(b) <= 0.0
  }

  lemma MovableShare(d: Dual, a: seq<real>, share: real, m: nat, n: nat)
    requires NuProblem(d) && |a| == |d.p| && m == CountSign(d.y, 1, |d.y|) && n == CountSign(d.y, -1, |d.y|)
    requires d.LabelSum(a, 1, |d.y|) == d.LabelSum(a, -1, |d.y|) == share
    ensures Movable(d, a, true) <==> 0.0 < share < m as real && share < n as real
  {
  }

  // ----- The margin and the scaled solution -----

  /** alpha times the gradient, bounded variable by variable. */
  lemma {:induction false} GradientSum(d: Dual, a: seq<real>, g: seq<real>, cP: real, cN: real, n: nat)
    requires |a| == |g| == |d.y| && n <= |d.y|
    requires forall t :: 0 <= t < n ==> 0.0 <= a[t] && (d.y[t] == 1 || d.y[t] == -1)
    requires forall t :: 0 <= t < n && a[t] > 0.0 ==> g[t] <= if d.y[t] == 1 then cP else cN
    ensures Dot(a, g, n) <= Cap(d.LabelSum(a, 1, n), d.LabelSum(a, -1, n), cP, cN)
  {
    if n == 0 {
      NoCap(cP, cN);
    } else {
      hide Cap, Dual.LabelSum;
      GradientSum(d, a, g, cP, cN, n - 1);
      var x, positive, sP, sN := a[n - 1], d.y[n - 1] == 1, d.LabelSum(a, 1, n - 1), d.LabelSum(a, -1, n - 1);
      BoundStep(Dot(a, g, n - 1), Dot(a, g, n), sP, sN, x, g[n - 1], cP, cN, positive);
      LabelStep(d, a, n - 1);
    }
  }

  lemma LabelStep(d: Dual, a: seq<real>, n: nat)
    requires n < |a| == |d.y| && (d.y[n] == 1 || d.y[n] == -1)
    ensures d.LabelSum(a, 1, n + 1) == if d.y[n] == 1 then d.LabelSum(a, 1, n) + a[n] else d.LabelSum(a, 1, n)
    ensures d.LabelSum(a, -1, n + 1) == if d.y[n] == 1 then d.LabelSum(a, -1, n) else d.LabelSum(a, -1, n) + a[n]
  {
  }

  ghost function Cap(sP: real, sN: real, cP: real, cN: real): real {
    sP * cP + sN * cN
  }

  lemma NoCap(cP: real, cN: real)
    ensures Cap(0.0, 0.0, cP, cN) == 0.0
  {
  }

  lemma BoundStep(dot: real, more: real, sP: real, sN: real, x: real, g: real, cP: real, cN: real, positive: bool)
    requires dot <= Cap(sP, sN, cP, cN) && more == dot + x * g && x >= 0.0
    requires x > 0.0 ==> g <= if positive then cP else cN
    ensures more <= Cap(if positive then sP + x else sP, if positive then sN else sN + x, cP, cN)
  {
    ScaledAtMost(x, g, if positive then cP else cN);
    AddShare(sP, x, cP);
    AddShare(sN, x, cN);
  }

  lemma AddShare(s: real, x: real, c: real)
    ensures (s + x) * c == s * c + x * c
  {
  }

  lemma ScaledAtMost(x: real, g: real, b: real)
    requires x >= 0.0 && (x > 0.0 ==> g <= b)
    ensures x * g <= x * b
  {
  }

  /** Half the share times the margin is at least the objective, but for eps: unless the weights all but vanish, the
      division is by a positive number. */
  lemma MarginBound(d: Dual, a: seq<real>, share: real, rho: real, r: real, eps: real)
    requires NuProblem(d) && d.InBox(a) && d.Certified(a, rho + r, rho - r, 2.0 * eps)
    requires d.LabelSum(a, 1, |d.y|) == d.LabelSum(a, -1, |d.y|) == share
    ensures d.Objective(a) <= share * (r + eps)
  {
    hide Dot, Dual.LabelSum;
    var l, lamP, lamN, wide := |d.p|, rho + r, rho - r, 2.0 * eps;
    var g := d.QTimes(a);
    forall t | 0 <= t < l && a[t] > 0.0
      ensures g[t] <= if d.y[t] == 1 then lamP + eps else eps - lamN
    {
      assert d.CertifiedAt(a, t, lamP, lamN, wide);
      assert d.Gradient(a, t) == g[t];
    }
    GradientSum(d, a, g, lamP + eps, eps - lamN, l);
    NoLinearTerm(d.p, a, l);
    assert share * (lamP + eps) + share * (eps - lamN) == 2.0 * (share * (r + eps));
  }

  lemma {:induction false} NoLinearTerm(p: seq<real>, a: seq<real>, n: nat)
    requires n <= |p| && n <= |a| && forall t :: 0 <= t < n ==> p[t] == 0.0
    ensures Dot(p, a, n) == 0.0
  {
    if n > 0 {
      NoLinearTerm(p, a, n - 1);
    }
  }

  // ----- When the margin is positive and when it is zero -----

  /** Classes that keep apart have a positive margin. */
  lemma MarginPositive(d: Dual, a: seq<real>, share: real, rho: real, r: real, eps: real)
    requires NuProblem(d) && Feasible(d, share, a) && share > 0.0 && KeepsApart(d, share, eps)
    requires d.Certified(a, rho + r, rho - r, 2.0 * eps)
    ensures r > 0.0
  {
    hide Dual.Objective, Dual.Certified, Dual.LabelSum, Dual.InBox;
    MarginBound(d, a, share, rho, r, eps);
    PositiveFactor(share, r, eps);
  }

  lemma PositiveFactor(share: real, r: real, eps: real)
    requires share > 0.0 && share * eps < share * (r + eps)
    ensures r > 0.0
  {
    assert share * (r + eps) == share * r + share * eps;
  }

  lemma ObjectiveNotNegative(d: Dual, v: seq<real>)
    requires NuProblem(d) && d.PositiveSemidefinite() && |v| == |d.p|
    ensures d.Objective(v) >= 0.0
  {
    hide Dot;
    NoLinearTerm(d.p, v, |d.p|);
    assert Dot(v, d.QTimes(v), |d.p|) >= 0.0;
  }

  /** A parabola through zero that is nowhere negative has no slope there. */
  lemma NoSlope(g: real, q: real, s: real)
    requires s == -g / (1.0 + if q < 0.0 then -q else q) && s * g + s * s * q / 2.0 >= 0.0
    ensures g == 0.0
  {
    var c := 1.0 + if q < 0.0 then -q else q;
    assert s * c == -g;
    assert c * (s * g + s * s * q / 2.0) == -(g * g) + s * (s * c) * q / 2.0;
    assert c * (s * g + s * s * q / 2.0) == -(g * g) - s * g * q / 2.0;
    assert c * c * (s * g + s * s * q / 2.0) == -(g * g * c) + g * g * q / 2.0 == -(g * g) * (c - q / 2.0);
  }

  /** With a semidefinite matrix, a zero objective means a zero gradient. */
  lemma ZeroObjective(d: Dual, a: seq<real>, t: nat)
    requires NuProblem(d) && d.PositiveSemidefinite() && |a| == |d.p| && d.Objective(a) <= 0.0 && t < |d.p|
    ensures d.Gradient(a, t) == 0.0
  {
    hide Dual.Objective, Dual.Gradient, Dual.PositiveSemidefinite;
    ObjectiveNotNegative(d, a);
    var g, q := d.Gradient(a, t), d.Q[t][t];
    var s := -g / (1.0 + if q < 0.0 then -q else q);
    var v := a[t] + s;
    ObjectiveUpdate(d, a, t, v);
    ObjectiveNotNegative(d, a[t := v]);
    assert v - a[t] == s;
    NoSlope(g, q, s);
  }

  /** Classes that meet have no margin. */
  lemma MarginZero(d: Dual, a: seq<real>)
    requires NuProblem(d) && d.PositiveSemidefinite() && |a| == |d.p| && d.Objective(a) <= 0.0
    ensures BiasOf(d, a, true).0.At? ==> BiasOf(d, a, true) == (At(0.0), 0.0)
  {
    hide Threshold, Dual.Objective, Dual.Gradient, Dual.PositiveSemidefinite;
    forall t | 0 <= t < |d.p|
      ensures d.Gradient(a, t) == 0.0
    {
      ZeroObjective(d, a, t);
    }
    ZeroThreshold(d, a, true, 1);
    ZeroThreshold(d, a, true, -1);
  }

  /** At an exact solution the margin is positive exactly if no point of the same share has a zero objective, that is,
      if the classes' reduced hulls do not meet. */
  lemma ExactMargin(d: Dual, a: seq<real>, share: real, rho: real, r: real)
    requires NuProblem(d) && d.PositiveSemidefinite() && Feasible(d, share, a) && share > 0.0
    requires BiasOf(d, a, true) == (At(rho), r) && d.Certified(a, rho + r, rho - r, 0.0)
    ensures r > 0.0 <==> KeepsApart(d, share, 0.0)
    ensures r >= 0.0
  {
    hide Dual.Objective, Dual.Certified, Dual.LabelSum, Dual.PositiveSemidefinite, BiasOf;
    ObjectiveNotNegative(d, a);
    if d.Objective(a) <= 0.0 {
      MarginZero(d, a);
    } else {
      MarginBound(d, a, share, rho, r, 0.0);
      PositiveFactor(share, r, 0.0);
      forall b | Feasible(d, share, b)
        ensures d.Objective(b) > 0.0
      {
        NearOptimal(d, a, b, rho + r, rho - r, 0.0);
      }
    }
  }

  /** The solution of the scaled problem, or nothing if the margin is zero. */
  datatype Scaled = Undefined | Scaled(coef: seq<real>, rho: real, obj: real, bound: real)

  /** Everything is divided by the margin of the point. */
  ghost predicate Divided(d: Dual, alpha: seq<real>, scaled: Scaled)
    requires NuProblem(d) && |alpha| == |d.p|
  {
    scaled.Scaled? ==>
      var (rho, r) := BiasOf(d, alpha, true);
      && rho.At? && r != 0.0 && scaled.bound * r == 1.0
      && scaled.rho * r == rho.v && scaled.obj * (r * r) == d.Objective(alpha) && |scaled.coef| == |d.p|
      && forall t :: 0 <= t < |d.p| ==> CoefOk(scaled.coef[t], d.y[t], alpha[t], r)
  }

  /** Two classes with one and the same point: whatever the share, they meet. */
  function OnePointTwice(): Dual {
    Dual([[1.0, -1.0], [-1.0, 1.0]], [0.0, 0.0], [1, -1], 1.0, 1.0)
  }

  lemma OnePointShape()
    ensures NuProblem(OnePointTwice()) && |OnePointTwice().p| == |OnePointTwice().y| == 2
    ensures CountSign(OnePointTwice().y, 1, 2) == CountSign(OnePointTwice().y, -1, 2) == 1
  {
    var y := OnePointTwice().y;
    assert CountSign(y, 1, 1) == 1 && CountSign(y, -1, 1) == 0;
  }

  lemma Products(x: real, y: real, g: real, h: real)
    requires g == x - y && h == y - x
    ensures x * g + y * h >= 0.0 && (x == y ==> x * g + y * h == 0.0)
  {
    assert h == -g;
    assert x * g + y * -g == (x - y) * g;
    Square(g);
  }

  lemma Square(z: real)
    ensures z * z >= 0.0
  {
  }

  lemma OnePointGradient(v: seq<real>)
    requires |v| == 2
    ensures NuProblem(OnePointTwice()) && |OnePointTwice().p| == 2
    ensures OnePointTwice().QTimes(v) == [v[0] - v[1], v[1] - v[0]]
  {
    OnePointShape();
    var d := OnePointTwice();
    assert d.Q[0] == [1.0, -1.0] && d.Q[1] == [-1.0, 1.0];
    hide OnePointTwice, Dot, NuProblem, Dual.WellFormed;
    DotOnes(d.Q[0], v, 1.0, -1.0);
    DotOnes(d.Q[1], v, -1.0, 1.0);
    var g := d.QTimes(v);
    assert g[0] == Dot(d.Q[0], v, 2) == v[0] - v[1];
    assert g[1] == Dot(d.Q[1], v, 2) == v[1] - v[0];
  }

  lemma DotOnes(a: seq<real>, v: seq<real>, x: real, y: real)
    requires |v| == 2 && a == [x, y] && ((x == 1.0 && y == -1.0) || (x == -1.0 && y == 1.0))
    ensures Dot(a, v, 2) == if x == 1.0 then v[0] - v[1] else v[1] - v[0]
  {
    hide Dot;
    DotTwo(a, v);
    if x == 1.0 {
      assert a[0] * v[0] == v[0] && a[1] * v[1] == -v[1];
    } else {
      assert a[0] * v[0] == -v[0] && a[1] * v[1] == v[1];
    }
  }

  lemma DotTwo(a: seq<real>, b: seq<real>)
    requires |a| == |b| == 2
    ensures Dot(a, b, 2) == a[0] * b[0] + a[1] * b[1]
  {
    assert Dot(a, b, 0) == 0.0;
    assert Dot(a, b, 1) == a[0] * b[0];
  }

  lemma OnePointObjective(v: seq<real>)
    requires |v| == 2
    ensures NuProblem(OnePointTwice()) && |OnePointTwice().p| == 2
    ensures Dot(v, OnePointTwice().QTimes(v), 2) >= 0.0
    ensures v[0] == v[1] ==> OnePointTwice().Objective(v) == 0.0
  {
    hide OnePointTwice, Dot;
    OnePointGradient(v);
    var g := OnePointTwice().QTimes(v);
    DotTwo(v, g);
    Products(v[0], v[1], g[0], g[1]);
    NoLinearTerm(OnePointTwice().p, v, 2);
  }

  lemma OnePointSums(b: seq<real>)
    requires |b| == 2
    ensures OnePointTwice().LabelSum(b, 1, 2) == b[0] && OnePointTwice().LabelSum(b, -1, 2) == b[1]
  {
    var d := OnePointTwice();
    assert d.y[0] == 1 && d.y[1] == -1 && d.LabelSum(b, 1, 0) == d.LabelSum(b, -1, 0) == 0.0;
    hide OnePointTwice;
    LabelStep(d, b, 0);
    LabelStep(d, b, 1);
  }

  lemma OnePointMeets(share: real)
    ensures NuProblem(OnePointTwice()) && OnePointTwice().PositiveSemidefinite() && Coincides(OnePointTwice(), share)
  {
    hide OnePointTwice, Dot, Dual.LabelSum, Dual.Objective;
    OnePointShape();
    var d := OnePointTwice();
    forall v: seq<real> | |v| == 2
      ensures Dot(v, d.QTimes(v), 2) >= 0.0
    {
      OnePointObjective(v);
    }
    forall b | Feasible(d, share, b)
      ensures d.Objective(b) <= 0.0
    {
      OnePointSums(b);
      OnePointObjective(b);
    }
  }

  ghost predicate CoefOk(c: real, y: int, a: real, r: real) {
    c * r == y as real * a && (r > 0.0 ==> 0.0 <= y as real * c && y as real * c * r <= 1.0)
  }

  /** The final division by the margin. */
  method DivideByMargin(d: Dual, alpha: array<real>, rho: real, r: real, obj: real) returns (scaled: Scaled)
    requires NuProblem(d) && alpha.Length == |d.p| && d.InBox(alpha[..])
    ensures scaled.Undefined? <==> r == 0.0
    ensures scaled.Scaled? ==> scaled.rho * r == rho && scaled.obj * (r * r) == obj && scaled.bound * r == 1.0
    ensures scaled.Scaled? ==>
              |scaled.coef| == |d.p| && forall t :: 0 <= t < |d.p| ==> CoefOk(scaled.coef[t], d.y[t], alpha[t], r)
  {
    if r == 0.0 {
      return Undefined;
    }
    var coef := Coefficients(d, alpha, r);
    NotZero(r);
    Divides(rho, r);
    Divides(obj, r * r);
    Divides(1.0, r);
    scaled := Scaled(coef, rho / r, obj / (r * r), 1.0 / r);
  }

  method Coefficients(d: Dual, alpha: array<real>, r: real) returns (coef: seq<real>)
    requires NuProblem(d) && alpha.Length == |d.p| && d.InBox(alpha[..]) && r != 0.0
    ensures |coef| == |d.p| && forall t :: 0 <= t < |d.p| ==> CoefOk(coef[t], d.y[t], alpha[t], r)
  {
    hide CoefOk;
    coef := [];
    for t := 0 to |d.p|
      invariant |coef| == t && forall k :: 0 <= k < t ==> CoefOk(coef[k], d.y[k], alpha[k], r)
    {
      var c := d.y[t] as real * alpha[t] / r;
      DivisionBounds(alpha[t], d.y[t], r, c);
      coef := coef + [c];
    }
  }

  lemma NotZero(r: real)
    requires r != 0.0
    ensures r * r != 0.0
  {
  }

  lemma Divides(x: real, z: real)
    requires z != 0.0
    ensures x / z * z == x
  {
  }

  lemma DivisionBounds(a: real, y: int, r: real, c: real)
    requires r != 0.0 && 0.0 <= a <= 1.0 && (y == 1 || y == -1) && c == y as real * a / r
    ensures CoefOk(c, y, a, r)
  {
    Divides(y as real * a, r);
    if r > 0.0 {
      var z := y as real * c;
      assert z * r == y as real * (c * r) == a;
      Bias.NotNegativeFactor(r, z);
    }
  }

}
