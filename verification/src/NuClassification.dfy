/** Training with the nu parameter: the feasibility check on the class sizes, the greedy starting point, and the solver
    run that keeps the sums over the two classes apart. */
module NuClassification {
  import opened Bias
  import opened NuMargin
  import opened ClassGroups
  import opened CompactModel
  import opened DualProblem
  import opened SmoSolver
  import W = WorkingSet

  function Min(x: real, y: real): real {
    if x < y then x else y
  }

  /** Half of the share of l points. */
  function Half(nu: real, l: nat): real {
    nu * l as real / 2.0
  }

  lemma HalfNotNegative(nu: real, l: nat)
    requires nu >= 0.0
    ensures Half(nu, l) >= 0.0
  {
  }

  // ----- The check -----

  /** The pair's share is at most twice as large as either of the two classes. */
  ghost predicate PairFits(nu: real, m: nat, n: nat) {
    nu * (m + n) as real <= 2.0 * m as real && nu * (m + n) as real <= 2.0 * n as real
  }

  /** The test on one pair: half of the share against the smaller class. */
  method CheckPair(nu: real, m: nat, n: nat) returns (fits: bool)
    ensures fits <==> PairFits(nu, m, n)
  {
    fits := Half(nu, m + n) <= (if m < n then m else n) as real;
  }

  /** A positive share that fills neither class. */
  ghost predicate Inside(share: real, m: nat, n: nat) {
    0.0 < share < m as real && share < n as real
  }

  /** Whether every pair of classes has room. */
  method CheckNu(y: seq<int>, nu: real) returns (ok: bool, labels: seq<int>, count: seq<nat>)
    ensures Labels(y, |y|, labels, count)
    ensures ok <==> forall i: nat, j: nat :: i < j < |count| ==> PairFits(nu, count[i], count[j])
  {
    hide Labels, FirstOccurrences, PairFits;
    var dataLabel;
    ghost var first;
    labels, count, dataLabel, first := FindLabels(y);
    for i := 0 to |count|
      invariant forall a: nat, b: nat :: a < i && a < b < |count| ==> PairFits(nu, count[a], count[b])
    {
      for j := i + 1 to |count|
        invariant forall b: nat :: i < b < j ==> PairFits(nu, count[i], count[b])
      {
        var fits := CheckPair(nu, count[i], count[j]);
        if !fits {
          return false, labels, count;
        }
      }
    }
    ok := true;
  }

  // ----- The starting point -----

  /** What is left of `share` for a class of which n points have been served. */
  ghost function Left(share: real, n: nat): real {
    if share > n as real then share - n as real else 0.0
  }

  lemma LeftStep(share: real, n: nat)
    requires share >= 0.0
    ensures 0.0 <= Left(share, n) <= share
    ensures Left(share, n + 1) == Left(share, n) - Min(1.0, Left(share, n))
  {
  }

  /** What one point is given. */
  ghost predicate Serves(d: Dual, share: real, before: seq<real>, after: seq<real>, i: nat) {
    && i < |d.y| == |before| && after == before[i := Min(1.0, Left(share, CountSign(d.y, d.y[i], i)))]
  }

  lemma ServeOne(d: Dual, share: real, before: seq<real>, after: seq<real>, i: nat, sgn: int)
    requires d.WellFormed() && share >= 0.0 && Serves(d, share, before, after, i)
    requires d.LabelSum(before, sgn, i) == share - Left(share, CountSign(d.y, sgn, i))
    ensures 0.0 <= after[i] <= 1.0
    ensures d.LabelSum(after, sgn, i + 1) == share - Left(share, CountSign(d.y, sgn, i + 1))
    ensures Left(share, CountSign(d.y, sgn, i + 1)) ==
            Left(share, CountSign(d.y, sgn, i)) - if d.y[i] == sgn then after[i] else 0.0
  {
    LeftStep(share, CountSign(d.y, d.y[i], i));
    hide Left, Min;
    LabelSumAgree(d, before, after, sgn, i);
  }

  /** Serves the points in order, one each, until their class's half of the share is used up. */
  method GreedyStart(d: Dual, nu: real) returns (alpha: array<real>)
    requires NuProblem(d) && nu >= 0.0
    ensures alpha.Length == |d.p| && d.InBox(alpha[..])
    ensures forall sgn :: sgn == 1 || sgn == -1 ==> TakesShare(d, alpha[..], nu, sgn, CountSign(d.y, sgn, |d.y|))
  {
    hide CountSign, Dual.LabelSum;
    var l := |d.y|;
    var share := Half(nu, l);
    HalfNotNegative(nu, l);
    alpha := new real[l];
    NothingServed(d, alpha[..], share);
    Serve(d, share, alpha);
  }

  /** Twice the sum over a class of m points is the share of all points, or the class is full. */
  ghost predicate TakesShare(d: Dual, a: seq<real>, nu: real, sgn: int, m: nat)
    requires |a| == |d.y|
  {
    var sum := d.LabelSum(a, sgn, |d.y|);
    if nu * |d.y| as real <= 2.0 * m as real then 2.0 * sum == nu * |d.y| as real else sum == m as real
  }

  lemma NothingServed(d: Dual, alpha: seq<real>, share: real)
    requires d.WellFormed() && |alpha| == |d.y| && share >= 0.0
    ensures forall sgn :: CountSign(d.y, sgn, 0) == 0 && d.LabelSum(alpha, sgn, 0) == 0.0 && Left(share, 0) == share
  {
  }

  method Serve(d: Dual, share: real, alpha: array<real>)
    requires NuProblem(d) && share >= 0.0 && alpha.Length == |d.y|
    modifies alpha
    ensures d.InBox(alpha[..])
    ensures forall sgn :: sgn == 1 || sgn == -1 ==>
              d.LabelSum(alpha[..], sgn, |d.y|) == share - Left(share, CountSign(d.y, sgn, |d.y|))
  {
    hide Left, CountSign, Dual.LabelSum;
    NothingServed(d, alpha[..], share);
    var sumPos, sumNeg := share, share;
    for i := 0 to |d.y|
      invariant sumPos == Left(share, CountSign(d.y, 1, i)) && sumNeg == Left(share, CountSign(d.y, -1, i))
      invariant forall t :: 0 <= t < i ==> 0.0 <= alpha[t] <= 1.0
      invariant d.LabelSum(alpha[..], 1, i) == share - sumPos && d.LabelSum(alpha[..], -1, i) == share - sumNeg
    {
      ghost var before := alpha[..];
      if d.y[i] == 1 {
        alpha[i] := Min(1.0, sumPos);
        sumPos := sumPos - alpha[i];
      } else {
        alpha[i] := Min(1.0, sumNeg);
        sumNeg := sumNeg - alpha[i];
      }
      ServeOne(d, share, before, alpha[..], i, 1);
      ServeOne(d, share, before, alpha[..], i, -1);
    }
  }

  /** The check accepts a pair exactly if the start reaches half of its share in both classes. */
  lemma AcceptedPairFits(d: Dual, a: seq<real>, nu: real, m: nat, n: nat)
    requires |a| == |d.y| == m + n && TakesShare(d, a, nu, 1, m) && TakesShare(d, a, nu, -1, n)
    ensures PairFits(nu, m, n) <==>
      2.0 * d.LabelSum(a, 1, |d.y|) == nu * |d.y| as real && 2.0 * d.LabelSum(a, -1, |d.y|) == nu * |d.y| as real
  {
  }

  // ----- The solver keeps both sums -----

  /** Solves the problem of a pair of classes with m and n points.  If the check accepts the pair, the result's sums
      over either class are exactly half the share, like the start's, through the whole run. The margin is positive if
      the classes keep apart, and zero if they meet. */
  method SolveNu(d: Dual, nu: real, m: nat, n: nat, budget: int, eps: real, shrinking: bool)
    returns (result: array<real>, obj: real, rho: Limit, r: real, converged: bool, steps: nat)
    requires NuProblem(d) && nu >= 0.0 && eps > 0.0
    requires m == CountSign(d.y, 1, |d.y|) && n == CountSign(d.y, -1, |d.y|)
    ensures result.Length == |d.p| && d.InBox(result[..]) && obj == d.Objective(result[..])
    ensures (rho, r) == BiasOf(d, result[..], true)
    ensures TakesShare(d, result[..], nu, 1, m) && TakesShare(d, result[..], nu, -1, n)
    ensures !converged ==>
      steps == if |d.p| > 21474836 then 2147483647 else if |d.p| > 100000 then 100 * |d.p| else 10000000
    ensures converged && rho.At? ==> d.Certified(result[..], rho.v + r, rho.v - r, 2.0 * eps)
    ensures PairFits(nu, m, n) ==> Feasible(d, Half(nu, |d.y|), result[..])
    ensures PairFits(nu, m, n) ==> (rho.At? <==> Inside(Half(nu, |d.y|), m, n))
    ensures PairFits(nu, m, n) && converged && rho.At? && KeepsApart(d, Half(nu, |d.y|), eps) ==> r > 0.0
    ensures rho.At? && d.PositiveSemidefinite() && obj == 0.0 ==> r == 0.0
    ensures PairFits(nu, m, n) && rho.At? && d.PositiveSemidefinite() && Coincides(d, Half(nu, |d.y|)) ==> r == 0.0
  {
    hide PairFits, CountSign, Half, Dual.Objective, Dual.Certified, Dual.LabelSum, Movable, BiasOf, KeepsApart, IsBias;
    hide Dual.PositiveSemidefinite, TakesShare, W.WithinTolerance, Feasible, Coincides;
    var start := GreedyStart(d, nu);
    result, obj, rho, r, converged, steps := Solve(d, budget, start[..], eps, true, shrinking);
    SignsCount(d.y, |d.y|);
    SameShare(d, start[..], result[..], nu, m, n);
    if PairFits(nu, m, n) {
      MovableShare(d, start[..], Half(nu, |d.y|), m, n);
      if converged && rho.At? && KeepsApart(d, Half(nu, |d.y|), eps) {
        MarginPositive(d, result[..], Half(nu, |d.y|), rho.v, r, eps);
      }
      if Coincides(d, Half(nu, |d.y|)) {
        MeetingObjective(d, result[..], Half(nu, |d.y|));
      }
    }
    if rho.At? && d.PositiveSemidefinite() && obj <= 0.0 {
      MarginZero(d, result[..]);
    }
  }

  lemma HalfTheShare(d: Dual, a: seq<real>, nu: real)
    requires NuProblem(d) && Feasible(d, Half(nu, |d.y|), a)
    ensures 2.0 * d.LabelSum(a, 1, |d.y|) == nu * |d.y| as real == 2.0 * d.LabelSum(a, -1, |d.y|)
  {
    hide Dual.LabelSum;
  }

  lemma MeetingObjective(d: Dual, a: seq<real>, share: real)
    requires NuProblem(d) && Feasible(d, share, a) && Coincides(d, share)
    ensures d.Objective(a) <= 0.0
  {
    hide Dual.Objective;
  }

  /** The sums that a run keeps are those of the start. */
  lemma SameShare(d: Dual, a: seq<real>, b: seq<real>, nu: real, m: nat, n: nat)
    requires NuProblem(d) && |a| == |d.y| == m + n && Rival(d, a, true, b)
    requires TakesShare(d, a, nu, 1, m) && TakesShare(d, a, nu, -1, n)
    ensures TakesShare(d, b, nu, 1, m) && TakesShare(d, b, nu, -1, n)
    ensures PairFits(nu, m, n) ==>
      && d.LabelSum(a, 1, |d.y|) == d.LabelSum(a, -1, |d.y|) == Half(nu, |d.y|) && Feasible(d, Half(nu, |d.y|), b)
      && 2.0 * Half(nu, |d.y|) == nu * |d.y| as real
  {
    hide Dual.LabelSum;
    AcceptedPairFits(d, a, nu, m, n);
  }

  /** Two classes of equal size and nu = 1: the check accepts them, every variable is at its upper bound, and there is
      no threshold. */
  lemma FullShare(d: Dual, m: nat)
    requires NuProblem(d) && m == CountSign(d.y, 1, |d.y|) == CountSign(d.y, -1, |d.y|)
    ensures PairFits(1.0, m, m) && Half(1.0, |d.y|) == m as real && !Inside(Half(1.0, |d.y|), m, m)
    ensures forall a :: Feasible(d, Half(1.0, |d.y|), a) ==> BiasOf(d, a, true).0 == None
  {
    hide CountSign, BiasOf, Movable, Dual.LabelSum;
    SignsCount(d.y, |d.y|);
    forall a | Feasible(d, Half(1.0, |d.y|), a)
      ensures BiasOf(d, a, true).0 == None
    {
      MovableShare(d, a, Half(1.0, |d.y|), m, m);
      BiasExists(d, a, true);
    }
  }

  /** What is reported of one pair. */
  datatype Solved = Solved(alpha: seq<real>, scaled: Scaled, converged: bool, steps: nat)

  /** Either class holds half of the share, and everything is divided by the margin. There is a result if the run
      converged and the classes keep apart; there is none if half the share fills a class or the classes meet. */
  ghost predicate IsSolution(d: Dual, nu: real, m: nat, n: nat, eps: real, result: Solved)
    requires NuProblem(d) && |d.y| == m + n
  {
    var share := Half(nu, m + n);
    && Feasible(d, share, result.alpha) && Divided(d, result.alpha, result.scaled)
    && 2.0 * d.LabelSum(result.alpha, 1, m + n) == nu * (m + n) as real == 2.0 * d.LabelSum(result.alpha, -1, m + n)
    && (!result.converged ==>
          result.steps == if m + n > 21474836 then 2147483647 else if m + n > 100000 then 100 * (m + n) else 10000000)
    && (result.converged && Inside(share, m, n) && KeepsApart(d, share, eps) ==>
          result.scaled.Scaled? && result.scaled.bound > 0.0)
    && (!Inside(share, m, n) ==> result.scaled.Undefined?)
    && (d.PositiveSemidefinite() && Coincides(d, share) ==> result.scaled.Undefined?)
  }

  /** The whole of one pair's training: solve, then divide by the margin. */
  method SolveAndDivide(d: Dual, nu: real, m: nat, n: nat, budget: int, eps: real, shrinking: bool)
    returns (result: Solved)
    requires NuProblem(d) && nu >= 0.0 && eps > 0.0 && PairFits(nu, m, n) && |d.y| == m + n
    requires m == CountSign(d.y, 1, |d.y|) && n == CountSign(d.y, -1, |d.y|)
    ensures IsSolution(d, nu, m, n, eps, result)
  {
    hide Left, PairFits, CountSign, Half, Dual.Objective, Dual.Certified, Dual.LabelSum, BiasOf, KeepsApart, Coincides;
    hide Dual.PositiveSemidefinite, Inside, CoefOk, TakesShare;
    var alpha, obj, rho, r, converged, steps := SolveNu(d, nu, m, n, budget, eps, shrinking);
    var scaled := Undefined;
    if rho.At? {
      scaled := DivideByMargin(d, alpha, rho.v, r, obj);
      BoundSign(r, if scaled.Scaled? then scaled.bound else 1.0);
    }
    HalfTheShare(d, alpha[..], nu);
    result := Solved(alpha[..], scaled, converged, steps);
  }

  lemma BoundSign(r: real, bound: real)
    ensures r > 0.0 && bound * r == 1.0 ==> bound > 0.0
  {
  }

  /** One point in both classes: the check accepts every nu below one, and the result is divided by zero. */
  method SolveOnePointTwice(nu: real, budget: int, eps: real, shrinking: bool) returns (result: Solved)
    requires 0.0 < nu < 1.0 && eps > 0.0
    ensures PairFits(nu, 1, 1) && Inside(Half(nu, 2), 1, 1) && result.scaled.Undefined?
  {
    hide OnePointTwice, CountSign, Coincides, Dual.PositiveSemidefinite, NuProblem, Divided, KeepsApart, Feasible;
    OnePointShape();
    OnePointMeets(Half(nu, 2));
    var d := OnePointTwice();
    assert Half(nu, 2) == nu;
    result := SolveAndDivide(d, nu, 1, 1, budget, eps, shrinking);
  }

  lemma {:induction false} SignsCount(y: seq<int>, n: nat)
    requires n <= |y| && forall t :: 0 <= t < |y| ==> y[t] == 1 || y[t] == -1
    ensures CountSign(y, 1, n) + CountSign(y, -1, n) == n
  {
    if n > 0 {
      SignsCount(y, n - 1);
    }
  }

  // ----- The check and the training of every pair -----

  ghost predicate AllFit(nu: real, count: seq<nat>) {
    forall i: nat, j: nat :: i < j < |count| ==> PairFits(nu, count[i], count[j])
  }

  /** The check looks at the classes in another order than the training, but at the same pairs. */
  lemma SamePairs(y: seq<int>, nu: real, labels: seq<int>, count: seq<nat>, labels': seq<int>, count': seq<nat>)
    requires Labels(y, |y|, labels, count) && Labels(y, |y|, labels', count') && AllFit(nu, count)
    ensures AllFit(nu, count')
  {
    hide Base, Members, Half;
    forall i: nat, j: nat | i < j < |count'|
      ensures PairFits(nu, count'[i], count'[j])
    {
      var a := LabelPlace(y, labels, count, labels'[i]);
      var b := LabelPlace(y, labels, count, labels'[j]);
      if a < b {
        assert PairFits(nu, count[a], count[b]);
      } else {
        assert PairFits(nu, count[b], count[a]);
      }
    }
  }

  lemma LabelPlace(y: seq<int>, labels: seq<int>, count: seq<nat>, lab: int) returns (c: nat)
    requires Labels(y, |y|, labels, count) && |Members(y, lab, |y|)| > 0
    ensures c < |count| == |labels| && labels[c] == lab && count[c] == |Members(y, lab, |y|)|
  {
    MembersAre(y, lab, |y|);
    assert Members(y, lab, |y|)[0] in Members(y, lab, |y|);
    c :| 0 <= c < |labels| && labels[c] == lab;
  }

  /** How the caller's kernel and data make a dual problem of some points and their signs. */
  type Problem = (seq<nat>, seq<int>) -> Dual

  ghost predicate Signs(signs: seq<int>) {
    forall t :: 0 <= t < |signs| ==> signs[t] == 1 || signs[t] == -1
  }

  ghost predicate MakesProblems(problem: Problem) {
    forall points, signs :: |points| == |signs| && Signs(signs) ==>
      NuProblem(problem(points, signs)) && problem(points, signs).y == signs
  }

  lemma {:induction false} CountRun(signs: seq<int>, m: nat, n: nat, sgn: int, k: nat)
    requires signs == SubSigns(m, n) && k <= m + n
    ensures CountSign(signs, sgn, k) ==
            if sgn == 1 then if k < m then k else m else if sgn == -1 then if k < m then 0 else k - m else 0
  {
    if k > 0 {
      CountRun(signs, m, n, sgn, k - 1);
    }
  }

  /** The dual problem of the pair (i, j). */
  function PairProblem(perm: seq<nat>, start: seq<nat>, count: seq<nat>, problem: Problem, i: nat, j: nat): Dual
    requires i < j < |count| == |start| && start[i] + count[i] <= |perm| && start[j] + count[j] <= |perm|
  {
    problem(SubPoints(perm, start, count, i, j), SubSigns(count[i], count[j]))
  }

  /** The result of pair (i, j) solves its problem. */
  ghost predicate SolvedAt(perm: seq<nat>, start: seq<nat>, count: seq<nat>, problem: Problem, nu: real, eps: real,
                           results: seq<Solved>, i: nat, j: nat)
    requires i < j < |count| == |start| && start[i] + count[i] <= |perm| && start[j] + count[j] <= |perm|
  {
    PairIndex(|count|, i, j) < |results| &&
    PairSolved(PairProblem(perm, start, count, problem, i, j), nu, count[i], count[j], eps,
               results[PairIndex(|count|, i, j)])
  }

  ghost predicate PairSolved(d: Dual, nu: real, m: nat, n: nat, eps: real, result: Solved) {
    NuProblem(d) && |d.y| == m + n && IsSolution(d, nu, m, n, eps, result)
  }

  ghost predicate SolvedSoFar(perm: seq<nat>, start: seq<nat>, count: seq<nat>, problem: Problem, nu: real, eps: real,
                              results: seq<Solved>, i: nat, j: nat)
    requires Stretches(start, count, |perm|)
  {
    forall a: nat, b: nat :: a < b < |count| && Before(a, b, i, j) ==>
          SolvedAt(perm, start, count, problem, nu, eps, results, a, b)
  }

  lemma PairProblemOk(perm: seq<nat>, start: seq<nat>, count: seq<nat>, problem: Problem, i: nat, j: nat)
    requires MakesProblems(problem)
    requires i < j < |count| == |start| && start[i] + count[i] <= |perm| && start[j] + count[j] <= |perm|
    ensures var d := PairProblem(perm, start, count, problem, i, j);
      NuProblem(d) && |d.y| == count[i] + count[j] && CountSign(d.y, 1, |d.y|) == count[i]
            && CountSign(d.y, -1, |d.y|) == count[j]
  {
    hide CountSign, NuProblem;
    var m, n := count[i], count[j];
    var points, signs := SubPoints(perm, start, count, i, j), SubSigns(m, n);
    assert |points| == |signs| == m + n && Signs(signs);
    CountRun(signs, m, n, 1, m + n);
    CountRun(signs, m, n, -1, m + n);
  }

  method SolvePair(perm: seq<nat>, start: seq<nat>, count: seq<nat>, problem: Problem, nu: real, i: nat, j: nat,
                   budget: int, eps: real, shrinking: bool)
    returns (result: Solved)
    requires MakesProblems(problem) && nu >= 0.0 && eps > 0.0
    requires i < j < |count| == |start| && start[i] + count[i] <= |perm| && start[j] + count[j] <= |perm|
    requires PairFits(nu, count[i], count[j])
    ensures PairSolved(PairProblem(perm, start, count, problem, i, j), nu, count[i], count[j], eps, result)
  {
    hide CountSign, PairFits, MakesProblems, PairProblem, IsSolution;
    PairProblemOk(perm, start, count, problem, i, j);
    var d := PairProblem(perm, start, count, problem, i, j);
    result := SolveAndDivide(d, nu, count[i], count[j], budget, eps, shrinking);
  }

  lemma SolvedMore(perm: seq<nat>, start: seq<nat>, count: seq<nat>, problem: Problem, nu: real, eps: real,
                   results: seq<Solved>, result: Solved, i: nat, j: nat)
    requires Stretches(start, count, |perm|) && i < j < |count|
    requires SolvedSoFar(perm, start, count, problem, nu, eps, results, i, j) && |results| == PairIndex(|count|, i, j)
    requires PairSolved(PairProblem(perm, start, count, problem, i, j), nu, count[i], count[j], eps, result)
    ensures SolvedSoFar(perm, start, count, problem, nu, eps, results + [result], i, j + 1)
  {
    hide PairIndex, PairSolved, PairProblem, Base;
    forall a: nat, b: nat | a < b < |count| && Before(a, b, i, j + 1)
      ensures SolvedAt(perm, start, count, problem, nu, eps, results + [result], a, b)
    {
      if (a, b) != (i, j) {
        assert SolvedAt(perm, start, count, problem, nu, eps, results, a, b);
      }
    }
  }

  /** Checks the parameter and, if it is accepted, trains every pair of the grouped classes: in every result either
      class holds exactly half of its pair's share, and it is divided by its margin. */
  method TrainNu(y: seq<int>, nu: real, problem: Problem, budget: int, eps: real, shrinking: bool)
    returns (ok: bool, labels: seq<int>, start: seq<nat>, count: seq<nat>, perm: seq<nat>, results: seq<Solved>)
    requires MakesProblems(problem) && nu >= 0.0 && eps > 0.0
    ensures Grouped(y, labels, start, count, perm) && Stretches(start, count, |perm|)
    ensures ok <==> AllFit(nu, count)
    ensures ok ==>
              forall i: nat, j: nat :: i < j < |count| ==> SolvedAt(perm, start, count, problem, nu, eps, results, i, j)
  {
    hide Labels, PairFits, Base, FilledTo, FirstOccurrences, PairsBefore, SolvedAt, MakesProblems;
    var first, sizes;
    ok, first, sizes := CheckNu(y, nu);
    var order;
    ghost var at;
    labels, start, count, order, at := GroupClasses(y);
    perm, results := order[..], [];
    GroupsStretch(y, labels, start, count, perm);
    if !ok {
      if AllFit(nu, count) {
        SamePairs(y, nu, labels, count, first, sizes);
      }
      return;
    }
    SamePairs(y, nu, first, sizes, labels, count);
    var k := |count|;
    NoPairs(k, 0);
    for i := 0 to k
      invariant |results| == PairsBefore(k, i) && SolvedSoFar(perm, start, count, problem, nu, eps, results, i, i + 1)
    {
      for j := i + 1 to k
        invariant |results| == PairsBefore(k, i) + (j - i - 1)
        invariant SolvedSoFar(perm, start, count, problem, nu, eps, results, i, j)
      {
        var result := SolvePair(perm, start, count, problem, nu, i, j, budget, eps, shrinking);
        SolvedMore(perm, start, count, problem, nu, eps, results, result, i, j);
        results := results + [result];
      }
      NoPairs(k, i);
    }
    forall i: nat, j: nat | i < j < k
      ensures SolvedAt(perm, start, count, problem, nu, eps, results, i, j)
    {
      assert Before(i, j, k, k + 1);
    }
  }
}
