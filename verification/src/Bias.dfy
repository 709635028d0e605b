/** The threshold of the decision function: how it is computed from the final gradient, exactly when it exists, and that
    it is the multiplier of a solution that passed the stopping test. */
module Bias {
  import opened DualProblem
  import opened SmoState
  import opened Sums
  import opened WorkingSet

  /** A running minimum or maximum; `None` is the infinite start value. */
  datatype Limit = None | At(v: real)

  function Lower(a: Limit, x: real): Limit {
    if a.None? || x < a.v then At(x) else a
  }

  function Raise(a: Limit, x: real): Limit {
    if a.None? || x > a.v then At(x) else a
  }

  /** Number and sum of the free variables' values, and the bounds from the others. */
  datatype Tally = Tally(free: nat, sum: real, ub: Limit, lb: Limit)

  const NOTHING := Tally(0, 0.0, None, None)

  function Count(t: Tally, free: bool, above: bool, x: real): Tally {
    if free then t.(free := t.free + 1, sum := t.sum + x)
    else if above then t.(ub := Lower(t.ub, x))
    else t.(lb := Raise(t.lb, x))
  }

  /** The mean of the free values, or the middle between the bounds. */
  function Middle(t: Tally): Limit {
    if t.free > 0 then At(t.sum / t.free as real)
    else if t.ub.At? && t.lb.At? then At((t.ub.v + t.lb.v) / 2.0)
    else None
  }

  // ----- The middle of two sides -----

  /** The tally of the first n values that may go up, down, or both. */
  ghost function TallyOf(up: seq<bool>, low: seq<bool>, x: seq<real>, n: nat): Tally
    requires n <= |up| == |low| == |x|
  {
    if n == 0 then NOTHING
    else
      var t := TallyOf(up, low, x, n - 1);
      if up[n - 1] || low[n - 1] then Count(t, up[n - 1] && low[n - 1], up[n - 1], x[n - 1]) else t
  }

  lemma {:induction false} FreeSums(up: seq<bool>, low: seq<bool>, x: seq<real>, n: nat, c: real)
    requires n <= |up| == |low| == |x|
    ensures var t := TallyOf(up, low, x, n);
      && (t.free > 0 <==> exists k :: 0 <= k < n && up[k] && low[k])
      && ((forall k :: 0 <= k < n && up[k] && low[k] ==> x[k] <= c) ==> t.sum <= t.free as real * c)
      && ((forall k :: 0 <= k < n && up[k] && low[k] ==> x[k] >= c) ==> t.sum >= t.free as real * c)
      && (t.free == 0 ==> t.sum == 0.0)
  {
    if n > 0 {
      FreeSums(up, low, x, n - 1, c);
      var t := TallyOf(up, low, x, n - 1);
      assert (t.free + 1) as real * c == t.free as real * c + c;
    }
  }

  lemma {:induction false} SideBounds(up: seq<bool>, low: seq<bool>, x: seq<real>, n: nat)
    requires n <= |up| == |low| == |x|
    ensures var t := TallyOf(up, low, x, n);
      && (forall k :: 0 <= k < n && up[k] && !low[k] ==> t.ub.At? && t.ub.v <= x[k])
      && (t.ub.At? ==> exists k :: 0 <= k < n && up[k] && !low[k] && x[k] == t.ub.v)
      && (forall k :: 0 <= k < n && low[k] && !up[k] ==> t.lb.At? && t.lb.v >= x[k])
      && (t.lb.At? ==> exists k :: 0 <= k < n && low[k] && !up[k] && x[k] == t.lb.v)
  {
    if n > 0 {
      SideBounds(up, low, x, n - 1);
      var t, t' := TallyOf(up, low, x, n - 1), TallyOf(up, low, x, n);
      assert t'.ub.At? && t'.ub != t.ub ==> up[n - 1] && !low[n - 1] && x[n - 1] == t'.ub.v;
      assert t'.lb.At? && t'.lb != t.lb ==> low[n - 1] && !up[n - 1] && x[n - 1] == t'.lb.v;
    }
  }

  lemma NotNegativeFactor(n: real, z: real)
    requires n > 0.0 && n * z >= 0.0
    ensures z >= 0.0
  {
  }

  lemma MeanAtMost(sum: real, n: real, c: real)
    requires n > 0.0
    ensures sum <= n * c ==> sum / n <= c
    ensures sum >= n * c ==> sum / n >= c
  {
    var m := sum / n;
    assert n * m == sum;
    assert n * (c - m) == n * c - sum && n * (m - c) == sum - n * c;
    if sum <= n * c {
      NotNegativeFactor(n, c - m);
    }
    if sum >= n * c {
      NotNegativeFactor(n, m - c);
    }
  }

  /** The middle exists exactly if something may go up and something may go down. */
  lemma MiddleExists(up: seq<bool>, low: seq<bool>, x: seq<real>, n: nat)
    requires n == |up| == |low| == |x|
    ensures Middle(TallyOf(up, low, x, n)).At? <==>
          (exists k :: 0 <= k < n && up[k]) && exists k :: 0 <= k < n && low[k]
  {
    FreeSums(up, low, x, n, 0.0);
    SideBounds(up, low, x, n);
    var t := TallyOf(up, low, x, n);
    if t.free > 0 {
      var k :| 0 <= k < n && up[k] && low[k];
    }
  }

  ghost predicate Apart(up: seq<bool>, low: seq<bool>, x: seq<real>, n: nat, eps: real)
    requires n <= |up| == |low| == |x|
  {
    forall i, j :: 0 <= i < n && 0 <= j < n && up[i] && low[j] ==> x[j] - x[i] < eps
  }

  /** If no value that may go up is eps below one that may go down, the middle separates them within eps. */
  lemma MiddleSeparates(up: seq<bool>, low: seq<bool>, x: seq<real>, n: nat, eps: real, k: nat)
    requires k < n == |up| == |low| == |x| && eps > 0.0 && Apart(up, low, x, n, eps)
    requires Middle(TallyOf(up, low, x, n)).At?
    ensures up[k] ==> x[k] >= Middle(TallyOf(up, low, x, n)).v - eps
    ensures low[k] ==> x[k] <= Middle(TallyOf(up, low, x, n)).v + eps
  {
    if TallyOf(up, low, x, n).free > 0 {
      FreeSeparates(up, low, x, n, eps, k);
    } else {
      BoundSeparates(up, low, x, n, eps, k);
    }
  }

  lemma FreeSeparates(up: seq<bool>, low: seq<bool>, x: seq<real>, n: nat, eps: real, k: nat)
    requires k < n == |up| == |low| == |x| && Apart(up, low, x, n, eps) && TallyOf(up, low, x, n).free > 0
    ensures up[k] ==> x[k] >= Middle(TallyOf(up, low, x, n)).v - eps
    ensures low[k] ==> x[k] <= Middle(TallyOf(up, low, x, n)).v + eps
  {
    var t := TallyOf(up, low, x, n);
    if up[k] {
      FreeSums(up, low, x, n, x[k] + eps);
      MeanAtMost(t.sum, t.free as real, x[k] + eps);
    }
    if low[k] {
      FreeSums(up, low, x, n, x[k] - eps);
      MeanAtMost(t.sum, t.free as real, x[k] - eps);
    }
  }

  lemma BoundSeparates(up: seq<bool>, low: seq<bool>, x: seq<real>, n: nat, eps: real, k: nat)
    requires k < n == |up| == |low| == |x| && eps > 0.0 && Apart(up, low, x, n, eps)
    requires TallyOf(up, low, x, n).free == 0 && Middle(TallyOf(up, low, x, n)).At?
    ensures up[k] ==> x[k] >= Middle(TallyOf(up, low, x, n)).v - eps
    ensures low[k] ==> x[k] <= Middle(TallyOf(up, low, x, n)).v + eps
  {
    hide TallyOf;
    FreeSums(up, low, x, n, 0.0);
    SideBounds(up, low, x, n);
    var t := TallyOf(up, low, x, n);
    var i :| 0 <= i < n && up[i] && x[i] == t.ub.v;
    var j :| 0 <= j < n && low[j] && x[j] == t.lb.v;
    assert t.lb.v - t.ub.v < eps;
  }

  // ----- The order of the values does not matter -----

  ghost function FreeValue(up: seq<bool>, low: seq<bool>, x: seq<real>, k: int): real {
    if 0 <= k < |up| && k < |low| && k < |x| && up[k] && low[k] then x[k] else 0.0
  }

  ghost function FreeOne(up: seq<bool>, low: seq<bool>, k: int): real {
    if 0 <= k < |up| && k < |low| && up[k] && low[k] then 1.0 else 0.0
  }

  lemma {:induction false} TallyTotals(up: seq<bool>, low: seq<bool>, x: seq<real>, n: nat)
    requires n <= |up| == |low| == |x|
    ensures TallyOf(up, low, x, n).sum == Total(n, k => FreeValue(up, low, x, k))
    ensures TallyOf(up, low, x, n).free as real == Total(n, k => FreeOne(up, low, k))
  {
    if n > 0 {
      TallyTotals(up, low, x, n - 1);
    }
  }

  ghost predicate LeastUp(up: seq<bool>, x: seq<real>, n: nat, i: nat)
    requires n <= |up| == |x|
  {
    i < n && up[i] && forall k :: 0 <= k < n && up[k] ==> x[i] <= x[k]
  }

  ghost predicate GreatestLow(low: seq<bool>, x: seq<real>, n: nat, j: nat)
    requires n <= |low| == |x|
  {
    j < n && low[j] && forall k :: 0 <= k < n && low[k] ==> x[k] <= x[j]
  }

  /** m is the mean of the values that may go both ways; if there are none, it lies half-way between the least value
      that may go up and the greatest that may go down. */
  ghost predicate IsMiddle(up: seq<bool>, low: seq<bool>, x: seq<real>, n: nat, m: real)
    requires n <= |up| == |low| == |x|
  {
    if exists k :: 0 <= k < n && up[k] && low[k] then
      m * Total(n, k => FreeOne(up, low, k)) == Total(n, k => FreeValue(up, low, x, k))
    else
      exists i: nat, j: nat :: LeastUp(up, x, n, i) && GreatestLow(low, x, n, j) && 2.0 * m == x[i] + x[j]
  }

  /** The middle of a tally is that middle. */
  lemma MiddleIs(up: seq<bool>, low: seq<bool>, x: seq<real>, n: nat)
    requires n <= |up| == |low| == |x| && Middle(TallyOf(up, low, x, n)).At?
    ensures IsMiddle(up, low, x, n, Middle(TallyOf(up, low, x, n)).v)
  {
    hide TallyOf, Total;
    FreeSums(up, low, x, n, 0.0);
    var t := TallyOf(up, low, x, n);
    if t.free > 0 {
      TallyTotals(up, low, x, n);
      assert t.sum / t.free as real * t.free as real == t.sum;
    } else {
      SideBounds(up, low, x, n);
      var i: nat :| i < n && up[i] && x[i] == t.ub.v;
      var j: nat :| j < n && low[j] && x[j] == t.lb.v;
      assert LeastUp(up, x, n, i) && GreatestLow(low, x, n, j);
    }
  }

  /** Position k of the one list is position order[k] of the other. */
  ghost predicate Reordered<T>(a: seq<T>, b: seq<T>, order: seq<nat>) {
    |a| == |b| == |order| && forall k :: 0 <= k < |a| ==> order[k] < |b| && a[k] == b[order[k]]
  }

  /** What the first n positions contribute, by the index in the other list. */
  ghost function InFirst(pos: seq<nat>, n: nat, f: int -> real, t: int): real {
    if 0 <= t < |pos| && pos[t] < n then f(t) else 0.0
  }

  lemma {:induction false} TotalPlaced(order: seq<nat>, pos: seq<nat>, f: int -> real, g: int -> real, n: nat)
    requires Permutation(order, pos, |pos|) && n <= |pos| && forall k :: 0 <= k < n ==> g(k) == f(order[k])
    ensures Total(n, g) == Total(|pos|, t => InFirst(pos, n, f, t))
  {
    if n == 0 {
      TotalZero(|pos|, t => InFirst(pos, 0, f, t));
    } else {
      TotalPlaced(order, pos, f, g, n - 1);
      TotalBump(|pos|, order[n - 1], t => InFirst(pos, n - 1, f, t), t => InFirst(pos, n, f, t));
    }
  }

  lemma TotalReordered(order: seq<nat>, pos: seq<nat>, f: int -> real, g: int -> real)
    requires Permutation(order, pos, |pos|) && forall k :: 0 <= k < |pos| ==> g(k) == f(order[k])
    ensures Total(|pos|, g) == Total(|pos|, f)
  {
    TotalPlaced(order, pos, f, g, |pos|);
    TotalEqual(|pos|, t => InFirst(pos, |pos|, f, t), f);
  }

  lemma FreeReordered(up: seq<bool>, low: seq<bool>, x: seq<real>, up': seq<bool>, low': seq<bool>, x': seq<real>,
                      order: seq<nat>, pos: seq<nat>, n: nat)
    requires n == |up| == |low| == |x| == |pos| && Permutation(order, pos, n)
    requires Reordered(up, up', order) && Reordered(low, low', order) && Reordered(x, x', order)
    ensures TallyOf(up, low, x, n).sum == TallyOf(up', low', x', n).sum
    ensures TallyOf(up, low, x, n).free == TallyOf(up', low', x', n).free
  {
    hide TallyOf, Total;
    TallyTotals(up, low, x, n);
    TallyTotals(up', low', x', n);
    TotalReordered(order, pos, t => FreeValue(up', low', x', t), k => FreeValue(up, low, x, k));
    TotalReordered(order, pos, t => FreeOne(up', low', t), k => FreeOne(up, low, k));
  }

  lemma BoundsReordered(up: seq<bool>, low: seq<bool>, x: seq<real>, up': seq<bool>, low': seq<bool>, x': seq<real>,
                        order: seq<nat>, pos: seq<nat>, n: nat)
    requires n == |up| == |low| == |x| == |pos| && Permutation(order, pos, n)
    requires Reordered(up, up', order) && Reordered(low, low', order) && Reordered(x, x', order)
    ensures TallyOf(up, low, x, n).ub == TallyOf(up', low', x', n).ub
    ensures TallyOf(up, low, x, n).lb == TallyOf(up', low', x', n).lb
  {
    hide TallyOf;
    SideBounds(up, low, x, n);
    SideBounds(up', low', x', n);
    var t, t' := TallyOf(up, low, x, n), TallyOf(up', low', x', n);
    if k :| t.ub.At? && 0 <= k < n && up[k] && !low[k] && x[k] == t.ub.v {
      assert up'[order[k]] && !low'[order[k]] && x'[order[k]] == t.ub.v;
    }
    if k :| t'.ub.At? && 0 <= k < n && up'[k] && !low'[k] && x'[k] == t'.ub.v {
      assert order[pos[k]] == k && up[pos[k]] && !low[pos[k]] && x[pos[k]] == t'.ub.v;
    }
    if k :| t.lb.At? && 0 <= k < n && low[k] && !up[k] && x[k] == t.lb.v {
      assert low'[order[k]] && !up'[order[k]] && x'[order[k]] == t.lb.v;
    }
    if k :| t'.lb.At? && 0 <= k < n && low'[k] && !up'[k] && x'[k] == t'.lb.v {
      assert order[pos[k]] == k && low[pos[k]] && !up[pos[k]] && x[pos[k]] == t'.lb.v;
    }
  }

  lemma TallyReordered(up: seq<bool>, low: seq<bool>, x: seq<real>, up': seq<bool>, low': seq<bool>, x': seq<real>,
                       order: seq<nat>, pos: seq<nat>, n: nat)
    requires n == |up| == |low| == |x| == |pos| && Permutation(order, pos, n)
    requires Reordered(up, up', order) && Reordered(low, low', order) && Reordered(x, x', order)
    ensures TallyOf(up, low, x, n) == TallyOf(up', low', x', n)
  {
    hide TallyOf, Reordered, Permutation;
    FreeReordered(up, low, x, up', low', x', order, pos, n);
    BoundsReordered(up, low, x, up', low', x', order, pos, n);
  }

  function Negated(a: Limit): Limit {
    if a.At? then At(-a.v) else None
  }

  /** With the two sides turned round and the values negated, so is the middle. */
  lemma {:induction false} TallyTurned(up: seq<bool>, low: seq<bool>, x: seq<real>, neg: seq<real>, n: nat)
    requires n <= |up| == |low| == |x| == |neg| && forall k :: 0 <= k < |x| ==> neg[k] == -x[k]
    ensures var t, t' := TallyOf(up, low, x, n), TallyOf(low, up, neg, n);
      t'.free == t.free && t'.sum == -t.sum && t'.ub == Negated(t.lb) && t'.lb == Negated(t.ub)
  {
    if n > 0 {
      TallyTurned(up, low, x, neg, n - 1);
    }
  }

  lemma QuotientTurned(x: real, n: real)
    requires n > 0.0
    ensures (-x) / n == -(x / n)
  {
    var m := x / n;
    assert n * m == x;
    assert n * -m == -x;
    MeanAtMost(-x, n, -m);
  }

  lemma MiddleTurned(up: seq<bool>, low: seq<bool>, x: seq<real>, neg: seq<real>, n: nat)
    requires n <= |up| == |low| == |x| == |neg| && forall k :: 0 <= k < |x| ==> neg[k] == -x[k]
    ensures Middle(TallyOf(low, up, neg, n)) == Negated(Middle(TallyOf(up, low, x, n)))
  {
    hide TallyOf;
    TallyTurned(up, low, x, neg, n);
    var t := TallyOf(up, low, x, n);
    if t.free > 0 {
      QuotientTurned(t.sum, t.free as real);
    }
  }

  // ----- When the threshold exists -----

  ghost function CountSign(y: seq<int>, sgn: int, n: nat): nat
    requires n <= |y|
  {
    if n == 0 then 0 else CountSign(y, sgn, n - 1) + (if y[n - 1] == sgn then 1 else 0)
  }

  /** What the first n variables of a label can hold if each is bounded by c. */
  ghost function Most(y: seq<int>, sgn: int, c: real, n: nat): real
    requires n <= |y|
  {
    CountSign(y, sgn, n) as real * c
  }

  lemma MostStep(y: seq<int>, sgn: int, c: real, n: nat)
    requires n < |y|
    ensures Most(y, sgn, c, n + 1) == Most(y, sgn, c, n) + if y[n] == sgn then c else 0.0
  {
    var count := CountSign(y, sgn, n);
    assert (count + 1) as real * c == count as real * c + c;
  }

  ghost predicate Holds(d: Dual, a: seq<real>, sgn: int, n: nat)
    requires n <= |d.y| && n <= |a|
  {
    exists t :: 0 <= t < n && d.y[t] == sgn && a[t] > 0.0
  }

  ghost predicate HasRoom(d: Dual, a: seq<real>, sgn: int, c: real, n: nat)
    requires n <= |d.y| && n <= |a|
  {
    exists t :: 0 <= t < n && d.y[t] == sgn && a[t] < c
  }

  /** The variables of a label sum up to nothing exactly if all are at zero. */
  lemma {:induction false} LabelLeast(d: Dual, a: seq<real>, sgn: int, n: nat)
    requires d.WellFormed() && d.InBox(a) && n <= |d.p|
    ensures 0.0 <= d.LabelSum(a, sgn, n) && (d.LabelSum(a, sgn, n) > 0.0 <==> Holds(d, a, sgn, n))
  {
    if n > 0 {
      LabelLeast(d, a, sgn, n - 1);
      assert Holds(d, a, sgn, n) <==> Holds(d, a, sgn, n - 1) || (d.y[n - 1] == sgn && a[n - 1] > 0.0);
    }
  }

  /** They sum up to the most exactly if all are full. */
  lemma {:induction false} LabelMost(d: Dual, a: seq<real>, sgn: int, c: real, n: nat)
    requires n <= |d.y| && n <= |a| && forall t :: 0 <= t < n && d.y[t] == sgn ==> a[t] <= c
    ensures d.LabelSum(a, sgn, n) <= Most(d.y, sgn, c, n) &&
            (d.LabelSum(a, sgn, n) < Most(d.y, sgn, c, n) <==> HasRoom(d, a, sgn, c, n))
  {
    hide Most;
    if n == 0 {
      NoMost(d.y, sgn, c);
    } else {
      LabelMost(d, a, sgn, c, n - 1);
      MostStep(d.y, sgn, c, n - 1);
      assert HasRoom(d, a, sgn, c, n) <==> HasRoom(d, a, sgn, c, n - 1) || (d.y[n - 1] == sgn && a[n - 1] < c);
    }
  }

  lemma NoMost(y: seq<int>, sgn: int, c: real)
    ensures Most(y, sgn, c, 0) == 0.0
  {
  }

  /** The point leaves something to move up and something to move down: in the plain problem all labels together, in the
      nu problem among the variables of each label. */
  ghost predicate Movable(d: Dual, a: seq<real>, nu: bool)
    requires d.WellFormed() && |a| == |d.p|
  {
    var l := |d.y|;
    var mostP, mostN := Most(d.y, 1, d.Cp, l), Most(d.y, -1, d.Cn, l);
    if nu then 0.0 < d.LabelSum(a, 1, l) < mostP && 0.0 < d.LabelSum(a, -1, l) < mostN
    else -mostN < d.Balance(a) < mostP
  }

  ghost predicate CanGoUp(d: Dual, a: seq<real>, nu: bool, group: int)
    requires d.WellFormed() && |a| == |d.p|
  {
    exists t :: 0 <= t < |d.p| && InGroup(nu, d.y[t], group) && d.InUp(a[t], t)
  }

  ghost predicate CanGoDown(d: Dual, a: seq<real>, nu: bool, group: int)
    requires d.WellFormed() && |a| == |d.p|
  {
    exists t :: 0 <= t < |d.p| && InGroup(nu, d.y[t], group) && d.InLow(a[t], t)
  }

  lemma MovableExactly(d: Dual, a: seq<real>, nu: bool)
    requires d.WellFormed() && d.InBox(a)
    ensures Movable(d, a, nu) <==>
      CanGoUp(d, a, nu, 1) && CanGoDown(d, a, nu, 1) && (nu ==> CanGoUp(d, a, nu, -1) && CanGoDown(d, a, nu, -1))
  {
    hide Dual.LabelSum, Most;
    var l := |d.y|;
    LabelLeast(d, a, 1, l);
    LabelLeast(d, a, -1, l);
    LabelMost(d, a, 1, d.Cp, l);
    LabelMost(d, a, -1, d.Cn, l);
    SidesOfLabels(d, a, nu);
  }

  lemma SidesOfLabels(d: Dual, a: seq<real>, nu: bool)
    requires d.WellFormed() && |a| == |d.p|
    ensures CanGoUp(d, a, nu, 1) <==> HasRoom(d, a, 1, d.Cp, |d.y|) || (!nu && Holds(d, a, -1, |d.y|))
    ensures CanGoDown(d, a, nu, 1) <==> Holds(d, a, 1, |d.y|) || (!nu && HasRoom(d, a, -1, d.Cn, |d.y|))
    ensures nu ==> (CanGoUp(d, a, nu, -1) <==> Holds(d, a, -1, |d.y|))
    ensures nu ==> (CanGoDown(d, a, nu, -1) <==> HasRoom(d, a, -1, d.Cn, |d.y|))
  {
  }

  /** Two classes and a balanced start, as in classification, always have a threshold. */
  lemma BalancedIsMovable(d: Dual, a: seq<real>, s: nat, t: nat)
    requires d.WellFormed() && d.InBox(a) && d.Balance(a) == 0.0
    requires s < |d.y| && t < |d.y| && d.y[s] == 1 && d.y[t] == -1
    ensures Movable(d, a, false)
  {
    SomeOfLabel(d.y, 1, |d.y|, s);
    SomeOfLabel(d.y, -1, |d.y|, t);
    Positive(CountSign(d.y, 1, |d.y|), d.Cp);
    Positive(CountSign(d.y, -1, |d.y|), d.Cn);
  }

  lemma Positive(n: nat, c: real)
    requires n > 0 && c > 0.0
    ensures n as real * c > 0.0
  {
  }

  lemma {:induction false} SomeOfLabel(y: seq<int>, sgn: int, n: nat, t: nat)
    requires t < n <= |y| && y[t] == sgn
    ensures CountSign(y, sgn, n) > 0
  {
    if t < n - 1 {
      SomeOfLabel(y, sgn, n - 1, t);
    }
  }

  // ----- The threshold of a point -----

  ghost function PointUps(d: Dual, a: seq<real>, nu: bool, group: int): (r: seq<bool>)
    requires d.WellFormed() && |a| == |d.p|
    ensures |r| == |d.p| && forall t :: 0 <= t < |d.p| ==> r[t] == (InGroup(nu, d.y[t], group) && d.InUp(a[t], t))
  {
    seq(|d.p|, t requires 0 <= t < |d.p| => InGroup(nu, d.y[t], group) && d.InUp(a[t], t))
  }

  ghost function PointLows(d: Dual, a: seq<real>, nu: bool, group: int): (r: seq<bool>)
    requires d.WellFormed() && |a| == |d.p|
    ensures |r| == |d.p| && forall t :: 0 <= t < |d.p| ==> r[t] == (InGroup(nu, d.y[t], group) && d.InLow(a[t], t))
  {
    seq(|d.p|, t requires 0 <= t < |d.p| => InGroup(nu, d.y[t], group) && d.InLow(a[t], t))
  }

  ghost function PointValues(d: Dual, a: seq<real>): (r: seq<real>)
    requires d.WellFormed() && |a| == |d.p|
    ensures |r| == |d.p| && forall t :: 0 <= t < |d.p| ==> r[t] == Signed(d.y[t], d.Gradient(a, t))
    ensures forall t :: 0 <= t < |d.p| ==> r[t] == d.y[t] as real * d.Gradient(a, t)
  {
    seq(|d.p|, t requires 0 <= t < |d.p| => Signed(d.y[t], d.Gradient(a, t)))
  }

  /** The threshold that a group of variables has at a point: the mean of the signed gradient over those strictly inside
      their boxes, or else the middle between the least of those that may go up and the greatest of those that may go
      down. */
  ghost function Threshold(d: Dual, a: seq<real>, nu: bool, group: int): Limit
    requires d.WellFormed() && |a| == |d.p|
  {
    Middle(TallyOf(PointUps(d, a, nu, group), PointLows(d, a, nu, group), PointValues(d, a), |d.p|))
  }

  /** The threshold and the margin of a point: with nu the middle of the two groups' thresholds and half of their
      distance. */
  ghost function BiasOf(d: Dual, a: seq<real>, nu: bool): (Limit, real)
    requires d.WellFormed() && |a| == |d.p|
  {
    var tP, tN := Threshold(d, a, nu, 1), Threshold(d, a, nu, -1);
    if !nu then (tP, 0.0)
    else if tP.At? && tN.At? then (At((tP.v + tN.v) / 2.0), (tP.v - tN.v) / 2.0)
    else (None, 0.0)
  }

  /** m is the threshold that a group of variables has at a point. */
  ghost predicate IsThreshold(d: Dual, a: seq<real>, nu: bool, group: int, m: real)
    requires d.WellFormed() && |a| == |d.p|
  {
    IsMiddle(PointUps(d, a, nu, group), PointLows(d, a, nu, group), PointValues(d, a), |d.p|, m)
  }

  /** The threshold and the margin make up the thresholds of the two groups. */
  ghost predicate IsBias(d: Dual, a: seq<real>, nu: bool, rho: real, r: real)
    requires d.WellFormed() && |a| == |d.p|
  {
    if nu then IsThreshold(d, a, nu, 1, rho + r) && IsThreshold(d, a, nu, -1, rho - r)
    else IsThreshold(d, a, nu, 1, rho) && r == 0.0
  }

  lemma BiasSplits(d: Dual, a: seq<real>, nu: bool)
    requires d.WellFormed() && |a| == |d.p| && BiasOf(d, a, nu).0.At?
    ensures IsBias(d, a, nu, BiasOf(d, a, nu).0.v, BiasOf(d, a, nu).1)
  {
    hide TallyOf, Middle, IsMiddle;
    MiddleIs(PointUps(d, a, nu, 1), PointLows(d, a, nu, 1), PointValues(d, a), |d.p|);
    if nu {
      MiddleIs(PointUps(d, a, nu, -1), PointLows(d, a, nu, -1), PointValues(d, a), |d.p|);
    }
  }

  /** Where the gradient vanishes, so does the threshold. */
  lemma ZeroThreshold(d: Dual, a: seq<real>, nu: bool, group: int)
    requires d.WellFormed() && |a| == |d.p| && forall t :: 0 <= t < |d.p| ==> d.Gradient(a, t) == 0.0
    ensures Threshold(d, a, nu, group).At? ==> Threshold(d, a, nu, group).v == 0.0
  {
    hide TallyOf, Dual.Gradient;
    var up, low, x, n := PointUps(d, a, nu, group), PointLows(d, a, nu, group), PointValues(d, a), |d.p|;
    FreeSums(up, low, x, n, 0.0);
    SideBounds(up, low, x, n);
  }

  // ----- The solver's state -----

  /** For the negative label the nu solver takes the plain gradient, which turns the two sides round. */
  predicate Turned(nu: bool, group: int) {
    nu && group == -1
  }

  ghost function Ups(s: State, nu: bool, group: int): (r: seq<bool>)
    requires Sized(s, |s.y|)
    ensures |r| == |s.y|
    ensures forall k :: 0 <= k < |s.y| ==> r[k] == if Turned(nu, group) then LowAt(s, nu, group, k)
          else UpAt(s, nu, group, k)
  {
    seq(|s.y|, k requires 0 <= k < |s.y| => if Turned(nu, group) then LowAt(s, nu, group, k) else UpAt(s, nu, group, k))
  }

  ghost function Lows(s: State, nu: bool, group: int): (r: seq<bool>)
    requires Sized(s, |s.y|)
    ensures |r| == |s.y|
    ensures forall k :: 0 <= k < |s.y| ==> r[k] == if Turned(nu, group) then UpAt(s, nu, group, k)
          else LowAt(s, nu, group, k)
  {
    seq(|s.y|, k requires 0 <= k < |s.y| => if Turned(nu, group) then UpAt(s, nu, group, k) else LowAt(s, nu, group, k))
  }

  ghost function Values(s: State, nu: bool, group: int): (r: seq<real>)
    requires Sized(s, |s.y|)
    ensures |r| == |s.y|
    ensures forall k :: 0 <= k < |s.y| ==> r[k] == if Turned(nu, group) then -SignedAt(s, k) else SignedAt(s, k)
  {
    seq(|s.y|, k requires 0 <= k < |s.y| => if Turned(nu, group) then -SignedAt(s, k) else SignedAt(s, k))
  }

  ghost function GroupTally(s: State, nu: bool, group: int, n: nat): Tally
    requires Sized(s, |s.y|) && n <= |s.y|
  {
    TallyOf(Ups(s, nu, group), Lows(s, nu, group), Values(s, nu, group), n)
  }

  /** What the code does with one variable, if it belongs to the group. */
  function CountVariable(t: Tally, nu: bool, lab: int, st: Status, g: real): Tally {
    if nu && lab != 1 then Count(t, st == Free, st == LowerBound, g)
    else Count(t, st == Free, st == if lab == 1 then LowerBound else UpperBound, Signed(lab, g))
  }

  lemma TallyNext(s: State, nu: bool, group: int, n: nat)
    requires Sized(s, |s.y|) && n < |s.y| && (s.y[n] == 1 || s.y[n] == -1) && (group == 1 || group == -1)
    ensures GroupTally(s, nu, group, 0) == NOTHING
    ensures GroupTally(s, nu, group, n + 1) ==
      if InGroup(nu, s.y[n], group) then CountVariable(GroupTally(s, nu, group, n), nu, s.y[n], s.status[n], s.G[n])
      else GroupTally(s, nu, group, n)
  {
    assert UpAt(s, nu, group, n) && LowAt(s, nu, group, n) <==> InGroup(nu, s.y[n], group) && s.status[n] == Free;
  }

  lemma NoTally(s: State, nu: bool, group: int)
    requires Sized(s, |s.y|)
    ensures GroupTally(s, nu, group, 0) == NOTHING
  {
  }

  /** The group's threshold in terms of the signed gradient. */
  ghost function GroupMiddle(s: State, nu: bool, group: int): Limit
    requires Sized(s, |s.y|)
  {
    var m := Middle(GroupTally(s, nu, group, |s.y|));
    if m.At? && Turned(nu, group) then At(-m.v) else m
  }

  lemma GroupSeparates(s: State, nu: bool, group: int, eps: real)
    requires Sized(s, |s.y|) && eps > 0.0 && Optimal(s, nu, |s.y|, eps) && (group == 1 || group == -1)
    requires GroupMiddle(s, nu, group).At?
    ensures Separates(s, nu, group, |s.y|, GroupMiddle(s, nu, group).v, 2.0 * eps)
  {
    hide TallyOf, Middle;
    var up, low, x, n := Ups(s, nu, group), Lows(s, nu, group), Values(s, nu, group), |s.y|;
    forall i, j | 0 <= i < n && 0 <= j < n && up[i] && low[j]
      ensures x[j] - x[i] < eps
    {
      if Turned(nu, group) {
        assert UpAt(s, nu, s.y[i], j) && LowAt(s, nu, s.y[j], i);
      } else {
        assert UpAt(s, nu, s.y[j], i) && LowAt(s, nu, s.y[i], j);
      }
    }
    forall k | 0 <= k < n
      ensures UpAt(s, nu, group, k) ==> SignedAt(s, k) >= GroupMiddle(s, nu, group).v - eps
      ensures LowAt(s, nu, group, k) ==> SignedAt(s, k) <= GroupMiddle(s, nu, group).v + eps
    {
      MiddleSeparates(up, low, x, n, eps, k);
    }
  }

  /** The solver's order of the variables does not matter for the threshold. */
  lemma GroupIsThreshold(d: Dual, A: seq<real>, pos: seq<nat>, s: State, nu: bool, group: int)
    requires Core(d, A, pos, s, |d.p|) && (group == 1 || group == -1)
    ensures GroupMiddle(s, nu, group) == Threshold(d, A, nu, group)
  {
    hide TallyOf, Middle, BarEverywhere, Dual.Gradient, GradientUpTo;
    var n := |d.p|;
    var up, low, x := StateUps(s, nu, group), StateLows(s, nu, group), StateValues(s);
    StateReordered(d, A, pos, s, nu, group);
    var up', low', x' := PointUps(d, A, nu, group), PointLows(d, A, nu, group), PointValues(d, A);
    TallyReordered(up, low, x, up', low', x', s.activeSet, pos, n);
    if Turned(nu, group) {
      assert Ups(s, nu, group) == low && Lows(s, nu, group) == up;
      MiddleTurned(up, low, x, Values(s, nu, group), n);
    } else {
      assert Ups(s, nu, group) == up && Lows(s, nu, group) == low && Values(s, nu, group) == x;
    }
  }

  ghost function StateUps(s: State, nu: bool, group: int): (r: seq<bool>)
    requires Sized(s, |s.y|)
    ensures |r| == |s.y| && forall k :: 0 <= k < |s.y| ==> r[k] == UpAt(s, nu, group, k)
  {
    seq(|s.y|, k requires 0 <= k < |s.y| => UpAt(s, nu, group, k))
  }

  ghost function StateLows(s: State, nu: bool, group: int): (r: seq<bool>)
    requires Sized(s, |s.y|)
    ensures |r| == |s.y| && forall k :: 0 <= k < |s.y| ==> r[k] == LowAt(s, nu, group, k)
  {
    seq(|s.y|, k requires 0 <= k < |s.y| => LowAt(s, nu, group, k))
  }

  ghost function StateValues(s: State): (r: seq<real>)
    requires Sized(s, |s.y|)
    ensures |r| == |s.y| && forall k :: 0 <= k < |s.y| ==> r[k] == SignedAt(s, k)
  {
    seq(|s.y|, k requires 0 <= k < |s.y| => SignedAt(s, k))
  }

  lemma StateReordered(d: Dual, A: seq<real>, pos: seq<nat>, s: State, nu: bool, group: int)
    requires Core(d, A, pos, s, |d.p|)
    ensures Reordered(StateUps(s, nu, group), PointUps(d, A, nu, group), s.activeSet)
    ensures Reordered(StateLows(s, nu, group), PointLows(d, A, nu, group), s.activeSet)
    ensures Reordered(StateValues(s), PointValues(d, A), s.activeSet)
  {
    hide BarEverywhere, Dual.Gradient;
    forall k | 0 <= k < |d.p|
      ensures var t := s.activeSet[k];
        && t < |d.p| && StateUps(s, nu, group)[k] == PointUps(d, A, nu, group)[t]
        && StateLows(s, nu, group)[k] == PointLows(d, A, nu, group)[t] && StateValues(s)[k] == PointValues(d, A)[t]
    {
      assert AgreesAt(d, A, s, k);
      assert s.G[k] == d.Gradient(A, s.activeSet[k]);
    }
  }

  lemma ThresholdExists(d: Dual, a: seq<real>, nu: bool, group: int)
    requires d.WellFormed() && |a| == |d.p|
    ensures Threshold(d, a, nu, group).At? <==> CanGoUp(d, a, nu, group) && CanGoDown(d, a, nu, group)
  {
    hide TallyOf, Middle;
    MiddleExists(PointUps(d, a, nu, group), PointLows(d, a, nu, group), PointValues(d, a), |d.p|);
    var up, low, n := PointUps(d, a, nu, group), PointLows(d, a, nu, group), |d.p|;
    assert (exists t :: 0 <= t < n && up[t]) <==> CanGoUp(d, a, nu, group);
    assert (exists t :: 0 <= t < n && low[t]) <==> CanGoDown(d, a, nu, group);
  }

  /** The computed thresholds are multipliers of the solution in the original order. */
  lemma BiasCertifies(d: Dual, A: seq<real>, pos: seq<nat>, s: State, nu: bool, eps: real, lamP: real, lamN: real,
                      wide: real)
    requires Core(d, A, pos, s, |d.p|) && eps > 0.0 && wide == 2.0 * eps && Optimal(s, nu, |d.p|, eps)
    requires GroupMiddle(s, nu, 1) == At(lamP) && (if nu then GroupMiddle(s, nu, -1) == At(lamN) else lamN == lamP)
    ensures d.Certified(A, lamP, lamN, wide)
  {
    hide GroupMiddle, BarEverywhere, GradientUpTo, Optimal, Separates;
    GroupSeparates(s, nu, 1, eps);
    if nu {
      GroupSeparates(s, nu, -1, eps);
    }
    forall t | 0 <= t < |d.p|
      ensures d.CertifiedAt(A, t, lamP, lamN, wide)
    {
      CertifiedHere(d, A, pos, s, nu, wide, lamP, lamN, pos[t]);
    }
  }

  /** The threshold and, in the nu problem, the margin. */
  function Combine(plus: Tally, minus: Tally, nu: bool): (Limit, real) {
    var r1, r2 := Middle(plus), Middle(minus);
    if !nu then (r1, 0.0)
    else if r1.At? && r2.At? then (At((r1.v - r2.v) / 2.0), (r1.v + r2.v) / 2.0)
    else (None, 0.0)
  }

  /** What the code combines from its two tallies is the threshold and the margin of the point. */
  lemma CombineIsBias(d: Dual, A: seq<real>, pos: seq<nat>, s: State, nu: bool, plus: Tally, minus: Tally)
    requires Core(d, A, pos, s, |d.p|) && plus == GroupTally(s, nu, 1, |d.p|)
    requires nu ==> minus == GroupTally(s, nu, -1, |d.p|)
    ensures Combine(plus, minus, nu) == BiasOf(d, A, nu)
    ensures var (rho, r) := BiasOf(d, A, nu);
      && (rho.At? ==> GroupMiddle(s, nu, 1) == At(rho.v + r))
      && (rho.At? ==> (if nu then GroupMiddle(s, nu, -1) == At(rho.v - r) else r == 0.0))
  {
    hide GroupTally, Middle, Threshold, Core;
    CoreSize(d, A, pos, s);
    GroupIsThreshold(d, A, pos, s, nu, 1);
    GroupIsThreshold(d, A, pos, s, nu, -1);
  }

  lemma CoreSize(d: Dual, A: seq<real>, pos: seq<nat>, s: State)
    requires Core(d, A, pos, s, |d.p|)
    ensures d.WellFormed() && |A| == |d.p| && Sized(s, |s.y|) && |s.y| == |d.p|
  {
  }

  lemma BiasExists(d: Dual, a: seq<real>, nu: bool)
    requires d.WellFormed() && d.InBox(a)
    ensures BiasOf(d, a, nu).0.At? <==> Movable(d, a, nu)
  {
    hide Threshold, Movable, CanGoUp, CanGoDown;
    ThresholdExists(d, a, nu, 1);
    ThresholdExists(d, a, nu, -1);
    MovableExactly(d, a, nu);
  }

  /** A run keeps the sums on which the existence of the threshold depends. */
  lemma SameMovable(d: Dual, a: seq<real>, b: seq<real>, nu: bool)
    requires d.WellFormed() && |a| == |b| == |d.p| && d.Balance(a) == d.Balance(b)
    requires nu ==> d.LabelSum(a, 1, |d.y|) == d.LabelSum(b, 1, |d.y|)
    ensures Movable(d, a, nu) <==> Movable(d, b, nu)
  {
  }
}
