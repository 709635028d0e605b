/** Class probabilities of a test point: decision values through a sigmoid, clipped, and coupled. */
module ProbabilityPrediction {
  import opened ClassGroups
  import opened CompactModel
  import Coupling

  const MIN_PROB: real := 0.0000001

  /** The sigmoid's value kept away from 0 and 1. */
  function Clip(x: real): (r: real)
    ensures x < 0.0000001 ==> r == 0.0000001
    ensures x > 0.9999999 ==> r == 0.9999999
    ensures 0.0000001 <= x <= 0.9999999 ==> r == x
  {
    var low := if x > MIN_PROB then x else MIN_PROB;
    if low < 1.0 - MIN_PROB then low else 1.0 - MIN_PROB
  }

  /** The sigmoid as a function of a decision value and the pair whose parameters it uses. */
  type Sigmoid = (real, nat) -> real

  ghost predicate Square(r: seq<seq<real>>, k: nat) {
    |r| == k && forall i :: 0 <= i < k ==> |r[i]| == k
  }

  /** The pair's two entries: its clipped sigmoid and the rest to one. */
  ghost predicate PairSet(r: seq<seq<real>>, k: nat, dec: seq<real>, sigmoid: Sigmoid, i: nat, j: nat)
    requires Square(r, k) && i < j < k
  {
    var p := PairIndex(k, i, j);
    p < |dec| && r[i][j] == Clip(sigmoid(dec[p], p)) && r[j][i] == 1.0 - r[i][j]
  }

  ghost predicate PairsSet(r: seq<seq<real>>, k: nat, dec: seq<real>, sigmoid: Sigmoid, i: nat, j: nat)
    requires Square(r, k)
  {
    forall a: nat, b: nat :: a < b < k && Before(a, b, i, j) ==> PairSet(r, k, dec, sigmoid, a, b)
  }

  method PairwiseProbabilities(k: nat, dec: seq<real>, sigmoid: Sigmoid) returns (r: seq<seq<real>>)
    requires k > 0 && |dec| == PairsBefore(k, k)
    ensures Square(r, k) && Coupling.Pairwise(r)
    ensures forall i: nat, j: nat :: i < j < k ==> PairSet(r, k, dec, sigmoid, i, j)
  {
    hide PairsBefore, Clip;
    r := seq(k, _ => seq(k, _ => 0.0));
    var p := 0;
    NoPairs(k, 0);
    for i := 0 to k
      invariant Square(r, k) && p == PairsBefore(k, i) && PairsSet(r, k, dec, sigmoid, i, i + 1)
    {
      for j := i + 1 to k
        invariant Square(r, k) && p == PairsBefore(k, i) + (j - i - 1) && PairsSet(r, k, dec, sigmoid, i, j)
      {
        PairOrder(k, i, j, i, j);
        var x := Clip(sigmoid(dec[p], p));
        ghost var before := r;
        r := r[i := r[i][j := x]];
        r := r[j := r[j][i := 1.0 - r[i][j]]];
        SetMore(before, r, k, dec, sigmoid, i, j, x);
        p := p + 1;
      }
      NoPairs(k, i);
    }
    forall i: nat, j: nat | i < j < k
      ensures PairSet(r, k, dec, sigmoid, i, j)
    {
      assert Before(i, j, k, k + 1);
    }
    AllPairwise(r, k, dec, sigmoid);
  }

  lemma SetMore(before: seq<seq<real>>, after: seq<seq<real>>, k: nat, dec: seq<real>, sigmoid: Sigmoid, i: nat,
                j: nat, x: real)
    requires Square(before, k) && Square(after, k) && i < j < k && PairIndex(k, i, j) < |dec|
    requires x == Clip(sigmoid(dec[PairIndex(k, i, j)], PairIndex(k, i, j)))
    requires after == before[i := before[i][j := x]][j := before[j][i := 1.0 - x]]
    requires PairsSet(before, k, dec, sigmoid, i, j)
    ensures PairsSet(after, k, dec, sigmoid, i, j + 1)
  {
    hide PairIndex, Clip;
    forall a: nat, b: nat | a < b < k && Before(a, b, i, j + 1)
      ensures PairSet(after, k, dec, sigmoid, a, b)
    {
      if (a, b) != (i, j) {
        assert PairSet(before, k, dec, sigmoid, a, b);
        assert after[a][b] == before[a][b] && after[b][a] == before[b][a];
      }
    }
  }

  lemma AllPairwise(r: seq<seq<real>>, k: nat, dec: seq<real>, sigmoid: Sigmoid)
    requires Square(r, k) && k > 0 && forall i: nat, j: nat :: i < j < k ==> PairSet(r, k, dec, sigmoid, i, j)
    ensures Coupling.Pairwise(r)
  {
    hide PairIndex, Clip;
    forall i, j | 0 <= i < k && 0 <= j < k && i != j
      ensures 0.0 < r[i][j] < 1.0
    {
      if i < j {
        assert PairSet(r, k, dec, sigmoid, i, j);
      } else {
        assert PairSet(r, k, dec, sigmoid, j, i);
      }
    }
  }

  /** r holds the clipped sigmoids of the pairs' own decision values. */
  ghost predicate FromValues(r: seq<seq<real>>, count: seq<nat>, f: seq<Decision>, values: seq<real>,
                             sigmoid: Sigmoid) {
    && Square(r, |count|) && Fits(count, f) && |values| == Base(count, |count|)
    && forall i: nat, j: nat :: i < j < |count| ==> FromValue(r, count, f, values, sigmoid, i, j)
  }

  ghost predicate FromValue(r: seq<seq<real>>, count: seq<nat>, f: seq<Decision>, values: seq<real>, sigmoid: Sigmoid,
                            i: nat, j: nat)
    requires Square(r, |count|) && Fits(count, f) && |values| == Base(count, |count|) && i < j < |count|
  {
    && FitsAt(count, f, i, j)
    && r[i][j] == Clip(sigmoid(PlainValue(count, f, i, j, values), PairIndex(|count|, i, j)))
    && r[j][i] == 1.0 - r[i][j]
  }

  lemma ValuesSet(r: seq<seq<real>>, count: seq<nat>, f: seq<Decision>, values: seq<real>, sigmoid: Sigmoid,
                  dec: seq<real>)
    requires Square(r, |count|) && Fits(count, f) && |values| == Base(count, |count|)
    requires forall i: nat, j: nat :: i < j < |count| ==> ValueIs(count, f, values, dec, i, j)
    requires forall i: nat, j: nat :: i < j < |count| ==> PairSet(r, |count|, dec, sigmoid, i, j)
    ensures FromValues(r, count, f, values, sigmoid)
  {
    hide Clip, PlainValue, PairIndex, Base, Fits;
    forall i: nat, j: nat | i < j < |count|
      ensures FromValue(r, count, f, values, sigmoid, i, j)
    {
      assert ValueIs(count, f, values, dec, i, j) && PairSet(r, |count|, dec, sigmoid, i, j);
    }
  }

  /** p is a distribution that couples r: what so many rounds make of the uniform one, no worse than that and, if the
      iteration converged, within a hundredth of a class's share of the least value of the coupling objective over all
      distributions. */
  ghost predicate Couples(r: seq<seq<real>>, p: seq<real>, rounds: nat, converged: bool) {
    && |p| == |r| > 0 && Coupling.Positive(p) && Coupling.OnSimplex(p) && Coupling.Stopped(r, p, rounds, converged)
    && Coupling.Form(r, p) <= Coupling.Form(r, Coupling.Even(|r|))
    && (converged ==> forall q :: |q| == |r| && Coupling.OnSimplex(q) ==>
          Coupling.Form(r, p) <= Coupling.Form(r, q) + 0.01 / |r| as real)
  }

  /** best is the first of the largest entries. */
  ghost predicate FirstLargest(p: seq<real>, best: nat) {
    best < |p| && (forall c :: 0 <= c < |p| ==> p[c] <= p[best]) && forall c :: 0 <= c < best ==> p[c] < p[best]
  }

  method MostLikely(p: array<real>) returns (best: nat)
    requires p.Length > 0
    ensures FirstLargest(p[..], best)
  {
    best := 0;
    for i := 1 to p.Length
      invariant FirstLargest(p[..i], best)
    {
      if p[i] > p[best] {
        best := i;
      }
    }
    assert p[..p.Length] == p[..];
  }

  /** The probability estimates couple the sigmoids of the point's decision values, and the label is of the first most
      likely class. */
  method PredictProbability(m: Model, kernel: nat -> real, sigmoid: Sigmoid, ghost perm: seq<nat>,
                            ghost count: seq<nat>,
                            ghost nonzero: seq<bool>, ghost f: seq<Decision>)
    returns (estimates: array<real>, lab: int, best: nat, rounds: nat, converged: bool)
    requires Stores(m, perm, count, nonzero, f)
    ensures exists r ::
      FromValues(r, count, f, KernelOf(perm, kernel), sigmoid) && Couples(r, estimates[..], rounds, converged)
    ensures estimates.Length == |m.labels| && FirstLargest(estimates[..], best) && lab == m.labels[best]
  {
    hide Stores, PairsBefore, Votes, Coupling.Positive, Coupling.OnSimplex, Coupling.Pairwise, ValueIs, FirstLargest;
    hide Coupling.Form, Coupling.Even, Coupling.Stopped;
    StoresHas(m, perm, count, nonzero, f);
    var dec, _, _ := PredictValues(m, kernel, perm, count, nonzero, f);
    var k := |m.labels|;
    var r := PairwiseProbabilities(k, dec[..], sigmoid);
    ValuesSet(r, count, f, KernelOf(perm, kernel), sigmoid, dec[..]);
    estimates, rounds, converged := Coupling.MulticlassProbability(r);
    assert Couples(r, estimates[..], rounds, converged);
    best := MostLikely(estimates);
    BestInRange(estimates[..], best);
    lab := m.labels[best];
  }

  lemma BestInRange(p: seq<real>, best: nat)
    requires FirstLargest(p, best)
    ensures best < |p|
  {
  }

  /** r holds the clipped sigmoids of what each pair's two-class training makes of the test point. */
  ghost predicate FromPairs(r: seq<seq<real>>, y: seq<int>, solve: Solver, kernel: nat -> real, sigmoid: Sigmoid,
                            labels: seq<int>)
    requires OnePerPoint(solve)
  {
    Square(r, |labels|) && forall i: nat, j: nat :: i < j < |labels| ==>
      && r[i][j] == Clip(sigmoid(OwnValue(y, solve, kernel, labels[i], labels[j]), PairIndex(|labels|, i, j)))
      && r[j][i] == 1.0 - r[i][j]
  }

  /** From the training set to the probabilities of a test point. */
  method TrainAndEstimate(y: seq<int>, solve: Solver, kernel: nat -> real, sigmoid: Sigmoid)
    returns (m: Model, estimates: array<real>, lab: int, best: nat, rounds: nat, converged: bool)
    requires |y| > 0 && OnePerPoint(solve)
    ensures exists r ::
      FromPairs(r, y, solve, kernel, sigmoid, m.labels) && Couples(r, estimates[..], rounds, converged)
    ensures estimates.Length == |m.labels| && FirstLargest(estimates[..], best) && lab == m.labels[best]
  {
    hide Couples, FirstLargest, FromValues, FromPairs, TrainedFrom;
    m := Train(y, solve);
    ghost var perm, start, count, nonzero, f :| TrainedFrom(y, solve, m, perm, start, count, nonzero, f);
    TrainedStores(y, solve, m, perm, start, count, nonzero, f);
    estimates, lab, best, rounds, converged := PredictProbability(m, kernel, sigmoid, perm, count, nonzero, f);
    ghost var r :| FromValues(r, count, f, KernelOf(perm, kernel), sigmoid)
                   && Couples(r, estimates[..], rounds, converged);
    ValuesArePairs(r, y, solve, m, perm, start, count, nonzero, f, kernel, sigmoid);
  }

  lemma TrainedStores(y: seq<int>, solve: Solver, m: Model, perm: seq<nat>, start: seq<nat>, count: seq<nat>,
                      nonzero: seq<bool>, f: seq<Decision>)
    requires OnePerPoint(solve) && TrainedFrom(y, solve, m, perm, start, count, nonzero, f)
    ensures Stores(m, perm, count, nonzero, f)
  {
  }

  lemma ValuesArePairs(r: seq<seq<real>>, y: seq<int>, solve: Solver, m: Model, perm: seq<nat>, start: seq<nat>,
                       count: seq<nat>, nonzero: seq<bool>, f: seq<Decision>, kernel: nat -> real, sigmoid: Sigmoid)
    requires OnePerPoint(solve) && TrainedFrom(y, solve, m, perm, start, count, nonzero, f)
    requires FromValues(r, count, f, KernelOf(perm, kernel), sigmoid)
    ensures FromPairs(r, y, solve, kernel, sigmoid, m.labels)
  {
    hide Stores, Clip, PairIndex, OwnValue, Grouped, TrainedAt, Fits, PlainValue;
    StoresHas(m, perm, count, nonzero, f);
    forall i: nat, j: nat | i < j < |m.labels|
      ensures r[i][j] ==
              Clip(sigmoid(OwnValue(y, solve, kernel, m.labels[i], m.labels[j]), PairIndex(|m.labels|, i, j)))
      ensures r[j][i] == 1.0 - r[i][j]
    {
      assert FromValue(r, count, f, KernelOf(perm, kernel), sigmoid, i, j);
      PlainIsOwn(y, m.labels, start, count, perm, solve, f, kernel, i, j);
    }
  }
}
