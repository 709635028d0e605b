/** The compact multi-class model: one classifier per pair of classes, stored as one list of support vectors and k - 1
    rows of coefficients, and the decision values computed from it. */
module CompactModel {
  import opened ClassGroups

  // ----- Pairs of classes in the order they are trained -----

  /** How many pairs have a first class below i, among k classes. */
  ghost function PairsBefore(k: nat, i: nat): nat
    requires i <= k
  {
    if i == 0 then 0 else PairsBefore(k, i - 1) + (k - i)
  }

  ghost function PairIndex(k: nat, i: nat, j: nat): nat
    requires i < j < k
  {
    PairsBefore(k, i) + (j - i - 1)
  }

  lemma {:induction false} PairsBeforeGrow(k: nat, i: nat, i': nat)
    requires i < i' <= k
    ensures PairsBefore(k, i) + (k - i - 1) <= PairsBefore(k, i')
  {
    if i < i' - 1 {
      PairsBeforeGrow(k, i, i' - 1);
    }
  }

  /** Pair (a, b) comes before pair (i, j). */
  predicate Before(a: nat, b: nat, i: nat, j: nat) {
    a < i || (a == i && b < j)
  }

  lemma PairOrder(k: nat, a: nat, b: nat, i: nat, j: nat)
    requires a < b < k && i < j < k
    ensures Before(a, b, i, j) <==> PairIndex(k, a, b) < PairIndex(k, i, j)
    ensures PairIndex(k, i, j) < PairsBefore(k, k)
  {
    PairsBeforeGrow(k, i, k);
    if a < i {
      PairsBeforeGrow(k, a, i);
    } else if i < a {
      PairsBeforeGrow(k, i, a);
    }
  }

  lemma {:induction false} PairTotal(k: nat, i: nat)
    requires i <= k
    ensures 2 * PairsBefore(k, i) == i * (2 * k - i - 1)
  {
    if i > 0 {
      PairTotal(k, i - 1);
      assert (i - 1) * (2 * k - i) + 2 * (k - i) == i * (2 * k - i - 1);
    }
  }

  // ----- Coefficients by position -----

  /** A trained two-class classifier: the signed coefficients of its points, first class first, and the bias. */
  datatype Decision = Decision(alpha: seq<real>, rho: real)

  ghost predicate Fits(count: seq<nat>, f: seq<Decision>) {
    && |f| == PairsBefore(|count|, |count|)
    && forall i: nat, j: nat :: i < j < |count| ==> FitsAt(count, f, i, j)
  }

  ghost predicate FitsAt(count: seq<nat>, f: seq<Decision>, i: nat, j: nat)
    requires i < j < |count|
  {
    PairIndex(|count|, i, j) < |f| && |f[PairIndex(|count|, i, j)].alpha| == count[i] + count[j]
  }

  /** Position q lies in the stretch of class c. */
  ghost predicate InClass(count: seq<nat>, c: nat, q: nat) {
    c < |count| && Base(count, c) <= q < Base(count, c) + count[c]
  }

  /** The coefficient of position q in the classifier for (i, j). */
  ghost function Coefficient(count: seq<nat>, f: seq<Decision>, i: nat, j: nat, q: nat): real
    requires i < j < |count| && FitsAt(count, f, i, j) && (InClass(count, i, q) || InClass(count, j, q))
  {
    var alpha := f[PairIndex(|count|, i, j)].alpha;
    if InClass(count, i, q) then alpha[q - Base(count, i)] else alpha[count[i] + q - Base(count, j)]
  }

  lemma ClassesApart(count: seq<nat>, b: nat, c: nat, q: nat)
    requires InClass(count, b, q) && InClass(count, c, q)
    ensures b == c
  {
    if b < c {
      BaseGrows(count, b, c);
    } else if c < b {
      BaseGrows(count, c, b);
    }
  }

  /** The classifier for (i, j) uses the point at position q. */
  ghost predicate UsedBy(count: seq<nat>, f: seq<Decision>, i: nat, j: nat, q: nat) {
    && i < j < |count| && FitsAt(count, f, i, j) && (InClass(count, i, q) || InClass(count, j, q))
    && Coefficient(count, f, i, j, q) != 0.0
  }

  ghost predicate Used(count: seq<nat>, f: seq<Decision>, q: nat) {
    exists i: nat, j: nat :: UsedBy(count, f, i, j, q)
  }

  ghost predicate UsedSoFar(count: seq<nat>, f: seq<Decision>, i: nat, j: nat, q: nat) {
    exists a: nat, b: nat :: Before(a, b, i, j) && UsedBy(count, f, a, b, q)
  }

  // ----- Training the pairs -----

  /** The training points of a pair's problem: the first class's stretch and then the second's. */
  function SubPoints(perm: seq<nat>, start: seq<nat>, count: seq<nat>, i: nat, j: nat): seq<nat>
    requires i < |start| == |count| && j < |start| && start[i] + count[i] <= |perm| && start[j] + count[j] <= |perm|
  {
    perm[start[i]..start[i] + count[i]] + perm[start[j]..start[j] + count[j]]
  }

  /** Their signs. */
  function SubSigns(m: nat, n: nat): (r: seq<int>)
    ensures |r| == m + n && forall k :: 0 <= k < m + n ==> r[k] == if k < m then 1 else -1
  {
    seq(m, _ => 1) + seq(n, _ => -1)
  }

  /** The two-class training as a function of the points and their signs, one coefficient for each. */
  type Solver = (seq<nat>, seq<int>) -> Decision

  ghost predicate OnePerPoint(solve: Solver) {
    forall points, signs :: |solve(points, signs).alpha| == |points|
  }

  ghost predicate Stretches(start: seq<nat>, count: seq<nat>, l: nat) {
    && |start| == |count| && Base(count, |count|) == l
    && forall c :: 0 <= c < |start| ==> start[c] == Base(count, c) && start[c] + count[c] <= l
  }

  ghost predicate TrainedAt(perm: seq<nat>, start: seq<nat>, count: seq<nat>, solve: Solver, f: seq<Decision>, i: nat,
                            j: nat)
    requires Stretches(start, count, |perm|) && i < j < |count|
  {
    && PairIndex(|count|, i, j) < |f|
    && f[PairIndex(|count|, i, j)] == solve(SubPoints(perm, start, count, i, j), SubSigns(count[i], count[j]))
  }

  ghost predicate TrainedSoFar(perm: seq<nat>, start: seq<nat>, count: seq<nat>, solve: Solver, f: seq<Decision>,
                               i: nat, j: nat)
    requires Stretches(start, count, |perm|)
  {
    forall a: nat, b: nat :: a < b < |count| && Before(a, b, i, j) ==> TrainedAt(perm, start, count, solve, f, a, b)
  }

  ghost predicate MarksSoFar(count: seq<nat>, f: seq<Decision>, i: nat, j: nat, nonzero: seq<bool>) {
    |nonzero| == Base(count, |count|) && forall q: nat :: q < |nonzero| ==>
          (nonzero[q] <==> UsedSoFar(count, f, i, j, q))
  }

  lemma TrainedMore(perm: seq<nat>, start: seq<nat>, count: seq<nat>, solve: Solver, f: seq<Decision>, i: nat, j: nat)
    requires Stretches(start, count, |perm|) && i < j < |count| && |f| == PairIndex(|count|, i, j)
    requires TrainedSoFar(perm, start, count, solve, f, i, j)
    ensures TrainedSoFar(perm, start, count, solve,
              f + [solve(SubPoints(perm, start, count, i, j), SubSigns(count[i], count[j]))], i, j + 1)
  {
    hide Base, PairIndex;
    var more := f + [solve(SubPoints(perm, start, count, i, j), SubSigns(count[i], count[j]))];
    forall a: nat, b: nat | a < b < |count| && Before(a, b, i, j + 1)
      ensures TrainedAt(perm, start, count, solve, more, a, b)
    {
      PairOrder(|count|, a, b, i, j);
      if Before(a, b, i, j) {
        assert TrainedAt(perm, start, count, solve, f, a, b);
      }
    }
  }

  lemma UsedOneMore(count: seq<nat>, f: seq<Decision>, d: Decision, i: nat, j: nat, q: nat)
    requires i < j < |count| && |f| == PairIndex(|count|, i, j)
    ensures UsedSoFar(count, f + [d], i, j + 1, q) <==> UsedSoFar(count, f, i, j, q) || UsedBy(count, f + [d], i, j, q)
  {
    hide Base, PairIndex, InClass;
    var more := f + [d];
    forall a: nat, b: nat | a < b < |count| && Before(a, b, i, j)
      ensures UsedBy(count, more, a, b, q) <==> UsedBy(count, f, a, b, q)
    {
      PairOrder(|count|, a, b, i, j);
    }
    if UsedSoFar(count, more, i, j + 1, q) {
      var a: nat, b: nat :| Before(a, b, i, j + 1) && UsedBy(count, more, a, b, q);
      assert Before(a, b, i, j) || (a, b) == (i, j);
    }
    if UsedSoFar(count, f, i, j, q) {
      var a: nat, b: nat :| Before(a, b, i, j) && UsedBy(count, f, a, b, q);
      assert Before(a, b, i, j + 1) && UsedBy(count, more, a, b, q);
    }
    assert Before(i, j, i, j + 1);
  }

  /** What marking both classes of the pair adds. */
  lemma MarksMore(count: seq<nat>, f: seq<Decision>, d: Decision, i: nat, j: nat, before: seq<bool>, mid: seq<bool>,
                  after: seq<bool>)
    requires i < j < |count| && |f| == PairIndex(|count|, i, j) && |d.alpha| == count[i] + count[j]
    requires MarksSoFar(count, f, i, j, before) && |mid| == |after| == |before|
    requires forall q :: 0 <= q < |before| ==>
               mid[q] == (before[q] || (InClass(count, i, q) && d.alpha[q - Base(count, i)] != 0.0))
    requires forall q :: 0 <= q < |before| ==>
               after[q] == (mid[q] || (InClass(count, j, q) && d.alpha[count[i] + q - Base(count, j)] != 0.0))
    ensures MarksSoFar(count, f + [d], i, j + 1, after)
  {
    hide Base, PairIndex, UsedSoFar;
    forall q: nat | q < |after|
      ensures after[q] <==> UsedSoFar(count, f + [d], i, j + 1, q)
    {
      UsedOneMore(count, f, d, i, j, q);
      assert (f + [d])[|f|] == d && FitsAt(count, f + [d], i, j);
      if InClass(count, i, q) && InClass(count, j, q) {
        ClassesApart(count, i, j, q);
      }
    }
  }

  /** One classifier's coefficients over one of its classes. */
  method MarkClass(nonzero: array<bool>, low: nat, n: nat, alpha: seq<real>, off: nat)
    requires low + n <= nonzero.Length && off + n <= |alpha|
    modifies nonzero
    ensures forall q :: 0 <= q < nonzero.Length ==>
              nonzero[q] == (old(nonzero[q]) || (low <= q < low + n && alpha[off + q - low] != 0.0))
  {
    for k := 0 to n
      invariant forall q :: 0 <= q < nonzero.Length ==>
                  nonzero[q] == (old(nonzero[q]) || (low <= q < low + k && alpha[off + q - low] != 0.0))
    {
      if !nonzero[low + k] && (alpha[off + k] > 0.0 || alpha[off + k] < 0.0) {
        nonzero[low + k] := true;
      }
    }
  }

  method TrainPair(perm: seq<nat>, start: seq<nat>, count: seq<nat>, solve: Solver, f: seq<Decision>,
                   nonzero: array<bool>,
                   i: nat, j: nat)
    returns (d: Decision)
    requires Stretches(start, count, |perm|) && OnePerPoint(solve) && i < j < |count| && |f| == PairIndex(|count|, i, j)
    requires nonzero.Length == |perm| && MarksSoFar(count, f, i, j, nonzero[..])
    modifies nonzero
    ensures d == solve(SubPoints(perm, start, count, i, j), SubSigns(count[i], count[j]))
    ensures MarksSoFar(count, f + [d], i, j + 1, nonzero[..])
  {
    hide Base, PairIndex, MarksSoFar;
    ghost var before := nonzero[..];
    d := solve(SubPoints(perm, start, count, i, j), SubSigns(count[i], count[j]));
    MarkClass(nonzero, start[i], count[i], d.alpha, 0);
    ghost var mid := nonzero[..];
    MarkClass(nonzero, start[j], count[j], d.alpha, count[i]);
    MarksMore(count, f, d, i, j, before, mid, nonzero[..]);
  }

  /** All pairs, in order. */
  method TrainPairs(perm: seq<nat>, start: seq<nat>, count: seq<nat>, solve: Solver)
    returns (f: seq<Decision>, nonzero: array<bool>)
    requires Stretches(start, count, |perm|) && OnePerPoint(solve)
    ensures |f| == PairsBefore(|count|, |count|) && Fits(count, f)
    ensures forall i: nat, j: nat :: i < j < |count| ==> TrainedAt(perm, start, count, solve, f, i, j)
    ensures fresh(nonzero) && nonzero.Length == |perm| && forall q: nat :: q < |perm| ==>
          (nonzero[q] <==> Used(count, f, q))
  {
    hide Base, TrainedSoFar, MarksSoFar, PairsBefore, Used, TrainedAt;
    nonzero := new bool[|perm|](_ => false);
    f := [];
    var k := |count|;
    TrainingStarts(perm, start, count, solve, nonzero[..]);
    for i := 0 to k
      invariant |f| == PairsBefore(k, i) && TrainedSoFar(perm, start, count, solve, f, i, i + 1)
      invariant MarksSoFar(count, f, i, i + 1, nonzero[..])
    {
      for j := i + 1 to k
        invariant |f| == PairsBefore(k, i) + (j - i - 1) && TrainedSoFar(perm, start, count, solve, f, i, j)
        invariant MarksSoFar(count, f, i, j, nonzero[..])
      {
        var d := TrainPair(perm, start, count, solve, f, nonzero, i, j);
        TrainedMore(perm, start, count, solve, f, i, j);
        f := f + [d];
      }
      RowEnds(perm, start, count, solve, f, i, nonzero[..]);
    }
    TrainingEnds(perm, start, count, solve, f, nonzero[..]);
  }

  lemma TrainingStarts(perm: seq<nat>, start: seq<nat>, count: seq<nat>, solve: Solver, nonzero: seq<bool>)
    requires Stretches(start, count, |perm|) && |nonzero| == |perm| && forall q :: 0 <= q < |nonzero| ==> !nonzero[q]
    ensures TrainedSoFar(perm, start, count, solve, [], 0, 1) && MarksSoFar(count, [], 0, 1, nonzero)
    ensures PairsBefore(|count|, 0) == 0
  {
    hide Base;
  }

  /** The end of one row of pairs is the start of the next. */
  lemma RowEnds(perm: seq<nat>, start: seq<nat>, count: seq<nat>, solve: Solver, f: seq<Decision>, i: nat,
                nonzero: seq<bool>)
    requires Stretches(start, count, |perm|) && i < |count|
    requires TrainedSoFar(perm, start, count, solve, f, i, |count|) && MarksSoFar(count, f, i, |count|, nonzero)
    ensures TrainedSoFar(perm, start, count, solve, f, i + 1, i + 2) && MarksSoFar(count, f, i + 1, i + 2, nonzero)
    ensures PairsBefore(|count|, i + 1) == PairsBefore(|count|, i) + (|count| - i - 1)
  {
    hide Base, TrainedAt;
    assert forall a: nat, b: nat :: a < b < |count| ==> (Before(a, b, i, |count|) <==> Before(a, b, i + 1, i + 2));
    forall q: nat
      ensures UsedSoFar(count, f, i, |count|, q) <==> UsedSoFar(count, f, i + 1, i + 2, q)
    {
      SameUse(count, f, i, q);
    }
  }

  lemma SameUse(count: seq<nat>, f: seq<Decision>, i: nat, q: nat)
    requires i < |count|
    ensures UsedSoFar(count, f, i, |count|, q) <==> UsedSoFar(count, f, i + 1, i + 2, q)
  {
    hide Base, FitsAt, Coefficient, InClass;
    if UsedSoFar(count, f, i, |count|, q) {
      var a: nat, b: nat :| Before(a, b, i, |count|) && UsedBy(count, f, a, b, q);
      assert Before(a, b, i + 1, i + 2);
    }
    if UsedSoFar(count, f, i + 1, i + 2, q) {
      var a: nat, b: nat :| Before(a, b, i + 1, i + 2) && UsedBy(count, f, a, b, q);
      assert Before(a, b, i, |count|);
    }
  }

  lemma TrainingEnds(perm: seq<nat>, start: seq<nat>, count: seq<nat>, solve: Solver, f: seq<Decision>,
                     nonzero: seq<bool>)
    requires Stretches(start, count, |perm|) && OnePerPoint(solve) && |nonzero| == |perm|
    requires |f| == PairsBefore(|count|, |count|) && TrainedSoFar(perm, start, count, solve, f, |count|, |count| + 1)
    requires MarksSoFar(count, f, |count|, |count| + 1, nonzero)
    ensures Fits(count, f) && forall i: nat, j: nat :: i < j < |count| ==> TrainedAt(perm, start, count, solve, f, i, j)
    ensures forall q: nat :: q < |nonzero| ==> (nonzero[q] <==> Used(count, f, q))
  {
    hide Base, PairIndex, InClass;
    forall i: nat, j: nat | i < j < |count|
      ensures FitsAt(count, f, i, j) && TrainedAt(perm, start, count, solve, f, i, j)
    {
      assert Before(i, j, |count|, |count| + 1);
      assert TrainedAt(perm, start, count, solve, f, i, j);
      assert |SubPoints(perm, start, count, i, j)| == count[i] + count[j];
    }
    forall q: nat
      ensures UsedSoFar(count, f, |count|, |count| + 1, q) <==> Used(count, f, q)
    {
      if Used(count, f, q) {
        var i: nat, j: nat :| UsedBy(count, f, i, j, q);
        assert Before(i, j, |count|, |count| + 1);
      }
    }
  }

  // ----- Support vectors -----

  /** The marked positions from `low` up to `high`, in order. */
  ghost function Kept(nonzero: seq<bool>, low: nat, high: nat): seq<nat>
    requires low <= high <= |nonzero|
  {
    if low == high then []
    else if nonzero[high - 1] then Kept(nonzero, low, high - 1) + [high - 1] else Kept(nonzero, low, high - 1)
  }

  lemma {:induction false} KeptInside(nonzero: seq<bool>, low: nat, high: nat)
    requires low <= high <= |nonzero|
    ensures forall m :: 0 <= m < |Kept(nonzero, low, high)| ==>
              low <= Kept(nonzero, low, high)[m] < high && nonzero[Kept(nonzero, low, high)[m]]
  {
    if low < high {
      KeptInside(nonzero, low, high - 1);
    }
  }

  lemma {:induction false} KeptSplits(nonzero: seq<bool>, low: nat, mid: nat, high: nat)
    requires low <= mid <= high <= |nonzero|
    ensures Kept(nonzero, low, high) == Kept(nonzero, low, mid) + Kept(nonzero, mid, high)
  {
    if mid < high {
      KeptSplits(nonzero, low, mid, high - 1);
    }
  }

  /** The support vectors of class c. */
  ghost function KeptOf(nonzero: seq<bool>, count: seq<nat>, c: nat): seq<nat>
    requires c < |count| && Base(count, |count|) == |nonzero|
  {
    BaseWithin(count, c);
    Kept(nonzero, Base(count, c), Base(count, c) + count[c])
  }

  lemma BaseWithin(count: seq<nat>, c: nat)
    requires c < |count|
    ensures Base(count, c) + count[c] <= Base(count, |count|)
  {
    BaseGrows(count, c, |count|);
  }

  ghost predicate CountsKept(nonzero: seq<bool>, count: seq<nat>, nSV: seq<nat>) {
    && Base(count, |count|) == |nonzero| && |nSV| == |count|
    && forall c: nat :: c < |count| ==> nSV[c] == |KeptOf(nonzero, count, c)|
  }

  lemma {:induction false} KeptBase(nonzero: seq<bool>, count: seq<nat>, nSV: seq<nat>, c: nat)
    requires CountsKept(nonzero, count, nSV) && c <= |count|
    ensures Base(count, c) <= |nonzero| && Base(nSV, c) == |Kept(nonzero, 0, Base(count, c))|
  {
    if c < |count| {
      BaseWithin(count, c);
    }
    if c > 0 {
      KeptBase(nonzero, count, nSV, c - 1);
      KeptSplits(nonzero, 0, Base(count, c - 1), Base(count, c));
      assert nSV[c - 1] == |KeptOf(nonzero, count, c - 1)|;
    }
  }

  /** In the list of all support vectors those of class c come as one stretch. */
  lemma KeptStretch(nonzero: seq<bool>, count: seq<nat>, nSV: seq<nat>, c: nat)
    requires CountsKept(nonzero, count, nSV) && c < |count|
    ensures Base(nSV, c) + nSV[c] <= |Kept(nonzero, 0, |nonzero|)|
    ensures Kept(nonzero, 0, |nonzero|)[Base(nSV, c)..Base(nSV, c) + nSV[c]] == KeptOf(nonzero, count, c)
  {
    hide Base, Kept;
    KeptBase(nonzero, count, nSV, c);
    BaseWithin(count, c);
    var low, high := Base(count, c), Base(count, c) + count[c];
    KeptSplits(nonzero, 0, low, high);
    KeptSplits(nonzero, 0, high, |nonzero|);
  }

  method CountSupport(nonzero: array<bool>, start: seq<nat>, count: seq<nat>) returns (nSV: seq<nat>)
    requires Stretches(start, count, nonzero.Length)
    ensures CountsKept(nonzero[..], count, nSV)
  {
    hide Base;
    nSV := [];
    for i := 0 to |count|
      invariant |nSV| == i && forall c: nat :: c < i ==> nSV[c] == |KeptOf(nonzero[..], count, c)|
    {
      var n := 0;
      for j := 0 to count[i]
        invariant n == |Kept(nonzero[..], start[i], start[i] + j)|
      {
        if nonzero[start[i] + j] {
          n := n + 1;
        }
      }
      nSV := nSV + [n];
    }
  }

  /** The support vectors as training points, and as the one-based indices the model reports. */
  method CollectSupport(nonzero: array<bool>, perm: seq<nat>) returns (sv: seq<nat>, indices: seq<nat>)
    requires nonzero.Length == |perm|
    ensures ListsKept(nonzero[..], perm, sv, |perm|)
    ensures |indices| == |sv| && forall m :: 0 <= m < |sv| ==> indices[m] == sv[m] + 1
  {
    sv, indices := [], [];
    for i := 0 to |perm|
      invariant ListsKept(nonzero[..], perm, sv, i)
      invariant |indices| == |sv| && forall m :: 0 <= m < |sv| ==> indices[m] == sv[m] + 1
    {
      KeptInside(nonzero[..], 0, i);
      if nonzero[i] {
        sv, indices := sv + [perm[i]], indices + [perm[i] + 1];
      }
    }
  }

  ghost predicate ListsKept(nonzero: seq<bool>, perm: seq<nat>, sv: seq<nat>, n: nat)
    requires n <= |perm| == |nonzero|
  {
    && |sv| == |Kept(nonzero, 0, n)|
    && forall m :: 0 <= m < |sv| ==> Kept(nonzero, 0, n)[m] < |perm| && sv[m] == perm[Kept(nonzero, 0, n)[m]]
  }

  // ----- The coefficient rows -----

  type Table = seq<seq<real>>

  ghost predicate Rectangle(coef: Table, rows: nat, columns: nat) {
    |coef| == rows && forall r :: 0 <= r < rows ==> |coef[r]| == columns
  }

  /** Row `row` holds, from column `at` on, the coefficients of the listed positions. */
  ghost predicate BlockHolds(coef: Table, row: nat, at: nat, kept: seq<nat>, low: nat, alpha: seq<real>, off: nat) {
    && row < |coef| && at + |kept| <= |coef[row]|
    && forall m :: 0 <= m < |kept| ==> HoldsAt(coef[row], at, m, kept, low, alpha, off)
  }

  ghost predicate HoldsAt(line: seq<real>, at: nat, m: nat, kept: seq<nat>, low: nat, alpha: seq<real>, off: nat)
    requires m < |kept| && at + |kept| <= |line|
  {
    low <= kept[m] && off + kept[m] - low < |alpha| && line[at + m] == alpha[off + kept[m] - low]
  }

  /** The columns from `at`, n of them, are the only ones of the only row that differ. */
  ghost predicate OnlyBlock(before: Table, after: Table, row: nat, at: nat, n: nat) {
    && |after| == |before| && (forall r :: 0 <= r < |before| ==> |after[r]| == |before[r]|)
    && (forall r :: 0 <= r < |before| && r != row ==> after[r] == before[r])
    && (row < |before| ==> forall c :: 0 <= c < |before[row]| && !(at <= c < at + n) ==>
          after[row][c] == before[row][c])
  }

  lemma BlockGrows(coef: Table, row: nat, at: nat, kept: seq<nat>, x: nat, low: nat, alpha: seq<real>, off: nat)
    requires BlockHolds(coef, row, at, kept, low, alpha, off) && at + |kept| < |coef[row]|
    requires low <= x && off + x - low < |alpha|
    ensures BlockHolds(coef[row := coef[row][at + |kept| := alpha[off + x - low]]], row, at, kept + [x], low,
                       alpha, off)
  {
    var more, line := kept + [x], coef[row][at + |kept| := alpha[off + x - low]];
    forall m | 0 <= m < |more|
      ensures HoldsAt(line, at, m, more, low, alpha, off)
    {
      assert m < |kept| ==> HoldsAt(coef[row], at, m, kept, low, alpha, off);
    }
  }

  method FillBlock(coef0: Table, row: nat, at: nat, nonzero: array<bool>, low: nat, n: nat, alpha: seq<real>, off: nat)
    returns (coef: Table)
    requires low + n <= nonzero.Length && off + n <= |alpha| && row < |coef0|
    requires at + |Kept(nonzero[..], low, low + n)| <= |coef0[row]|
    ensures OnlyBlock(coef0, coef, row, at, |Kept(nonzero[..], low, low + n)|)
    ensures BlockHolds(coef, row, at, Kept(nonzero[..], low, low + n), low, alpha, off)
  {
    coef := coef0;
    var q := at;
    for k := 0 to n
      invariant q == at + |Kept(nonzero[..], low, low + k)| && OnlyBlock(coef0, coef, row, at, q - at)
      invariant q <= |coef0[row]| && BlockHolds(coef, row, at, Kept(nonzero[..], low, low + k), low, alpha, off)
    {
      KeptSplits(nonzero[..], low, low + k + 1, low + n);
      if nonzero[low + k] {
        BlockGrows(coef, row, at, Kept(nonzero[..], low, low + k), low + k, low, alpha, off);
        coef := coef[row := coef[row][q := alpha[off + k]]];
        q := q + 1;
      }
    }
  }

  /** The table has a row for every class but one and a column for every support vector. */
  ghost predicate TableFor(coef: Table, nonzero: seq<bool>, count: seq<nat>, nSV: seq<nat>) {
    CountsKept(nonzero, count, nSV) && |count| > 0 && Rectangle(coef, |count| - 1, Base(nSV, |nSV|))
  }

  /** Class c's stretch of row `row`. */
  ghost predicate ClassBlock(coef: Table, nonzero: seq<bool>, count: seq<nat>, nSV: seq<nat>, row: nat, c: nat,
                             alpha: seq<real>, off: nat)
    requires CountsKept(nonzero, count, nSV) && c < |count|
  {
    BlockHolds(coef, row, Base(nSV, c), KeptOf(nonzero, count, c), Base(count, c), alpha, off)
  }

  /** Writing one class's stretch of one row leaves every other stretch alone. */
  lemma BlockStays(before: Table, after: Table, nonzero: seq<bool>, count: seq<nat>, nSV: seq<nat>, row: nat, c: nat,
                   row': nat, c': nat, alpha: seq<real>, off: nat)
    requires CountsKept(nonzero, count, nSV) && c < |count| && c' < |count| && (row, c) != (row', c')
    requires OnlyBlock(before, after, row', Base(nSV, c'), nSV[c'])
    requires ClassBlock(before, nonzero, count, nSV, row, c, alpha, off)
    ensures ClassBlock(after, nonzero, count, nSV, row, c, alpha, off)
  {
    hide Base, Kept;
    var at, kept, low := Base(nSV, c), KeptOf(nonzero, count, c), Base(count, c);
    assert nSV[c] == |kept|;
    if c < c' {
      BaseGrows(nSV, c, c');
    } else if c' < c {
      BaseGrows(nSV, c', c);
    }
    forall m | 0 <= m < |kept|
      ensures HoldsAt(after[row], at, m, kept, low, alpha, off)
    {
      assert HoldsAt(before[row], at, m, kept, low, alpha, off);
    }
  }

  /** The coefficients of pair (i, j): those of class i in row j - 1, those of class j in row i. */
  ghost predicate PairHolds(coef: Table, nonzero: seq<bool>, count: seq<nat>, nSV: seq<nat>, f: seq<Decision>, i: nat,
                            j: nat)
    requires CountsKept(nonzero, count, nSV) && i < j < |count|
  {
    && FitsAt(count, f, i, j)
    && ClassBlock(coef, nonzero, count, nSV, j - 1, i, f[PairIndex(|count|, i, j)].alpha, 0)
    && ClassBlock(coef, nonzero, count, nSV, i, j, f[PairIndex(|count|, i, j)].alpha, count[i])
  }

  ghost predicate PairsHold(coef: Table, nonzero: seq<bool>, count: seq<nat>, nSV: seq<nat>, f: seq<Decision>, i: nat,
                            j: nat)
    requires CountsKept(nonzero, count, nSV)
  {
    forall a: nat, b: nat :: a < b < |count| && Before(a, b, i, j) ==> PairHolds(coef, nonzero, count, nSV, f, a, b)
  }

  /** No two pairs share a stretch of a row. */
  lemma PairStays(before: Table, mid: Table, after: Table, nonzero: seq<bool>, count: seq<nat>, nSV: seq<nat>,
                  f: seq<Decision>,
                  a: nat, b: nat, i: nat, j: nat)
    requires CountsKept(nonzero, count, nSV) && a < b < |count| && i < j < |count| && (a, b) != (i, j)
    requires OnlyBlock(before, mid, j - 1, Base(nSV, i), nSV[i]) && OnlyBlock(mid, after, i, Base(nSV, j), nSV[j])
    requires PairHolds(before, nonzero, count, nSV, f, a, b)
    ensures PairHolds(after, nonzero, count, nSV, f, a, b)
  {
    hide ClassBlock, OnlyBlock, CountsKept, Base, PairIndex;
    var alpha := f[PairIndex(|count|, a, b)].alpha;
    BlockStays(before, mid, nonzero, count, nSV, b - 1, a, j - 1, i, alpha, 0);
    BlockStays(mid, after, nonzero, count, nSV, b - 1, a, i, j, alpha, 0);
    BlockStays(before, mid, nonzero, count, nSV, a, b, j - 1, i, alpha, count[a]);
    BlockStays(mid, after, nonzero, count, nSV, a, b, i, j, alpha, count[a]);
  }

  method FillPair(coef0: Table, nonzero: array<bool>, start: seq<nat>, count: seq<nat>, nSV: seq<nat>,
                  nzStart: seq<nat>,
                  f: seq<Decision>, p: nat, i: nat, j: nat)
    returns (coef: Table)
    requires TableFor(coef0, nonzero[..], count, nSV) && Stretches(start, count, nonzero.Length) && Fits(count, f)
    requires |nzStart| == |nSV| && forall c :: 0 <= c < |nSV| ==> nzStart[c] == Base(nSV, c)
    requires i < j < |count| && p == PairIndex(|count|, i, j) && PairsHold(coef0, nonzero[..], count, nSV, f, i, j)
    ensures TableFor(coef, nonzero[..], count, nSV) && PairsHold(coef, nonzero[..], count, nSV, f, i, j + 1)
  {
    hide Base, Kept, PairIndex, PairHolds, BlockHolds;
    assert FitsAt(count, f, i, j);
    BaseWithin(nSV, i);
    BaseWithin(nSV, j);
    ghost var marks := nonzero[..];
    var mid := FillBlock(coef0, j - 1, nzStart[i], nonzero, start[i], count[i], f[p].alpha, 0);
    coef := FillBlock(mid, i, nzStart[j], nonzero, start[j], count[j], f[p].alpha, count[i]);
    PairWritten(mid, coef, marks, count, nSV, f, i, j);
    forall a: nat, b: nat | a < b < |count| && Before(a, b, i, j + 1)
      ensures PairHolds(coef, marks, count, nSV, f, a, b)
    {
      if (a, b) != (i, j) {
        assert Before(a, b, i, j);
        PairStays(coef0, mid, coef, marks, count, nSV, f, a, b, i, j);
      }
    }
  }

  lemma PairWritten(mid: Table, after: Table, nonzero: seq<bool>, count: seq<nat>, nSV: seq<nat>, f: seq<Decision>,
                    i: nat, j: nat)
    requires CountsKept(nonzero, count, nSV) && i < j < |count| && FitsAt(count, f, i, j)
    requires OnlyBlock(mid, after, i, Base(nSV, j), nSV[j])
    requires ClassBlock(mid, nonzero, count, nSV, j - 1, i, f[PairIndex(|count|, i, j)].alpha, 0)
    requires ClassBlock(after, nonzero, count, nSV, i, j, f[PairIndex(|count|, i, j)].alpha, count[i])
    ensures PairHolds(after, nonzero, count, nSV, f, i, j)
  {
    hide ClassBlock, OnlyBlock, CountsKept, Base, PairIndex;
    BlockStays(mid, after, nonzero, count, nSV, j - 1, i, i, j, f[PairIndex(|count|, i, j)].alpha, 0);
  }

  method FillTable(coef0: Table, nonzero: array<bool>, start: seq<nat>, count: seq<nat>, nSV: seq<nat>,
                   f: seq<Decision>)
    returns (coef: Table)
    requires TableFor(coef0, nonzero[..], count, nSV) && Stretches(start, count, nonzero.Length) && Fits(count, f)
    ensures TableFor(coef, nonzero[..], count, nSV)
    ensures forall i: nat, j: nat :: i < j < |count| ==> PairHolds(coef, nonzero[..], count, nSV, f, i, j)
  {
    hide Base, Kept, Stretches, PairHolds, Fits, Rectangle;
    var nzStart := Starts(nSV);
    coef := coef0;
    var k, p := |count|, 0;
    NoPairs(k, 0);
    for i := 0 to k
      invariant p == PairsBefore(k, i) && TableFor(coef, nonzero[..], count, nSV)
      invariant PairsHold(coef, nonzero[..], count, nSV, f, i, i + 1)
    {
      for j := i + 1 to k
        invariant p == PairsBefore(k, i) + (j - i - 1) && TableFor(coef, nonzero[..], count, nSV)
        invariant PairsHold(coef, nonzero[..], count, nSV, f, i, j)
      {
        coef := FillPair(coef, nonzero, start, count, nSV, nzStart, f, p, i, j);
        p := p + 1;
      }
      NoPairs(k, i);
    }
  }

  lemma NoPairs(k: nat, i: nat)
    requires i <= k
    ensures forall a: nat, b: nat :: a < b < k ==> (Before(a, b, i, k) <==> Before(a, b, i + 1, i + 2))
    ensures PairsBefore(k, 0) == 0 && (i < k ==> PairsBefore(k, i + 1) == PairsBefore(k, i) + (k - i - 1))
  {
  }

  // ----- Decision values -----

  /** The sum of alpha[off + t] * kernel[low + t] for t below n. */
  ghost function Weighted(alpha: seq<real>, off: nat, kernel: seq<real>, low: nat, n: nat): real
    requires off + n <= |alpha| && low + n <= |kernel|
  {
    if n == 0 then 0.0 else Weighted(alpha, off, kernel, low, n - 1) + alpha[off + n - 1] * kernel[low + n - 1]
  }

  /** The same sum over the first m support vectors of a class, as the model stores them. */
  ghost function Stored(line: seq<real>, at: nat, values: seq<real>, m: nat): real
    requires at + m <= |line| && at + m <= |values|
  {
    if m == 0 then 0.0 else Stored(line, at, values, m - 1) + line[at + m - 1] * values[at + m - 1]
  }

  /** A point that is not stored has coefficient zero. */
  ghost predicate ZeroUnlessKept(nonzero: seq<bool>, low: nat, alpha: seq<real>, off: nat, t: nat) {
    low + t < |nonzero| && off + t < |alpha| && (nonzero[low + t] || alpha[off + t] == 0.0)
  }

  /** Over a class the stored sum is the full sum. */
  lemma {:induction false} StoredIsFull(line: seq<real>, at: nat, values: seq<real>, nonzero: seq<bool>, low: nat,
                                        n: nat,
                                        kept: seq<nat>, alpha: seq<real>, off: nat, kernel: seq<real>)
    requires low + n <= |nonzero| == |kernel| && off + n <= |alpha| && kept == Kept(nonzero, low, low + n)
    requires at + |kept| <= |line| && |line| == |values|
    requires forall m: nat :: m < |kept| ==> SameTerm(line, at, values, kept, m, alpha, off, low, kernel)
    requires forall t: nat :: t < n ==> ZeroUnlessKept(nonzero, low, alpha, off, t)
    ensures Stored(line, at, values, |kept|) == Weighted(alpha, off, kernel, low, n)
  {
    if n > 0 {
      var rest := Kept(nonzero, low, low + n - 1);
      forall m: nat | m < |rest|
        ensures SameTerm(line, at, values, rest, m, alpha, off, low, kernel)
      {
        assert kept[m] == rest[m] && SameTerm(line, at, values, kept, m, alpha, off, low, kernel);
      }
      StoredIsFull(line, at, values, nonzero, low, n - 1, rest, alpha, off, kernel);
      assert ZeroUnlessKept(nonzero, low, alpha, off, n - 1);
      if nonzero[low + n - 1] {
        assert SameTerm(line, at, values, kept, |rest|, alpha, off, low, kernel);
      }
    }
  }

  ghost predicate SameTerm(line: seq<real>, at: nat, values: seq<real>, kept: seq<nat>, m: nat, alpha: seq<real>,
                           off: nat,
                           low: nat, kernel: seq<real>) {
    && m < |kept| && at + m < |line| && at + m < |values| && low <= kept[m] < |kernel| && off + kept[m] - low < |alpha|
    && line[at + m] == alpha[off + kept[m] - low] && values[at + m] == kernel[kept[m]]
  }

  /** The decision value of pair (i, j) by its own classifier, over all of its training points. */
  ghost function PlainValue(count: seq<nat>, f: seq<Decision>, i: nat, j: nat, kernel: seq<real>): real
    requires i < j < |count| && FitsAt(count, f, i, j) && |kernel| == Base(count, |count|)
  {
    var d := f[PairIndex(|count|, i, j)];
    BaseWithin(count, i);
    BaseWithin(count, j);
    Weighted(d.alpha, 0, kernel, Base(count, i), count[i])
      + Weighted(d.alpha, count[i], kernel, Base(count, j), count[j]) - d.rho
  }

  /** The kernel values of the support vectors are the listed ones of all positions. */
  ghost predicate KernelValues(nonzero: seq<bool>, kernel: seq<real>, values: seq<real>) {
    && |kernel| == |nonzero| && |values| == |Kept(nonzero, 0, |nonzero|)|
    && forall m: nat :: m < |values| ==> ValueAt(nonzero, kernel, values, m)
  }

  ghost predicate ValueAt(nonzero: seq<bool>, kernel: seq<real>, values: seq<real>, m: nat)
    requires m < |values| == |Kept(nonzero, 0, |nonzero|)|
  {
    Kept(nonzero, 0, |nonzero|)[m] < |kernel| && values[m] == kernel[Kept(nonzero, 0, |nonzero|)[m]]
  }

  /** One class's part of a decision value. */
  lemma ClassPart(coef: Table, nonzero: seq<bool>, count: seq<nat>, nSV: seq<nat>, row: nat, c: nat,
                  alpha: seq<real>, off: nat, kernel: seq<real>, values: seq<real>)
    requires TableFor(coef, nonzero, count, nSV) && KernelValues(nonzero, kernel, values) && c < |count|
    requires ClassBlock(coef, nonzero, count, nSV, row, c, alpha, off) && off + count[c] <= |alpha|
    requires forall q: nat :: InClass(count, c, q) && q < |nonzero| && !nonzero[q] ==>
          alpha[off + q - Base(count, c)] == 0.0
    ensures Base(nSV, c) + nSV[c] <= |coef[row]| == |values| && Base(count, c) + count[c] <= |kernel|
    ensures Stored(coef[row], Base(nSV, c), values, nSV[c]) == Weighted(alpha, off, kernel, Base(count, c), count[c])
  {
    hide Base, Kept, Stored, Weighted, KernelValues, ClassBlock, Rectangle;
    var at, kept, low := Base(nSV, c), KeptOf(nonzero, count, c), Base(count, c);
    KeptStretch(nonzero, count, nSV, c);
    BaseWithin(count, c);
    KernelHas(nonzero, kernel, values);
    TableWidth(coef, nonzero, count, nSV, row, c, alpha, off, kernel, values);
    forall m: nat | m < |kept|
      ensures SameTerm(coef[row], at, values, kept, m, alpha, off, low, kernel)
    {
      ClassTerm(coef, nonzero, count, nSV, row, c, alpha, off, kernel, values, m);
    }
    forall t: nat | t < count[c]
      ensures ZeroUnlessKept(nonzero, low, alpha, off, t)
    {
      assert InClass(count, c, low + t);
    }
    StoredIsFull(coef[row], at, values, nonzero, low, count[c], kept, alpha, off, kernel);
  }

  lemma TableWidth(coef: Table, nonzero: seq<bool>, count: seq<nat>, nSV: seq<nat>, row: nat, c: nat,
                   alpha: seq<real>, off: nat, kernel: seq<real>, values: seq<real>)
    requires TableFor(coef, nonzero, count, nSV) && KernelValues(nonzero, kernel, values) && c < |count|
    requires ClassBlock(coef, nonzero, count, nSV, row, c, alpha, off)
    ensures row < |coef| && |coef[row]| == |values| == |Kept(nonzero, 0, |nonzero|)|
  {
    hide Base, Kept;
    KeptBase(nonzero, count, nSV, |count|);
  }

  lemma ClassTerm(coef: Table, nonzero: seq<bool>, count: seq<nat>, nSV: seq<nat>, row: nat, c: nat,
                  alpha: seq<real>, off: nat, kernel: seq<real>, values: seq<real>, m: nat)
    requires TableFor(coef, nonzero, count, nSV) && KernelValues(nonzero, kernel, values) && c < |count|
    requires ClassBlock(coef, nonzero, count, nSV, row, c, alpha, off) && m < |KeptOf(nonzero, count, c)|
    ensures row < |coef|
    ensures SameTerm(coef[row], Base(nSV, c), values, KeptOf(nonzero, count, c), m, alpha, off, Base(count, c), kernel)
  {
    hide Base, Kept;
    var at, kept, all := Base(nSV, c), KeptOf(nonzero, count, c), Kept(nonzero, 0, |nonzero|);
    KeptStretch(nonzero, count, nSV, c);
    assert HoldsAt(coef[row], at, m, kept, Base(count, c), alpha, off);
    assert all[at..at + nSV[c]][m] == all[at + m];
    assert ValueAt(nonzero, kernel, values, at + m);
  }

  /** The decision value computed from the model is the classifier's own. */
  lemma PairValue(coef: Table, nonzero: seq<bool>, count: seq<nat>, nSV: seq<nat>, f: seq<Decision>, i: nat, j: nat,
                  kernel: seq<real>, values: seq<real>)
    requires TableFor(coef, nonzero, count, nSV) && KernelValues(nonzero, kernel, values)
    requires i < j < |count| && PairHolds(coef, nonzero, count, nSV, f, i, j)
    requires forall q: nat :: q < |nonzero| ==> (nonzero[q] <==> Used(count, f, q))
    ensures Base(nSV, i) + nSV[i] <= |coef[j - 1]| == |values| && Base(nSV, j) + nSV[j] <= |coef[i]| == |values|
    ensures |kernel| == Base(count, |count|)
    ensures Stored(coef[j - 1], Base(nSV, i), values, nSV[i]) + Stored(coef[i], Base(nSV, j), values, nSV[j])
              - f[PairIndex(|count|, i, j)].rho == PlainValue(count, f, i, j, kernel)
  {
    hide Base, Kept, Stored, Weighted, PairIndex, ClassBlock, TableFor, KernelValues;
    var alpha := f[PairIndex(|count|, i, j)].alpha;
    forall q: nat | q < |nonzero| && !nonzero[q] && (InClass(count, i, q) || InClass(count, j, q))
      ensures Coefficient(count, f, i, j, q) == 0.0
    {
      assert !UsedBy(count, f, i, j, q);
    }
    forall q: nat | InClass(count, j, q)
      ensures !InClass(count, i, q)
    {
      if InClass(count, i, q) {
        ClassesApart(count, i, j, q);
      }
    }
    TableHas(coef, nonzero, count, nSV);
    KernelHas(nonzero, kernel, values);
    ClassPart(coef, nonzero, count, nSV, j - 1, i, alpha, 0, kernel, values);
    ClassPart(coef, nonzero, count, nSV, i, j, alpha, count[i], kernel, values);
  }

  lemma TableHas(coef: Table, nonzero: seq<bool>, count: seq<nat>, nSV: seq<nat>)
    requires TableFor(coef, nonzero, count, nSV)
    ensures CountsKept(nonzero, count, nSV) && |coef| == |count| - 1
  {
  }

  lemma KernelHas(nonzero: seq<bool>, kernel: seq<real>, values: seq<real>)
    requires KernelValues(nonzero, kernel, values)
    ensures |kernel| == |nonzero|
  {
  }

  // ----- Votes -----

  /** The first class of the pair wins: its decision value is positive. */
  ghost predicate FirstWins(dec: seq<real>, k: nat, a: nat, b: nat) {
    a < b < k && PairIndex(k, a, b) < |dec| && dec[PairIndex(k, a, b)] > 0.0
  }

  /** How often c wins against the classes above it and below `high`. */
  ghost function WinsAbove(dec: seq<real>, k: nat, c: nat, high: nat): nat {
    if high <= c + 1 then 0 else WinsAbove(dec, k, c, high - 1) + (if FirstWins(dec, k, c, high - 1) then 1 else 0)
  }

  /** How often c wins against the first `low` classes below it. */
  ghost function WinsBelow(dec: seq<real>, k: nat, c: nat, low: nat): nat {
    if low == 0 then 0 else WinsBelow(dec, k, c, low - 1) + (if FirstWins(dec, k, low - 1, c) then 0 else 1)
  }

  /** The votes of class c. */
  ghost function Votes(dec: seq<real>, k: nat, c: nat): nat {
    WinsAbove(dec, k, c, k) + WinsBelow(dec, k, c, c)
  }

  /** The votes of class c from the pairs before (i, j). */
  ghost function VotesSoFar(dec: seq<real>, k: nat, c: nat, i: nat, j: nat): nat {
    WinsAbove(dec, k, c, if c < i then k else if c == i then j else 0)
      + WinsBelow(dec, k, c, if c <= i then c else if c < j then i + 1 else i)
  }

  lemma {:induction false} AboveAgree(dec: seq<real>, more: seq<real>, k: nat, c: nat, high: nat)
    requires forall b: nat :: c < b < high ==> (FirstWins(dec, k, c, b) <==> FirstWins(more, k, c, b))
    ensures WinsAbove(dec, k, c, high) == WinsAbove(more, k, c, high)
  {
    if high > c + 1 {
      AboveAgree(dec, more, k, c, high - 1);
    }
  }

  lemma {:induction false} BelowAgree(dec: seq<real>, more: seq<real>, k: nat, c: nat, low: nat)
    requires forall a: nat :: a < low ==> (FirstWins(dec, k, a, c) <==> FirstWins(more, k, a, c))
    ensures WinsBelow(dec, k, c, low) == WinsBelow(more, k, c, low)
  {
    if low > 0 {
      BelowAgree(dec, more, k, c, low - 1);
    }
  }

  lemma EarlierPairs(dec: seq<real>, value: real, k: nat, i: nat, j: nat, a: nat, b: nat)
    requires i < j < k && |dec| == PairIndex(k, i, j) && a < b < k && Before(a, b, i, j)
    ensures FirstWins(dec, k, a, b) <==> FirstWins(dec + [value], k, a, b)
  {
    PairOrder(k, a, b, i, j);
  }

  /** One more decision value adds one vote to one of its two classes. */
  lemma VoteStep(dec: seq<real>, value: real, k: nat, i: nat, j: nat, c: nat)
    requires i < j < k && |dec| == PairIndex(k, i, j) && c < k
    ensures VotesSoFar(dec + [value], k, c, i, j + 1) ==
            VotesSoFar(dec, k, c, i, j) + if c == (if value > 0.0 then i else j) then 1 else 0
  {
    hide PairIndex;
    var more := dec + [value];
    assert FirstWins(more, k, i, j) <==> value > 0.0 by {
      assert more[PairIndex(k, i, j)] == value;
    }
    var high, low := if c < i then k else if c == i then j else 0, if c <= i then c else if c < j then i + 1 else i;
    forall b: nat | c < b < high
      ensures FirstWins(dec, k, c, b) <==> FirstWins(more, k, c, b)
    {
      EarlierPairs(dec, value, k, i, j, c, b);
    }
    AboveAgree(dec, more, k, c, high);
    forall a: nat | a < low
      ensures FirstWins(dec, k, a, c) <==> FirstWins(more, k, a, c)
    {
      EarlierPairs(dec, value, k, i, j, a, c);
    }
    BelowAgree(dec, more, k, c, low);
  }

  // ----- The model and its predictions -----

  datatype Model = Model(labels: seq<int>, rho: seq<real>, nSV: seq<nat>, sv: seq<nat>, indices: seq<nat>, coef: Table)

  /** The model stores the trained classifiers f of the grouped points. */
  ghost predicate Stores(m: Model, perm: seq<nat>, count: seq<nat>, nonzero: seq<bool>, f: seq<Decision>) {
    && |m.labels| == |count| && |nonzero| == |perm| && TableFor(m.coef, nonzero, count, m.nSV)
    && (forall i: nat, j: nat :: i < j < |count| ==> PairHolds(m.coef, nonzero, count, m.nSV, f, i, j))
    && (forall q: nat :: q < |nonzero| ==> (nonzero[q] <==> Used(count, f, q)))
    && Fits(count, f) && |m.rho| == |f| && (forall p :: 0 <= p < |f| ==> m.rho[p] == f[p].rho)
    && ListsKept(nonzero, perm, m.sv, |perm|)
    && |m.indices| == |m.sv| && forall s :: 0 <= s < |m.sv| ==> m.indices[s] == m.sv[s] + 1
  }

  method PairSum(m: Model, start: seq<nat>, values: seq<real>, i: nat, j: nat) returns (sum: real)
    requires i < j < |m.nSV| == |start| && j - 1 < |m.coef| && i < |m.coef|
    requires start[i] + m.nSV[i] <= |m.coef[j - 1]| == |values| && start[j] + m.nSV[j] <= |m.coef[i]| == |values|
    ensures sum == Stored(m.coef[j - 1], start[i], values, m.nSV[i]) + Stored(m.coef[i], start[j], values, m.nSV[j])
  {
    sum := 0.0;
    var si, sj := start[i], start[j];
    for k := 0 to m.nSV[i]
      invariant sum == Stored(m.coef[j - 1], si, values, k)
    {
      sum := sum + m.coef[j - 1][si + k] * values[si + k];
    }
    for k := 0 to m.nSV[j]
      invariant sum == Stored(m.coef[j - 1], si, values, m.nSV[i]) + Stored(m.coef[i], sj, values, k)
    {
      sum := sum + m.coef[i][sj + k] * values[sj + k];
    }
  }

  /** The kernel values over all positions, for a kernel given by training point. */
  ghost function KernelOf(perm: seq<nat>, kernel: nat -> real): (r: seq<real>)
    ensures |r| == |perm| && forall q :: 0 <= q < |perm| ==> r[q] == kernel(perm[q])
  {
    seq(|perm|, q requires 0 <= q < |perm| => kernel(perm[q]))
  }

  method SupportKernel(m: Model, kernel: nat -> real, ghost perm: seq<nat>, ghost nonzero: seq<bool>)
    returns (values: seq<real>)
    requires |nonzero| == |perm| && ListsKept(nonzero, perm, m.sv, |perm|)
    ensures KernelValues(nonzero, KernelOf(perm, kernel), values)
  {
    hide Kept;
    values := [];
    for i := 0 to |m.sv|
      invariant |values| == i && forall s :: 0 <= s < i ==> values[s] == kernel(m.sv[s])
    {
      values := values + [kernel(m.sv[i])];
    }
    KeptInside(nonzero, 0, |nonzero|);
  }

  /** Every decision value so far is the pair's own. */
  ghost predicate ValuesSoFar(count: seq<nat>, f: seq<Decision>, kernel: seq<real>, dec: seq<real>, i: nat, j: nat)
    requires Fits(count, f) && |kernel| == Base(count, |count|)
  {
    forall a: nat, b: nat :: a < b < |count| && Before(a, b, i, j) ==> ValueIs(count, f, kernel, dec, a, b)
  }

  ghost predicate ValueIs(count: seq<nat>, f: seq<Decision>, kernel: seq<real>, dec: seq<real>, a: nat, b: nat)
    requires Fits(count, f) && |kernel| == Base(count, |count|) && a < b < |count|
  {
    FitsAt(count, f, a, b) && PairIndex(|count|, a, b) < |dec|
    && dec[PairIndex(|count|, a, b)] == PlainValue(count, f, a, b, kernel)
  }

  lemma ValuesMore(count: seq<nat>, f: seq<Decision>, kernel: seq<real>, dec: seq<real>, value: real, i: nat, j: nat)
    requires Fits(count, f) && |kernel| == Base(count, |count|) && i < j < |count| && |dec| == PairIndex(|count|, i, j)
    requires ValuesSoFar(count, f, kernel, dec, i, j) && FitsAt(count, f, i, j)
          && value == PlainValue(count, f, i, j, kernel)
    ensures ValuesSoFar(count, f, kernel, dec + [value], i, j + 1)
  {
    hide Base, PairIndex, PlainValue, Fits;
    forall a: nat, b: nat | a < b < |count| && Before(a, b, i, j + 1)
      ensures ValueIs(count, f, kernel, dec + [value], a, b)
    {
      PairOrder(|count|, a, b, i, j);
      if Before(a, b, i, j) {
        assert ValueIs(count, f, kernel, dec, a, b);
      }
    }
  }

  method PredictPair(m: Model, start: seq<nat>, values: seq<real>, i: nat, j: nat, ghost perm: seq<nat>,
                     ghost count: seq<nat>,
                     ghost nonzero: seq<bool>, ghost f: seq<Decision>, ghost kernel: seq<real>, p: nat)
    returns (sum: real)
    requires Stores(m, perm, count, nonzero, f) && KernelValues(nonzero, kernel, values)
          && |kernel| == Base(count, |count|)
    requires |start| == |m.nSV| && forall c :: 0 <= c < |start| ==> start[c] == Base(m.nSV, c)
    requires i < j < |count| && p == PairIndex(|count|, i, j)
    ensures FitsAt(count, f, i, j) && sum == PlainValue(count, f, i, j, kernel)
  {
    hide Base, Stored, PlainValue, KernelValues, PairHolds, Used, PairIndex, ListsKept;
    assert FitsAt(count, f, i, j);
    PairValue(m.coef, nonzero, count, m.nSV, f, i, j, kernel, values);
    sum := PairSum(m, start, values, i, j);
    sum := sum - m.rho[p];
  }

  ghost predicate VotesAre(dec: seq<real>, k: nat, vote: seq<nat>, i: nat, j: nat) {
    |vote| == k && forall c: nat :: c < k ==> vote[c] == VotesSoFar(dec, k, c, i, j)
  }

  /** The decision values of all pairs, the votes, and the label of the first class with the most votes. */
  method PredictValues(m: Model, kernel: nat -> real, ghost perm: seq<nat>, ghost count: seq<nat>,
                       ghost nonzero: seq<bool>,
                       ghost f: seq<Decision>)
    returns (dec: array<real>, lab: int, winner: nat)
    requires Stores(m, perm, count, nonzero, f)
    ensures dec.Length == |m.labels| * (|m.labels| - 1) / 2 == PairsBefore(|count|, |count|)
    ensures Fits(count, f) && |perm| == Base(count, |count|)
    ensures forall i: nat, j: nat :: i < j < |count| ==> ValueIs(count, f, KernelOf(perm, kernel), dec[..], i, j)
    ensures winner < |m.labels| && lab == m.labels[winner]
    ensures forall c: nat :: c < |count| ==> Votes(dec[..], |count|, c) <= Votes(dec[..], |count|, winner)
    ensures forall c: nat :: c < winner ==> Votes(dec[..], |count|, c) < Votes(dec[..], |count|, winner)
  {
    hide Base, Stores, KernelValues, PairsBefore, Votes, VotesAre, ValuesSoFar, ValueIs, Fits;
    StoresHas(m, perm, count, nonzero, f);
    var k := |m.labels|;
    PairTotal(k, k);
    var values := SupportKernel(m, kernel, perm, nonzero);
    var start := Starts(m.nSV);
    var vote := new nat[k](_ => 0);
    dec := new real[k * (k - 1) / 2];
    FillDecisions(m, kernel, values, start, dec, vote, perm, count, nonzero, f);
    winner := 0;
    VotesDone(dec[..], k, vote[..]);
    for i := 1 to k
      invariant winner < i && forall c: nat :: c < i ==> vote[c] <= vote[winner]
      invariant forall c: nat :: c < winner ==> vote[c] < vote[winner]
    {
      if vote[i] > vote[winner] {
        winner := i;
      }
    }
    lab := m.labels[winner];
  }

  lemma StoresHas(m: Model, perm: seq<nat>, count: seq<nat>, nonzero: seq<bool>, f: seq<Decision>)
    requires Stores(m, perm, count, nonzero, f)
    ensures |m.labels| == |count| > 0 && |m.nSV| == |count| && Fits(count, f)
          && |perm| == |nonzero| == Base(count, |count|)
    ensures ListsKept(nonzero, perm, m.sv, |perm|)
  {
  }

  lemma VotesDone(dec: seq<real>, k: nat, vote: seq<nat>)
    requires VotesAre(dec, k, vote, k, k + 1)
    ensures |vote| == k && forall c: nat :: c < k ==> vote[c] == Votes(dec, k, c)
  {
  }

  method FillDecisions(m: Model, ghost kernel: nat -> real, values: seq<real>, start: seq<nat>, dec: array<real>,
                       vote: array<nat>,
                       ghost perm: seq<nat>, ghost count: seq<nat>, ghost nonzero: seq<bool>, ghost f: seq<Decision>)
    requires Stores(m, perm, count, nonzero, f) && KernelValues(nonzero, KernelOf(perm, kernel), values)
    requires |start| == |m.nSV| && forall c :: 0 <= c < |start| ==> start[c] == Base(m.nSV, c)
    requires dec.Length == PairsBefore(|count|, |count|) && vote.Length == |count| && forall c :: 0 <= c < |count| ==>
          vote[c] == 0
    requires Fits(count, f) && |perm| == Base(count, |count|) && |m.labels| == |count|
    modifies dec, vote
    ensures forall i: nat, j: nat :: i < j < |count| ==> ValueIs(count, f, KernelOf(perm, kernel), dec[..], i, j)
    ensures VotesAre(dec[..], |count|, vote[..], |count|, |count| + 1)
  {
    hide Base, Stores, KernelValues, VotesSoFar, Votes, Fits, ValueIs, PairsBefore, VotesAre;
    var k, p := |m.labels|, 0;
    ghost var all := KernelOf(perm, kernel);
    NoPairs(k, 0);
    NoVotes(k, vote[..]);
    assert dec[..0] == [];
    for i := 0 to k
      invariant p == PairsBefore(k, i) <= dec.Length && ValuesSoFar(count, f, all, dec[..p], i, i + 1)
      invariant VotesAre(dec[..p], k, vote[..], i, i + 1)
    {
      PairsBeforeGrow(k, i, k);
      for j := i + 1 to k
        invariant p == PairsBefore(k, i) + (j - i - 1) <= dec.Length && ValuesSoFar(count, f, all, dec[..p], i, j)
        invariant VotesAre(dec[..p], k, vote[..], i, j)
      {
        var sum := PredictPair(m, start, values, i, j, perm, count, nonzero, f, all, p);
        ValuesMore(count, f, all, dec[..p], sum, i, j);
        PairOrder(k, i, j, i, j);
        RecordVote(dec, vote, k, p, i, j, sum);
        p := p + 1;
      }
      NoPairs(k, i);
      VotesNextRow(dec[..p], k, vote[..], i);
    }
    LastValues(count, f, all, dec[..], p, k);
  }

  lemma LastValues(count: seq<nat>, f: seq<Decision>, kernel: seq<real>, dec: seq<real>, p: nat, k: nat)
    requires Fits(count, f) && |kernel| == Base(count, |count|) && k == |count| && p == |dec|
    requires ValuesSoFar(count, f, kernel, dec[..p], k, k + 1)
    ensures dec[..p] == dec && forall i: nat, j: nat :: i < j < |count| ==> ValueIs(count, f, kernel, dec, i, j)
  {
    hide Base, ValueIs, Fits;
    assert dec[..p] == dec;
    forall i: nat, j: nat | i < j < |count|
      ensures ValueIs(count, f, kernel, dec, i, j)
    {
      assert Before(i, j, k, k + 1);
    }
  }

  method RecordVote(dec: array<real>, vote: array<nat>, k: nat, p: nat, i: nat, j: nat, sum: real)
    requires i < j < k == vote.Length && p == PairIndex(k, i, j) < dec.Length
    requires VotesAre(dec[..p], k, vote[..], i, j)
    modifies dec, vote
    ensures dec[..p + 1] == old(dec[..p]) + [sum] && VotesAre(dec[..p + 1], k, vote[..], i, j + 1)
  {
    hide PairIndex, VotesSoFar;
    dec[p] := sum;
    assert dec[..p + 1] == old(dec[..p]) + [sum];
    if dec[p] > 0.0 {
      vote[i] := vote[i] + 1;
    } else {
      vote[j] := vote[j] + 1;
    }
    forall c: nat | c < k
      ensures vote[c] == VotesSoFar(dec[..p + 1], k, c, i, j + 1)
    {
      VoteStep(old(dec[..p]), sum, k, i, j, c);
    }
  }

  lemma NoVotes(k: nat, vote: seq<nat>)
    requires |vote| == k && forall c :: 0 <= c < k ==> vote[c] == 0
    ensures VotesAre([], k, vote, 0, 1)
  {
  }

  lemma VotesNextRow(dec: seq<real>, k: nat, vote: seq<nat>, i: nat)
    requires i < k && VotesAre(dec, k, vote, i, k)
    ensures VotesAre(dec, k, vote, i + 1, i + 2)
  {
  }

  // ----- Training -----

  lemma GroupsStretch(y: seq<int>, labels: seq<int>, start: seq<nat>, count: seq<nat>, perm: seq<nat>)
    requires Grouped(y, labels, start, count, perm)
    ensures Stretches(start, count, |perm|) && |labels| == |count|
  {
    hide Base, Members;
    forall c | 0 <= c < |start|
      ensures start[c] + count[c] <= |perm|
    {
      assert FilledTo(y, |y|, labels[c], start[c], start[c] + count[c], perm);
    }
  }

  lemma SomeLabel(y: seq<int>, labels: seq<int>, count: seq<nat>)
    requires |y| > 0 && Labels(y, |y|, labels, count)
    ensures |labels| == |count| > 0
  {
    assert y[0] in labels;
  }

  /** The model stores the decision functions `f` of the pairs, each trained on the grouped points of its two
      classes. */
  ghost predicate TrainedFrom(y: seq<int>, solve: Solver, m: Model, perm: seq<nat>, start: seq<nat>, count: seq<nat>,
                              nonzero: seq<bool>, f: seq<Decision>)
    requires OnePerPoint(solve)
  {
    && Grouped(y, m.labels, start, count, perm) && Stretches(start, count, |perm|) && Stores(m, perm, count, nonzero, f)
    && forall i: nat, j: nat :: i < j < |count| ==> TrainedAt(perm, start, count, solve, f, i, j)
  }

  /** Training: group the points, train every pair, keep the points that some pair uses, and lay out the
      coefficients. */
  method Train(y: seq<int>, solve: Solver) returns (m: Model)
    requires |y| > 0 && OnePerPoint(solve)
    ensures exists perm, start, count, nonzero, f :: TrainedFrom(y, solve, m, perm, start, count, nonzero, f)
  {
    hide Base, Members, Labels, FilledTo, Used, TrainedAt, PairHolds, PairsBefore, Kept, FirstOccurrences;
    var labels, begin, counts, order, _ := GroupClasses(y);
    SomeLabel(y, labels, counts);
    GroupsStretch(y, labels, begin, counts, order[..]);
    var points := order[..];
    var trained, marks := TrainPairs(points, begin, counts, solve);
    var nSV := CountSupport(marks, begin, counts);
    var sv, indices := CollectSupport(marks, points);
    KeptBase(marks[..], counts, nSV, |counts|);
    var table := EmptyTable(|counts| - 1, |sv|);
    var coef := FillTable(table, marks, begin, counts, nSV, trained);
    var rho := seq(|trained|, p requires 0 <= p < |trained| => trained[p].rho);
    m := Model(labels, rho, nSV, sv, indices, coef);
    assert TrainedFrom(y, solve, m, points, begin, counts, marks[..], trained);
  }

  method EmptyTable(rows: nat, columns: nat) returns (coef: Table)
    ensures Rectangle(coef, rows, columns)
  {
    coef := seq(rows, _ => seq(columns, _ => 0.0));
  }

  // ----- The model against the classifiers it was built from -----

  /** The sum of alpha[t] * kernel(points[t]) for t below n. */
  ghost function PointSum(alpha: seq<real>, points: seq<nat>, kernel: nat -> real, n: nat): real
    requires n <= |alpha| && n <= |points|
  {
    if n == 0 then 0.0 else PointSum(alpha, points, kernel, n - 1) + alpha[n - 1] * kernel(points[n - 1])
  }

  ghost predicate SamePoint(points: seq<nat>, off: nat, perm: seq<nat>, low: nat, t: nat) {
    off + t < |points| && low + t < |perm| && points[off + t] == perm[low + t]
  }

  lemma {:induction false} WeightedIsPointSum(alpha: seq<real>, off: nat, perm: seq<nat>, kernel: nat -> real,
                                              low: nat, n: nat,
                                              points: seq<nat>)
    requires off + n <= |alpha| && low + n <= |perm| && off + n <= |points|
    requires forall t: nat :: t < n ==> SamePoint(points, off, perm, low, t)
    ensures PointSum(alpha, points, kernel, off + n) ==
            PointSum(alpha, points, kernel, off) + Weighted(alpha, off, KernelOf(perm, kernel), low, n)
  {
    if n > 0 {
      WeightedIsPointSum(alpha, off, perm, kernel, low, n - 1, points);
      assert SamePoint(points, off, perm, low, n - 1);
    }
  }

  lemma SubPointsAre(perm: seq<nat>, start: seq<nat>, count: seq<nat>, i: nat, j: nat)
    requires i < |start| == |count| && j < |start| && start[i] + count[i] <= |perm| && start[j] + count[j] <= |perm|
    ensures forall t: nat :: t < count[i] ==> SamePoint(SubPoints(perm, start, count, i, j), 0, perm, start[i], t)
    ensures forall t: nat :: t < count[j] ==>
          SamePoint(SubPoints(perm, start, count, i, j), count[i], perm, start[j], t)
  {
  }

  /** A pair's own decision function: what two-class training on its points makes of a test point. */
  ghost function OwnValue(y: seq<int>, solve: Solver, kernel: nat -> real, lab: int, lab': int): real
    requires OnePerPoint(solve)
  {
    var first, second := Members(y, lab, |y|), Members(y, lab', |y|);
    var d := solve(first + second, SubSigns(|first|, |second|));
    PointSum(d.alpha, first + second, kernel, |first + second|) - d.rho
  }

  lemma PlainIsOwn(y: seq<int>, labels: seq<int>, start: seq<nat>, count: seq<nat>, perm: seq<nat>, solve: Solver,
                   f: seq<Decision>, kernel: nat -> real, i: nat, j: nat)
    requires Grouped(y, labels, start, count, perm) && Stretches(start, count, |perm|) && OnePerPoint(solve)
    requires i < j < |count| && TrainedAt(perm, start, count, solve, f, i, j) && FitsAt(count, f, i, j)
    ensures PlainValue(count, f, i, j, KernelOf(perm, kernel)) == OwnValue(y, solve, kernel, labels[i], labels[j])
  {
    hide Base, Members, PairIndex, Weighted, PointSum;
    assert FilledTo(y, |y|, labels[i], start[i], start[i] + count[i], perm);
    assert FilledTo(y, |y|, labels[j], start[j], start[j] + count[j], perm);
    var points, alpha := SubPoints(perm, start, count, i, j), f[PairIndex(|count|, i, j)].alpha;
    SubPointsAre(perm, start, count, i, j);
    WeightedIsPointSum(alpha, 0, perm, kernel, start[i], count[i], points);
    WeightedIsPointSum(alpha, count[i], perm, kernel, start[j], count[j], points);
    NoPoints(alpha, points, kernel);
  }

  lemma NoPoints(alpha: seq<real>, points: seq<nat>, kernel: nat -> real)
    ensures PointSum(alpha, points, kernel, 0) == 0.0
  {
  }

  /** Train a model and predict with it: every decision value is the pair's own, over all of its training points. */
  method TrainAndPredict(y: seq<int>, solve: Solver, kernel: nat -> real)
    returns (m: Model, dec: array<real>, lab: int, winner: nat)
    requires |y| > 0 && OnePerPoint(solve)
    ensures dec.Length == PairsBefore(|m.labels|, |m.labels|) && winner < |m.labels| && lab == m.labels[winner]
    ensures forall i: nat, j: nat :: i < j < |m.labels| ==>
              PairIndex(|m.labels|, i, j) < dec.Length &&
              dec[PairIndex(|m.labels|, i, j)] == OwnValue(y, solve, kernel, m.labels[i], m.labels[j])
    ensures var k := |m.labels|; forall c: nat :: c < k ==> Votes(dec[..], k, c) <= Votes(dec[..], k, winner)
    ensures var k := |m.labels|; forall c: nat :: c < winner ==> Votes(dec[..], k, c) < Votes(dec[..], k, winner)
  {
    hide Base, Members, PairIndex, Stores, PairsBefore, Votes, Grouped, TrainedAt, OwnValue;
    m := Train(y, solve);
    ghost var perm, start, count, nonzero, f :| TrainedFrom(y, solve, m, perm, start, count, nonzero, f);
    StoresHas(m, perm, count, nonzero, f);
    dec, lab, winner := PredictValues(m, kernel, perm, count, nonzero, f);
    forall i: nat, j: nat | i < j < |m.labels|
      ensures PairIndex(|m.labels|, i, j) < dec.Length
      ensures dec[PairIndex(|m.labels|, i, j)] == OwnValue(y, solve, kernel, m.labels[i], m.labels[j])
    {
      assert ValueIs(count, f, KernelOf(perm, kernel), dec[..], i, j);
      PlainIsOwn(y, m.labels, start, count, perm, solve, f, kernel, i, j);
    }
  }
}
