/** What the doubled matrix of regression means: two variables for every point, of which only the difference counts. */
module RegressionForm {
  import opened RegressionRows
  import opened Sums

  function At(v: seq<real>, s: int): real {
    if 0 <= s < |v| then v[s] else 0.0
  }

  /** The weight of point i: what its two variables differ by. */
  function Weight(v: seq<real>, l: nat, i: int): real {
    At(v, i) - At(v, l + i)
  }

  ghost predicate Square(K: seq<seq<real>>) {
    forall h :: 0 <= h < |K| ==> |K[h]| == |K|
  }

  /** One term of row s of the doubled matrix times v. */
  ghost function DoubledTerm(K: seq<seq<real>>, v: seq<real>, s: nat, t: int): real
    requires Square(K) && s < 2 * |K|
  {
    if 0 <= t < 2 * |K| then DoubledEntry(K, s, t) * At(v, t) else 0.0
  }

  ghost function KernelTerm(K: seq<seq<real>>, v: seq<real>, h: nat, j: int): real
    requires Square(K) && h < |K|
  {
    if 0 <= j < |K| then K[h][j] * Weight(v, |K|, j) else 0.0
  }

  ghost function DoubledRow(K: seq<seq<real>>, v: seq<real>, s: int): real
    requires Square(K)
  {
    if 0 <= s < 2 * |K| then Total(2 * |K|, t => DoubledTerm(K, v, s, t)) else 0.0
  }

  ghost function KernelRow(K: seq<seq<real>>, v: seq<real>, h: int): real
    requires Square(K)
  {
    if 0 <= h < |K| then Total(|K|, j => KernelTerm(K, v, h, j)) else 0.0
  }

  lemma RowIsSigned(K: seq<seq<real>>, v: seq<real>, s: nat)
    requires Square(K) && s < 2 * |K|
    ensures s < |K| ==> DoubledRow(K, v, s) == KernelRow(K, v, s)
    ensures s >= |K| ==> DoubledRow(K, v, s) == -KernelRow(K, v, s - |K|)
  {
    hide Total;
    var l, h, c := |K|, PointOf(|K|, s), if s < |K| then 1.0 else -1.0;
    var terms, weighed := t => DoubledTerm(K, v, s, t), j => c * KernelTerm(K, v, h, j);
    forall j | 0 <= j < l
      ensures weighed(j) == terms(j) + terms(l + j)
    {
      assert K[h][j] * (At(v, j) - At(v, l + j)) == K[h][j] * At(v, j) - K[h][j] * At(v, l + j);
    }
    TotalHalves(l, l, terms, weighed);
    TotalScale(l, c, j => KernelTerm(K, v, h, j), weighed);
  }

  /** The doubled form at (a, a*) is the kernel's form at a - a*. */
  lemma DoubledForm(K: seq<seq<real>>, v: seq<real>)
    requires Square(K) && |v| == 2 * |K|
    ensures Total(2 * |K|, s => At(v, s) * DoubledRow(K, v, s))
         == Total(|K|, i => Weight(v, |K|, i) * KernelRow(K, v, i))
  {
    hide Total, DoubledRow, KernelRow;
    var l := |K|;
    var terms, weighed := s => At(v, s) * DoubledRow(K, v, s), i => Weight(v, l, i) * KernelRow(K, v, i);
    forall i | 0 <= i < l
      ensures weighed(i) == terms(i) + terms(l + i)
    {
      RowIsSigned(K, v, i);
      RowIsSigned(K, v, l + i);
    }
    TotalHalves(l, l, terms, weighed);
  }
}
