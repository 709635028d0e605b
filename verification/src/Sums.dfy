/** Finite sums of real-valued functions of an index. */
module Sums {

  ghost function Total(n: nat, f: int -> real): real {
    if n == 0 then 0.0 else Total(n - 1, f) + f(n - 1)
  }

  lemma {:induction false} TotalEqual(n: nat, f: int -> real, g: int -> real)
    requires forall i :: 0 <= i < n ==> f(i) == g(i)
    ensures Total(n, f) == Total(n, g)
  {
    if n > 0 {
      TotalEqual(n - 1, f, g);
    }
  }

  lemma {:induction false} TotalPlus(n: nat, f: int -> real, g: int -> real, h: int -> real)
    requires forall i :: 0 <= i < n ==> h(i) == f(i) + g(i)
    ensures Total(n, h) == Total(n, f) + Total(n, g)
  {
    if n > 0 {
      TotalPlus(n - 1, f, g, h);
    }
  }

  lemma {:induction false} TotalScale(n: nat, c: real, f: int -> real, h: int -> real)
    requires forall i :: 0 <= i < n ==> h(i) == c * f(i)
    ensures Total(n, h) == c * Total(n, f)
  {
    if n > 0 {
      TotalScale(n - 1, c, f, h);
      assert c * (Total(n - 1, f) + f(n - 1)) == c * Total(n - 1, f) + c * f(n - 1);
    }
  }

  lemma {:induction false} TotalZero(n: nat, f: int -> real)
    requires forall i :: 0 <= i < n ==> f(i) == 0.0
    ensures Total(n, f) == 0.0
  {
    if n > 0 {
      TotalZero(n - 1, f);
    }
  }

  lemma {:induction false} TotalAtLeast(n: nat, f: int -> real, g: int -> real)
    requires forall i :: 0 <= i < n ==> f(i) <= g(i)
    ensures Total(n, f) <= Total(n, g)
  {
    if n > 0 {
      TotalAtLeast(n - 1, f, g);
    }
  }

  lemma TotalNotNegative(n: nat, f: int -> real)
    requires forall i :: 0 <= i < n ==> f(i) >= 0.0
    ensures Total(n, f) >= 0.0
  {
    TotalZero(n, _ => 0.0);
    TotalAtLeast(n, _ => 0.0, f);
  }

  lemma {:induction false} TotalOnes(n: nat)
    ensures Total(n, _ => 1.0) == n as real
  {
    if n > 0 {
      TotalOnes(n - 1);
    }
  }

  lemma TotalSteps(f: int -> real, n: nat)
    ensures Total(0, f) == 0.0 && Total(n + 1, f) == Total(n, f) + f(n)
  {
  }

  /** Two functions that differ in one place. */
  lemma {:induction false} TotalBump(n: nat, k: nat, f: int -> real, g: int -> real)
    requires k < n && forall i :: 0 <= i < n && i != k ==> f(i) == g(i)
    ensures Total(n, g) == Total(n, f) + g(k) - f(k)
  {
    if k == n - 1 {
      TotalEqual(n - 1, f, g);
    } else {
      TotalBump(n - 1, k, f, g);
    }
  }

  lemma TotalHasTerm(n: nat, k: nat, f: int -> real)
    requires k < n && forall i :: 0 <= i < n ==> f(i) >= 0.0
    ensures Total(n, f) >= f(k)
  {
    var only := i => if i == k then f(k) else 0.0;
    TotalOnly(n, k, only);
    TotalAtLeast(n, only, f);
  }

  /** Only one term counts. */
  lemma TotalOnly(n: nat, k: nat, f: int -> real)
    requires k < n && forall i :: 0 <= i < n && i != k ==> f(i) == 0.0
    ensures Total(n, f) == f(k)
  {
    TotalBump(n, k, _ => 0.0, f);
    TotalZero(n, _ => 0.0);
  }

  /** A sum over two halves. */
  lemma {:induction false} TotalHalves(l: nat, n: nat, f: int -> real, h: int -> real)
    requires n <= l && forall i :: 0 <= i < n ==> h(i) == f(i) + f(l + i)
    ensures Total(l + n, f) == Total(l, f) - Total(n, f) + Total(n, h)
  {
    if n > 0 {
      TotalHalves(l, n - 1, f, h);
    }
  }

  /** The order of a double sum does not matter. */
  lemma {:induction false} TotalSwap(n: nat, m: nat, f: (int, int) -> real)
    ensures Total(n, i => Total(m, j => f(i, j))) == Total(m, j => Total(n, i => f(i, j)))
  {
    if n == 0 {
      TotalZero(m, j => Total(n, i => f(i, j)));
    } else {
      TotalSwap(n - 1, m, f);
      TotalPlus(m, j => Total(n - 1, i => f(i, j)), j => f(n - 1, j), j => Total(n, i => f(i, j)));
    }
  }

  ghost function RowSum(m: nat, f: (int, int) -> real, i: int): real {
    Total(m, j => f(i, j))
  }

  ghost function ColumnSum(n: nat, f: (int, int) -> real, j: int): real {
    Total(n, i => f(i, j))
  }

  /** Summing the rows of a matrix or its columns. */
  lemma RowsAndColumns(n: nat, m: nat, f: (int, int) -> real, rows: int -> real, columns: int -> real)
    requires forall i :: 0 <= i < n ==> rows(i) == RowSum(m, f, i)
    requires forall j :: 0 <= j < m ==> columns(j) == ColumnSum(n, f, j)
    ensures Total(n, rows) == Total(m, columns)
  {
    TotalSwap(n, m, f);
    TotalEqual(n, rows, i => Total(m, j => f(i, j)));
    TotalEqual(m, columns, j => Total(n, i => f(i, j)));
  }

  lemma RowOnly(m: nat, f: (int, int) -> real, i: int, k: nat)
    requires k < m && forall j :: 0 <= j < m && j != k ==> f(i, j) == 0.0
    ensures RowSum(m, f, i) == f(i, k)
  {
    TotalOnly(m, k, j => f(i, j));
  }

  lemma RowScale(m: nat, f: (int, int) -> real, i: int, c: real, h: int -> real)
    requires forall j :: 0 <= j < m ==> f(i, j) == c * h(j)
    ensures RowSum(m, f, i) == c * Total(m, h)
  {
    TotalScale(m, c, h, j => f(i, j));
  }

  lemma ColumnScale(n: nat, f: (int, int) -> real, j: int, c: real, h: int -> real)
    requires forall i :: 0 <= i < n ==> f(i, j) == c * h(i)
    ensures ColumnSum(n, f, j) == c * Total(n, h)
  {
    TotalScale(n, c, h, i => f(i, j));
  }
}
