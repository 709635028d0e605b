/** Coupling pairwise class probabilities into one distribution, by the second method of Wu, Lin and Weng: minimise a
    quadratic form over the probability simplex, one coordinate at a time. */
module Coupling {
  import opened Sums

  /** r[i][j] estimates the probability of class i among classes i and j. */
  ghost predicate Pairwise(r: seq<seq<real>>) {
    && |r| > 0 && (forall i :: 0 <= i < |r| ==> |r[i]| == |r|)
    && (forall i, j :: 0 <= i < |r| && 0 <= j < |r| && i != j ==> 0.0 < r[i][j] < 1.0)
  }

  function R(r: seq<seq<real>>, i: int, j: int): real {
    if 0 <= i < |r| && 0 <= j < |r[i]| && i != j then r[i][j] else 0.0
  }

  function V(p: seq<real>, i: int): real {
    if 0 <= i < |p| then p[i] else 0.0
  }

  ghost function Square(r: seq<seq<real>>, i: int, t: int): real {
    R(r, i, t) * R(r, i, t)
  }

  ghost function Entry(r: seq<seq<real>>, t: int, j: int): real {
    if t == j then Total(|r|, i => Square(r, i, t)) else -(R(r, j, t) * R(r, t, j))
  }

  ghost function Term(r: seq<seq<real>>, p: seq<real>, t: int, j: int): real {
    Entry(r, t, j) * V(p, j)
  }

  /** (Qp)[t]. */
  ghost function Row(r: seq<seq<real>>, p: seq<real>, t: int): real {
    Total(|r|, j => Term(r, p, t, j))
  }

  /** x'Qy. */
  ghost function Bilinear(r: seq<seq<real>>, x: seq<real>, y: seq<real>): real {
    Total(|r|, t => V(x, t) * Row(r, y, t))
  }

  /** p'Qp. */
  ghost function Form(r: seq<seq<real>>, p: seq<real>): real {
    Bilinear(r, p, p)
  }

  // ----- Algebra of the form -----

  ghost function Product(r: seq<seq<real>>, x: seq<real>, y: seq<real>, t: int, j: int): real {
    V(x, t) * Term(r, y, t, j)
  }

  lemma BilinearSymmetric(r: seq<seq<real>>, x: seq<real>, y: seq<real>)
    ensures Bilinear(r, x, y) == Bilinear(r, y, x)
  {
    hide Total, RowSum, ColumnSum, V;
    var f := (t, j) => Product(r, x, y, t, j);
    var rows, columns := t => V(x, t) * Row(r, y, t), j => V(y, j) * Row(r, x, j);
    forall t | 0 <= t < |r|
      ensures rows(t) == RowSum(|r|, f, t)
    {
      RowScale(|r|, f, t, V(x, t), j => Term(r, y, t, j));
    }
    forall j | 0 <= j < |r|
      ensures columns(j) == ColumnSum(|r|, f, j)
    {
      forall t | 0 <= t < |r|
        ensures f(t, j) == V(y, j) * Term(r, x, j, t)
      {
        assert Entry(r, t, j) == Entry(r, j, t);
        Commute(V(x, t), Entry(r, t, j), V(y, j));
      }
      ColumnScale(|r|, f, j, V(y, j), t => Term(r, x, j, t));
    }
    RowsAndColumns(|r|, |r|, f, rows, columns);
  }

  lemma Commute(a: real, b: real, c: real)
    ensures a * (b * c) == c * (b * a)
  {
  }

  /** q = c * (p + s * x). */
  ghost predicate Combined(p: seq<real>, x: seq<real>, s: real, c: real, q: seq<real>) {
    forall i :: V(q, i) == c * (V(p, i) + s * V(x, i))
  }

  lemma RowCombined(r: seq<seq<real>>, p: seq<real>, x: seq<real>, s: real, c: real, q: seq<real>, t: int)
    requires Combined(p, x, s, c, q)
    ensures Row(r, q, t) == c * (Row(r, p, t) + s * Row(r, x, t))
  {
    hide Total, V, Term;
    var a, b := j => Term(r, p, t, j), j => Term(r, x, t, j);
    var sb, sum := j => s * b(j), j => a(j) + s * b(j);
    TotalScale(|r|, s, b, sb);
    TotalPlus(|r|, a, sb, sum);
    var all := j => Term(r, q, t, j);
    forall j | 0 <= j < |r|
      ensures all(j) == c * sum(j)
    {
      TermCombined(r, p, x, s, c, q, t, j);
    }
    TotalScale(|r|, c, sum, all);
  }

  lemma TermCombined(r: seq<seq<real>>, p: seq<real>, x: seq<real>, s: real, c: real, q: seq<real>, t: int, j: int)
    requires Combined(p, x, s, c, q)
    ensures Term(r, q, t, j) == c * (Term(r, p, t, j) + s * Term(r, x, t, j))
  {
    hide V, Entry;
    Distribute(Entry(r, t, j), V(p, j), V(x, j), V(q, j), s, c);
  }

  lemma Distribute(e: real, p: real, x: real, q: real, s: real, c: real)
    requires q == c * (p + s * x)
    ensures e * q == c * (e * p + s * (e * x))
  {
    assert e * (p + s * x) == e * p + s * (e * x);
    assert e * (c * (p + s * x)) == c * (e * (p + s * x));
  }

  lemma BilinearCombined(r: seq<seq<real>>, p: seq<real>, x: seq<real>, s: real, c: real, q: seq<real>, y: seq<real>)
    requires Combined(p, x, s, c, q)
    ensures Bilinear(r, y, q) == c * (Bilinear(r, y, p) + s * Bilinear(r, y, x))
  {
    hide Total, V, Row;
    var a, b := t => V(y, t) * Row(r, p, t), t => V(y, t) * Row(r, x, t);
    var sb, sum := t => s * b(t), t => a(t) + s * b(t);
    TotalScale(|r|, s, b, sb);
    TotalPlus(|r|, a, sb, sum);
    var all := t => V(y, t) * Row(r, q, t);
    forall t | 0 <= t < |r|
      ensures all(t) == c * sum(t)
    {
      RowCombined(r, p, x, s, c, q, t);
      Distribute(V(y, t), Row(r, p, t), Row(r, x, t), Row(r, q, t), s, c);
    }
    TotalScale(|r|, c, sum, all);
  }

  lemma FormCombined(r: seq<seq<real>>, p: seq<real>, x: seq<real>, s: real, c: real, q: seq<real>)
    requires Combined(p, x, s, c, q)
    ensures Form(r, q) == c * c * (Form(r, p) + 2.0 * s * Bilinear(r, x, p) + s * s * Form(r, x))
  {
    hide Bilinear, V;
    BilinearCombined(r, p, x, s, c, q, q);
    BilinearSymmetric(r, q, p);
    BilinearSymmetric(r, q, x);
    BilinearCombined(r, p, x, s, c, q, p);
    BilinearCombined(r, p, x, s, c, q, x);
    BilinearSymmetric(r, p, x);
    Collect(Form(r, p), Bilinear(r, x, p), Form(r, x), s, c);
  }

  lemma Collect(pp: real, xp: real, xx: real, s: real, c: real)
    ensures c * (c * (pp + s * xp) + s * (c * (xp + s * xx))) == c * c * (pp + 2.0 * s * xp + s * s * xx)
  {
    assert c * (pp + s * xp) + s * (c * (xp + s * xx)) == c * (pp + s * xp + s * (xp + s * xx));
    assert s * (xp + s * xx) == s * xp + s * s * xx;
  }

  // ----- The form is a sum of squares -----

  ghost function Gap(r: seq<seq<real>>, p: seq<real>, t: int, j: int): real {
    R(r, j, t) * V(p, t) - R(r, t, j) * V(p, j)
  }

  ghost function Half(r: seq<seq<real>>, p: seq<real>, t: int, j: int): real {
    Square(r, j, t) * (V(p, t) * V(p, t)) - R(r, j, t) * R(r, t, j) * (V(p, t) * V(p, j))
  }

  /** The contribution of j to p[t] (Qp)[t], with the diagonal entry spread over the squares it consists of. */
  lemma HalfTerm(r: seq<seq<real>>, p: seq<real>, t: int, j: int)
    ensures j == t ==> Half(r, p, t, j) == 0.0 && Square(r, j, t) == 0.0
    ensures j != t ==> Half(r, p, t, j) == V(p, t) * V(p, t) * Square(r, j, t) + V(p, t) * Term(r, p, t, j)
  {
    if j != t {
      Commute(V(p, t), R(r, j, t) * R(r, t, j), V(p, j));
    }
  }

  lemma RowSplit(r: seq<seq<real>>, p: seq<real>, t: int, off: int -> real)
    requires 0 <= t < |r| && forall j :: 0 <= j < |r| ==> off(j) == if j == t then 0.0 else Term(r, p, t, j)
    ensures Row(r, p, t) == Total(|r|, off) + Entry(r, t, t) * V(p, t)
  {
    hide Total, Entry, V;
    TotalBump(|r|, t, off, j => Term(r, p, t, j));
  }

  lemma HalfRow(r: seq<seq<real>>, p: seq<real>, t: int, f: (int, int) -> real)
    requires 0 <= t < |r| && forall j :: 0 <= j < |r| ==> f(t, j) == Half(r, p, t, j)
    ensures V(p, t) * Row(r, p, t) == RowSum(|r|, f, t)
  {
    hide Total, V, Term, Half, Square, RowSum, Entry, Row;
    var x := V(p, t);
    var squares := j => Square(r, j, t);
    var off := j => if j == t then 0.0 else Term(r, p, t, j);
    RowSplit(r, p, t, off);
    DiagonalEntry(r, t, squares);
    HalfTotals(r, p, t, f, x, squares, off);
    Spread(x, Total(|r|, off), Total(|r|, squares));
  }

  lemma HalfTotals(r: seq<seq<real>>, p: seq<real>, t: int, f: (int, int) -> real, x: real, squares: int -> real,
                   off: int -> real)
    requires 0 <= t < |r| && x == V(p, t) && forall j :: 0 <= j < |r| ==> f(t, j) == Half(r, p, t, j)
    requires forall j :: 0 <= j < |r| ==> squares(j) == Square(r, j, t)
    requires forall j :: 0 <= j < |r| ==> off(j) == if j == t then 0.0 else Term(r, p, t, j)
    ensures RowSum(|r|, f, t) == x * Total(|r|, off) + x * x * Total(|r|, squares)
  {
    hide Total, V, Term, Half, Square, RowSum;
    var spread, offs, all := j => x * x * squares(j), j => x * off(j), j => f(t, j);
    TotalScale(|r|, x * x, squares, spread);
    TotalScale(|r|, x, off, offs);
    forall j | 0 <= j < |r|
      ensures all(j) == spread(j) + offs(j)
    {
      HalfTerm(r, p, t, j);
    }
    TotalPlus(|r|, spread, offs, all);
    RowScale(|r|, f, t, 1.0, all);
  }

  lemma DiagonalEntry(r: seq<seq<real>>, t: int, squares: int -> real)
    requires forall j :: 0 <= j < |r| ==> squares(j) == Square(r, j, t)
    ensures Entry(r, t, t) == Total(|r|, squares)
  {
    hide Total, Square;
    TotalEqual(|r|, squares, i => Square(r, i, t));
  }

  lemma DiagonalTerm(r: seq<seq<real>>, p: seq<real>, t: int)
    ensures Term(r, p, t, t) == Entry(r, t, t) * V(p, t)
  {
  }

  lemma Spread(x: real, off: real, diagonal: real)
    ensures x * (off + diagonal * x) == x * off + x * x * diagonal
  {
  }

  /** Twice the form is the sum of the squared disagreements of all pairs of classes. */
  lemma SumOfSquares(r: seq<seq<real>>, p: seq<real>, gaps: int -> real)
    requires forall t :: 0 <= t < |r| ==> gaps(t) == Total(|r|, j => Gap(r, p, t, j) * Gap(r, p, t, j))
    ensures 2.0 * Form(r, p) == Total(|r|, gaps)
  {
    hide Total, RowSum, ColumnSum, Half, Row, V, Gap;
    var f := (t, j) => Half(r, p, t, j);
    var rows, columns := t => V(p, t) * Row(r, p, t), j => ColumnSum(|r|, f, j);
    forall t | 0 <= t < |r|
      ensures rows(t) == RowSum(|r|, f, t) && gaps(t) == rows(t) + columns(t)
    {
      HalfRow(r, p, t, f);
      GapRow(r, p, t, f);
    }
    RowsAndColumns(|r|, |r|, f, rows, columns);
    TotalPlus(|r|, rows, columns, gaps);
  }

  lemma GapRow(r: seq<seq<real>>, p: seq<real>, t: int, f: (int, int) -> real)
    requires forall i, j :: f(i, j) == Half(r, p, i, j)
    ensures Total(|r|, j => Gap(r, p, t, j) * Gap(r, p, t, j)) == RowSum(|r|, f, t) + ColumnSum(|r|, f, t)
  {
    hide Total, Half, Gap;
    forall j
      ensures Gap(r, p, t, j) * Gap(r, p, t, j) == f(t, j) + f(j, t)
    {
      GapSquare(r, p, t, j);
    }
    TotalPlus(|r|, j => f(t, j), j => f(j, t), j => Gap(r, p, t, j) * Gap(r, p, t, j));
  }

  lemma GapSquare(r: seq<seq<real>>, p: seq<real>, t: int, j: int)
    ensures Gap(r, p, t, j) * Gap(r, p, t, j) == Half(r, p, t, j) + Half(r, p, j, t)
  {
    SquareOfDifference(R(r, j, t), V(p, t), R(r, t, j), V(p, j));
  }

  lemma SquareOfDifference(a: real, x: real, b: real, y: real)
    ensures (a * x - b * y) * (a * x - b * y) == (a * a * (x * x) - a * b * (x * y))
          + (b * b * (y * y) - b * a * (y * x))
  {
    var u, v := a * x, b * y;
    assert (u - v) * (u - v) == u * u - u * v + (v * v - v * u);
    assert u * u == a * a * (x * x) && v * v == b * b * (y * y);
    assert u * v == a * b * (x * y) && v * u == b * a * (y * x);
  }

  lemma FormNotNegative(r: seq<seq<real>>, p: seq<real>)
    ensures Form(r, p) >= 0.0
  {
    hide Form, Gap, Total;
    var gaps := t => Total(|r|, j => Gap(r, p, t, j) * Gap(r, p, t, j));
    SumOfSquares(r, p, gaps);
    forall t | 0 <= t < |r|
      ensures gaps(t) >= 0.0
    {
      TotalNotNegative(|r|, j => Gap(r, p, t, j) * Gap(r, p, t, j));
    }
    TotalNotNegative(|r|, gaps);
  }

  // ----- One coordinate step -----

  ghost predicate OnSimplex(p: seq<real>) {
    (forall i :: 0 <= i < |p| ==> p[i] >= 0.0) && Total(|p|, i => V(p, i)) == 1.0
  }

  ghost predicate Positive(p: seq<real>) {
    forall i :: 0 <= i < |p| ==> p[i] > 0.0
  }

  function Unit(k: nat, t: nat): (e: seq<real>)
    ensures |e| == k && forall i :: 0 <= i < k ==> e[i] == if i == t then 1.0 else 0.0
  {
    seq(k, i => if i == t then 1.0 else 0.0)
  }

  /** Division, made total. */
  function Over(x: real, m: real): real {
    if m == 0.0 then 0.0 else x / m
  }

  /** Division as the iteration uses it: never by zero or less. */
  function Quotient(x: real, m: real): (q: real)
    requires m > 0.0
    ensures q == Over(x, m)
  {
    x / m
  }

  /** p with coordinate t raised by `diff` and everything scaled back to sum one. */
  function Stepped(p: seq<real>, t: nat, diff: real): (q: seq<real>)
    ensures |q| == |p| && forall i :: 0 <= i < |p| ==> q[i] == Over(if i == t then p[i] + diff else p[i], 1.0 + diff)
  {
    seq(|p|, i requires 0 <= i < |p| => Over(if i == t then p[i] + diff else p[i], 1.0 + diff))
  }

  function NextRow(row: real, e: real, d: real): real {
    Over(row + d * e, 1.0 + d)
  }

  lemma SteppedAt(p: seq<real>, t: nat, diff: real, i: int)
    requires 1.0 + diff != 0.0 && t < |p|
    ensures V(Stepped(p, t, diff), i) == 1.0 / (1.0 + diff) * (V(p, i) + diff * V(Unit(|p|, t), i))
  {
    if 0 <= i < |p| {
      Divide(if i == t then p[i] + diff else p[i], 1.0 + diff);
    }
  }

  lemma SteppedCombined(p: seq<real>, t: nat, diff: real)
    requires 1.0 + diff != 0.0 && t < |p|
    ensures Combined(p, Unit(|p|, t), diff, 1.0 / (1.0 + diff), Stepped(p, t, diff))
  {
    hide V, Unit, Stepped;
    var c, x, q := 1.0 / (1.0 + diff), Unit(|p|, t), Stepped(p, t, diff);
    forall i
      ensures V(q, i) == c * (V(p, i) + diff * V(x, i))
    {
      SteppedAt(p, t, diff, i);
    }
  }

  lemma Divide(x: real, y: real)
    requires y != 0.0
    ensures Over(x, y) == 1.0 / y * x
  {
  }

  lemma UnitForms(r: seq<seq<real>>, p: seq<real>, t: nat)
    requires t < |r| == |p|
    ensures Bilinear(r, Unit(|p|, t), p) == Row(r, p, t) && Form(r, Unit(|p|, t)) == Entry(r, t, t)
    ensures forall j :: Row(r, Unit(|p|, t), j) == Entry(r, j, t)
  {
    hide Total, Entry;
    var x := Unit(|p|, t);
    TotalOnly(|r|, t, i => V(x, i) * Row(r, p, i));
    forall j
      ensures Row(r, x, j) == Entry(r, j, t)
    {
      TotalOnly(|r|, t, i => Term(r, x, j, i));
    }
    TotalOnly(|r|, t, i => V(x, i) * Row(r, x, i));
  }

  /** How the iteration updates p'Qp. */
  function NextForm(s: real, row: real, e: real, d: real): real {
    Over(Over(Raised(s, row, e, d), 1.0 + d), 1.0 + d)
  }

  function Raised(s: real, row: real, e: real, d: real): real {
    s + d * (d * e + 2.0 * row)
  }

  /** The incremental updates of Qp and p'Qp are exact. */
  lemma UpdatesExact(r: seq<seq<real>>, p: seq<real>, t: nat, diff: real)
    requires t < |r| == |p| && 1.0 + diff != 0.0
    ensures forall j :: Row(r, Stepped(p, t, diff), j) == NextRow(Row(r, p, j), Entry(r, t, j), diff)
    ensures Form(r, Stepped(p, t, diff)) == NextForm(Form(r, p), Row(r, p, t), Entry(r, t, t), diff)
  {
    hide Row, Bilinear, Form, Total, Over, NextForm, Entry;
    EntrySymmetric(r, t);
    var c, x, q := 1.0 / (1.0 + diff), Unit(|p|, t), Stepped(p, t, diff);
    SteppedCombined(p, t, diff);
    UnitForms(r, p, t);
    FormCombined(r, p, x, diff, c, q);
    TwoDivisions(Form(r, p), Row(r, p, t), Entry(r, t, t), diff, c);
    forall j
      ensures Row(r, q, j) == NextRow(Row(r, p, j), Entry(r, t, j), diff)
    {
      RowCombined(r, p, x, diff, c, q, j);
      assert Row(r, x, j) == Entry(r, j, t) == Entry(r, t, j);
      Divide(Row(r, p, j) + diff * Entry(r, t, j), 1.0 + diff);
    }
  }

  lemma EntrySymmetric(r: seq<seq<real>>, t: int)
    ensures forall j :: Entry(r, t, j) == Entry(r, j, t)
  {
  }

  lemma TwoDivisions(pp: real, row: real, e: real, d: real, c: real)
    requires 1.0 + d != 0.0 && c == 1.0 / (1.0 + d)
    ensures c * c * (pp + 2.0 * d * row + d * d * e) == NextForm(pp, row, e, d)
  {
    var x := pp + d * (d * e + 2.0 * row);
    assert pp + 2.0 * d * row + d * d * e == x;
    Divide(x, 1.0 + d);
    Divide(c * x, 1.0 + d);
    assert c * (c * x) == c * c * x;
  }

  function Mul(x: real, y: real): real {
    x * y
  }

  lemma MulPositive(x: real, y: real)
    requires x > 0.0 && y > 0.0
    ensures Mul(x, y) > 0.0
  {
  }

  lemma MulNegated(x: real, y: real)
    ensures Mul(-x, -y) == Mul(x, y)
  {
  }

  lemma MulSquare(d: real)
    ensures if d == 0.0 then Mul(d, d) == 0.0 else Mul(d, d) > 0.0
  {
    if d > 0.0 {
      hide Mul;
      MulPositive(d, d);
    } else if d < 0.0 {
      hide Mul;
      MulPositive(-d, -d);
      MulNegated(d, d);
    }
  }

  lemma SquareSign(r: seq<seq<real>>, i: int, t: nat)
    ensures Square(r, i, t) >= 0.0
    ensures Pairwise(r) && 0 <= i < |r| && t < |r| && i != t ==> Square(r, i, t) > 0.0
  {
    MulSquare(R(r, i, t));
    assert Square(r, i, t) == Mul(R(r, i, t), R(r, i, t));
  }

  lemma DiagonalPositive(r: seq<seq<real>>, t: nat)
    requires Pairwise(r) && |r| > 1 && t < |r|
    ensures Entry(r, t, t) > 0.0
  {
    hide Square, Total, Entry, Pairwise;
    var squares := i => Square(r, i, t);
    var j := if t == 0 then 1 else 0;
    forall i | 0 <= i < |r|
      ensures squares(i) >= 0.0
    {
      SquareSign(r, i, t);
    }
    SquareSign(r, j, t);
    TotalHasTerm(|r|, j, squares);
    DiagonalEntry(r, t, squares);
  }

  /** The off-diagonal part of a row pulls down. */
  lemma RowBelowDiagonal(r: seq<seq<real>>, p: seq<real>, t: nat)
    requires Pairwise(r) && |r| > 1 && t < |r| == |p| && Positive(p)
    ensures Row(r, p, t) < Entry(r, t, t) * p[t]
  {
    hide Total;
    var row := j => Term(r, p, t, j);
    var up := j => if j == t then 0.0 else -Term(r, p, t, j);
    forall j | 0 <= j < |r|
      ensures up(j) >= 0.0 && (j != t ==> up(j) > 0.0)
    {
      if j != t {
        OffDiagonal(r, p, t, j);
      }
    }
    var k := if t == 0 then 1 else 0;
    TotalHasTerm(|r|, k, up);
    var down := j => -1.0 * up(j);
    TotalScale(|r|, -1.0, up, down);
    TotalBump(|r|, t, down, row);
    DiagonalTerm(r, p, t);
  }

  lemma OffDiagonal(r: seq<seq<real>>, p: seq<real>, t: nat, j: nat)
    requires Pairwise(r) && t < |r| == |p| && j < |p| && j != t && Positive(p)
    ensures Term(r, p, t, j) < 0.0
  {
    var a := r[j][t] * r[t][j];
    assert a > 0.0 && p[j] > 0.0;
    assert a * p[j] > 0.0;
    assert -a * p[j] == -(a * p[j]);
  }

  /** The step the iteration takes at coordinate t. */
  ghost function Diff(r: seq<seq<real>>, p: seq<real>, t: nat): real {
    if Entry(r, t, t) == 0.0 then 0.0 else (Form(r, p) - Row(r, p, t)) / Entry(r, t, t)
  }

  lemma StepDenominator(r: seq<seq<real>>, p: seq<real>, t: nat)
    requires Pairwise(r) && |r| > 1 && t < |r| == |p| && Positive(p) && OnSimplex(p)
    ensures p[t] <= 1.0 && p[t] + Diff(r, p, t) > 0.0 && 1.0 + Diff(r, p, t) > 0.0
    ensures Diff(r, p, t) * Entry(r, t, t) == Form(r, p) - Row(r, p, t)
  {
    hide Row, Form, Total, Entry;
    DiagonalPositive(r, t);
    RowBelowDiagonal(r, p, t);
    FormNotNegative(r, p);
    TotalHasTerm(|p|, t, i => V(p, i));
    var e, d := Entry(r, t, t), Diff(r, p, t);
    assert e * d == Form(r, p) - Row(r, p, t);
    PositiveFactor(e, p[t], d, Form(r, p) - Row(r, p, t));
  }

  lemma PositiveFactor(e: real, x: real, d: real, y: real)
    requires e > 0.0 && e * d == y && e * x + y > 0.0
    ensures x + d > 0.0
  {
    assert e * (x + d) == e * x + y;
  }

  lemma SteppedSum(p: seq<real>, t: nat, diff: real)
    requires t < |p| && 1.0 + diff > 0.0 && Total(|p|, i => V(p, i)) == 1.0
    ensures Total(|p|, i => V(Stepped(p, t, diff), i)) == 1.0
  {
    hide Total, V, Unit, Stepped;
    SteppedCombined(p, t, diff);
    UnitSum(|p|, t);
    SumCombined(p, Unit(|p|, t), diff, 1.0 / (1.0 + diff), Stepped(p, t, diff), |p|);
  }

  lemma SumCombined(p: seq<real>, x: seq<real>, s: real, c: real, q: seq<real>, n: nat)
    requires Combined(p, x, s, c, q)
    ensures Total(n, i => V(q, i)) == c * (Total(n, i => V(p, i)) + s * Total(n, i => V(x, i)))
  {
    hide Total, V;
    var a, b := i => V(p, i), i => V(x, i);
    var sb, sum, all := i => s * b(i), i => a(i) + s * b(i), i => V(q, i);
    TotalScale(n, s, b, sb);
    TotalPlus(n, a, sb, sum);
    TotalScale(n, c, sum, all);
  }

  lemma UnitSum(k: nat, t: nat)
    requires t < k
    ensures Total(k, i => V(Unit(k, t), i)) == 1.0
  {
    TotalOnly(k, t, i => V(Unit(k, t), i));
  }

  /** A step keeps the distribution a positive one, and the form goes strictly down unless nothing moves. */
  lemma StepKeeps(r: seq<seq<real>>, p: seq<real>, t: nat)
    requires Pairwise(r) && |r| > 1 && t < |r| == |p| && Positive(p) && OnSimplex(p)
    ensures Entry(r, t, t) > 0.0 && 1.0 + Diff(r, p, t) > 0.0
    ensures var q := Stepped(p, t, Diff(r, p, t)); Positive(q) && OnSimplex(q)
    ensures var q := Stepped(p, t, Diff(r, p, t));
            if Diff(r, p, t) == 0.0 then Form(r, q) == Form(r, p) else Form(r, q) < Form(r, p)
  {
    hide Row, Form, Total, Entry, NextForm, Diff;
    DiagonalPositive(r, t);
    StepDenominator(r, p, t);
    var d := Diff(r, p, t);
    SteppedSum(p, t, d);
    forall i | 0 <= i < |p|
      ensures Stepped(p, t, d)[i] > 0.0
    {
      PositiveRatio(if i == t then p[i] + d else p[i], 1.0 + d);
    }
    UpdatesExact(r, p, t, d);
    FormNotNegative(r, p);
    Descends(Form(r, p), Row(r, p, t), Entry(r, t, t), d);
  }

  /** The step at coordinate t is the one that, but for the scaling, brings (Qp)[t] to what p'Qp was. */
  lemma StepBalances(r: seq<seq<real>>, p: seq<real>, t: nat)
    requires Pairwise(r) && |r| > 1 && t < |r| == |p| && Positive(p) && OnSimplex(p)
    ensures var d := Diff(r, p, t); Row(r, Stepped(p, t, d), t) * (1.0 + d) == Form(r, p)
    ensures var d := Diff(r, p, t);
      forall i :: 0 <= i < |p| ==> Stepped(p, t, d)[i] * (1.0 + d) == if i == t then p[i] + d else p[i]
  {
    hide Row, Form, Total, Entry, Diff, NextForm;
    StepDenominator(r, p, t);
    UpdatesExact(r, p, t, Diff(r, p, t));
  }

  lemma PositiveRatio(x: real, y: real)
    requires x > 0.0 && y > 0.0
    ensures Over(x, y) > 0.0
  {
  }

  /** How far the form goes down. */
  lemma Drop(s: real, row: real, e: real, d: real)
    requires d * e == s - row
    ensures Mul(Mul(s, 1.0 + d), 1.0 + d) == Raised(s, row, e, d) + Mul(Mul(d, d), s + e)
  {
    assert s * (1.0 + d) * (1.0 + d) == s + 2.0 * (s * d) + s * d * d;
    assert d * (d * e + 2.0 * row) == d * s + d * row;
    assert d * d * (s + e) == s * d * d + d * (d * e);
    assert d * (s - row) == d * s - d * row;
  }

  lemma SquarePositive(d: real, y: real)
    requires d != 0.0 && y > 0.0
    ensures Mul(Mul(d, d), y) > 0.0
  {
    MulSquare(d);
    MulPositive(Mul(d, d), y);
  }

  lemma DropBelow(s: real, row: real, e: real, d: real)
    requires s >= 0.0 && e > 0.0 && d != 0.0 && d * e == s - row
    ensures Raised(s, row, e, d) < Mul(Mul(s, 1.0 + d), 1.0 + d)
  {
    hide Mul, Raised;
    Drop(s, row, e, d);
    SquarePositive(d, s + e);
  }

  lemma Descends(s: real, row: real, e: real, d: real)
    requires s >= 0.0 && e > 0.0 && 1.0 + d > 0.0 && d * e == s - row
    ensures if d == 0.0 then NextForm(s, row, e, d) == s else NextForm(s, row, e, d) < s
  {
    if d == 0.0 {
      assert Raised(s, row, e, d) == s;
    } else {
      hide Raised, Mul, Over;
      DropBelow(s, row, e, d);
      DivideBelow(Raised(s, row, e, d), Mul(s, 1.0 + d), 1.0 + d);
      DivideBelow(Over(Raised(s, row, e, d), 1.0 + d), s, 1.0 + d);
    }
  }

  lemma DivideBelow(x: real, y: real, m: real)
    requires m > 0.0 && x < Mul(y, m)
    ensures Over(x, m) < y
  {
    var z := x / m;
    assert z * m == x;
    if z >= y {
      Monotone(y, z, m);
    }
  }

  lemma Monotone(y: real, z: real, m: real)
    requires m > 0.0 && y <= z
    ensures y * m <= z * m
  {
  }

  // ----- What the stopping test certifies -----

  lemma FormExpansion(r: seq<seq<real>>, p: seq<real>, q: seq<real>, x: seq<real>)
    requires |p| == |q| == |x| == |r| && forall i :: 0 <= i < |r| ==> x[i] == q[i] - p[i]
    ensures Form(r, q) == Form(r, p) + 2.0 * Bilinear(r, x, p) + Form(r, x)
  {
    hide Form, Bilinear;
    FormCombined(r, p, x, 1.0, 1.0, q);
  }

  /** When every (Qp)[t] is within eps of p'Qp, no distribution has a form smaller by more than 2 eps. */
  lemma NearMinimum(r: seq<seq<real>>, p: seq<real>, q: seq<real>, eps: real)
    requires |p| == |q| == |r| && OnSimplex(p) && OnSimplex(q)
    requires forall t :: 0 <= t < |r| ==> -eps <= Row(r, p, t) - Form(r, p) <= eps
    ensures Form(r, p) <= Form(r, q) + 2.0 * eps
  {
    hide Row, Form, Total;
    var x := seq(|r|, i requires 0 <= i < |r| => q[i] - p[i]);
    FormExpansion(r, p, q, x);
    FormNotNegative(r, x);
    var xs := t => V(x, t) * Row(r, p, t);
    var qs, ps := t => V(q, t) * Row(r, p, t), t => V(p, t) * Row(r, p, t);
    TotalPlus(|r|, xs, ps, qs);
    FormIsTotal(r, p, ps);
    var low := Form(r, p) - eps;
    var lows := t => low * V(q, t);
    TotalScale(|r|, low, t => V(q, t), lows);
    forall t | 0 <= t < |r|
      ensures lows(t) <= qs(t)
    {
      Weighted(V(q, t), low, Row(r, p, t));
    }
    TotalAtLeast(|r|, lows, qs);
  }

  lemma FormIsTotal(r: seq<seq<real>>, p: seq<real>, ps: int -> real)
    requires forall t :: 0 <= t < |r| ==> ps(t) == V(p, t) * Row(r, p, t)
    ensures Form(r, p) == Total(|r|, ps)
  {
    hide Total;
    TotalEqual(|r|, ps, t => V(p, t) * Row(r, p, t));
  }

  lemma Weighted(w: real, low: real, x: real)
    requires w >= 0.0 && low <= x
    ensures low * w <= w * x
  {
  }

  // ----- The iteration -----

  ghost predicate IsMatrix(r: seq<seq<real>>, Q: array2<real>)
    reads Q
  {
    Q.Length0 == Q.Length1 == |r| && forall t, j :: 0 <= t < |r| && 0 <= j < |r| ==> Q[t, j] == Entry(r, t, j)
  }

  ghost predicate RowsDone(r: seq<seq<real>>, Q: array2<real>, t: nat)
    reads Q
    requires Q.Length0 == Q.Length1 == |r|
  {
    forall i, j :: 0 <= i < t && i < |r| && 0 <= j < |r| ==> Q[i, j] == Entry(r, i, j)
  }

  method BuildMatrix(r: seq<seq<real>>) returns (Q: array2<real>)
    requires Pairwise(r)
    ensures fresh(Q) && IsMatrix(r, Q)
  {
    hide Total, Entry, Pairwise;
    Q := new real[|r|, |r|];
    for t := 0 to |r|
      invariant RowsDone(r, Q, t)
    {
      BuildRow(r, Q, t);
    }
  }

  /** One row: the entries left of the diagonal are copied from above it. */
  method BuildRow(r: seq<seq<real>>, Q: array2<real>, t: nat)
    requires Pairwise(r) && Q.Length0 == Q.Length1 == |r| && t < |r| && RowsDone(r, Q, t)
    modifies Q
    ensures RowsDone(r, Q, t + 1)
  {
    hide Total;
    ghost var squares := i => Square(r, i, t);
    DiagonalEntry(r, t, squares);
    TotalSteps(squares, 0);
    Q[t, t] := 0.0;
    for j := 0 to t
      invariant RowsDone(r, Q, t) && Q[t, t] == Total(j, squares)
      invariant forall i :: 0 <= i < j ==> Q[t, i] == Entry(r, t, i)
    {
      TotalSteps(squares, j);
      Q[t, t] := Q[t, t] + r[j][t] * r[j][t];
      Q[t, j] := Q[j, t];
    }
    TotalSteps(squares, t);
    for j := t + 1 to |r|
      invariant RowsDone(r, Q, t) && Q[t, t] == Total(j, squares)
      invariant forall i :: 0 <= i < j && i != t ==> Q[t, i] == Entry(r, t, i)
    {
      TotalSteps(squares, j);
      Q[t, t] := Q[t, t] + r[j][t] * r[j][t];
      Q[t, j] := -r[j][t] * r[t][j];
    }
  }

  /** The kept products are those of the current p. */
  ghost predicate Exact(r: seq<seq<real>>, p: seq<real>, Qp: seq<real>, pQp: real) {
    |p| == |Qp| == |r| && pQp == Form(r, p) && forall t :: 0 <= t < |r| ==> Qp[t] == Row(r, p, t)
  }

  method Products(r: seq<seq<real>>, Q: array2<real>, p: array<real>, Qp: array<real>) returns (pQp: real)
    requires IsMatrix(r, Q) && p.Length == Qp.Length == |r| && p != Qp
    modifies Qp
    ensures Exact(r, p[..], Qp[..], pQp)
  {
    hide Total, Entry, Row, Form;
    ghost var now := p[..];
    ghost var parts := t => V(now, t) * Row(r, now, t);
    pQp := 0.0;
    TotalSteps(parts, 0);
    for t := 0 to |r|
      invariant p[..] == now && pQp == Total(t, parts) && forall i :: 0 <= i < t ==> Qp[i] == Row(r, now, i)
    {
      var row := RowProduct(r, Q, p, t);
      Qp[t] := row;
      TotalSteps(parts, t);
      pQp := pQp + p[t] * Qp[t];
    }
    FormIsTotal(r, now, parts);
  }

  method RowProduct(r: seq<seq<real>>, Q: array2<real>, p: array<real>, t: nat) returns (row: real)
    requires IsMatrix(r, Q) && p.Length == |r| && t < |r|
    ensures row == Row(r, p[..], t)
  {
    hide Total, Entry;
    ghost var now := p[..];
    ghost var terms := j => Term(r, now, t, j);
    row := 0.0;
    TotalSteps(terms, 0);
    for j := 0 to |r|
      invariant row == Total(j, terms)
    {
      TotalSteps(terms, j);
      row := row + Q[t, j] * p[j];
    }
  }

  method MaxError(Qp: array<real>, pQp: real) returns (m: real)
    ensures m >= 0.0 && forall t :: 0 <= t < Qp.Length ==> -m <= Qp[t] - pQp <= m
    ensures m == 0.0 || exists t :: 0 <= t < Qp.Length && (Qp[t] - pQp == m || pQp - Qp[t] == m)
  {
    m := 0.0;
    for t := 0 to Qp.Length
      invariant m >= 0.0 && forall i :: 0 <= i < t ==> -m <= Qp[i] - pQp <= m
      invariant m == 0.0 || exists i :: 0 <= i < t && (Qp[i] - pQp == m || pQp - Qp[i] == m)
    {
      var error := if Qp[t] - pQp < 0.0 then pQp - Qp[t] else Qp[t] - pQp;
      if error > m {
        m := error;
      }
    }
  }

  /** The update at one coordinate, in place. */
  method Coordinate(r: seq<seq<real>>, Q: array2<real>, p: array<real>, Qp: array<real>, pQp: real, t: nat)
    returns (next: real)
    requires Pairwise(r) && |r| > 1 && IsMatrix(r, Q) && t < |r| && p != Qp
    requires Exact(r, p[..], Qp[..], pQp) && Positive(p[..]) && OnSimplex(p[..])
    modifies p, Qp
    ensures p[..] == Stepped(old(p[..]), t, Diff(r, old(p[..]), t)) && Exact(r, p[..], Qp[..], next)
    ensures Positive(p[..]) && OnSimplex(p[..])
    ensures if Diff(r, old(p[..]), t) == 0.0 then next == pQp else next < pQp
  {
    hide Total, Entry, Row, Form, OnSimplex, Pairwise, Stepped, Over, NextRow, NextForm, Quotient, Diff;
    StepKeeps(r, p[..], t);
    var diff := Quotient(-Qp[t] + pQp, Q[t, t]);
    DiffIs(r, p[..], t);
    p[t] := p[t] + diff;
    next := FormUpdate(pQp, Qp[t], Q[t, t], diff);
    Rescale(Q, p, Qp, t, diff);
    assert p[..] == Stepped(old(p[..]), t, diff);
    StepExact(r, old(p[..]), old(Qp[..]), pQp, t, diff, p[..], Qp[..], next);
  }

  lemma StepExact(r: seq<seq<real>>, p: seq<real>, Qp: seq<real>, pQp: real, t: nat, diff: real,
                  p': seq<real>, Qp': seq<real>, next: real)
    requires Exact(r, p, Qp, pQp) && t < |r| && 1.0 + diff > 0.0 && p' == Stepped(p, t, diff)
    requires next == NextForm(pQp, Qp[t], Entry(r, t, t), diff)
    requires |Qp'| == |r| && forall j :: 0 <= j < |r| ==> Qp'[j] == NextRow(Qp[j], Entry(r, t, j), diff)
    ensures Exact(r, p', Qp', next)
  {
    hide Total, Entry, Row, Form, Stepped, NextRow, NextForm;
    UpdatesExact(r, p, t, diff);
  }

  method FormUpdate(s: real, row: real, e: real, d: real) returns (next: real)
    requires 1.0 + d > 0.0
    ensures next == NextForm(s, row, e, d)
  {
    next := Quotient(Quotient(s + d * (d * e + 2.0 * row), 1.0 + d), 1.0 + d);
  }

  lemma DiffIs(r: seq<seq<real>>, p: seq<real>, t: nat)
    ensures Diff(r, p, t) == Over(-Row(r, p, t) + Form(r, p), Entry(r, t, t))
  {
    hide Row, Form, Entry;
  }

  method Rescale(Q: array2<real>, p: array<real>, Qp: array<real>, t: nat, diff: real)
    requires Q.Length0 == Q.Length1 == p.Length == Qp.Length && t < p.Length && p != Qp && 1.0 + diff > 0.0
    modifies p, Qp
    ensures forall j :: 0 <= j < p.Length ==> p[j] == Over(old(p[j]), 1.0 + diff)
    ensures forall j :: 0 <= j < p.Length ==> Qp[j] == NextRow(old(Qp[j]), Q[t, j], diff)
  {
    hide Over, Quotient;
    for j := 0 to p.Length
      invariant forall i :: 0 <= i < j ==> p[i] == Over(old(p[i]), 1.0 + diff)
      invariant forall i :: j <= i < p.Length ==> p[i] == old(p[i]) && Qp[i] == old(Qp[i])
      invariant forall i :: 0 <= i < j ==> Qp[i] == NextRow(old(Qp[i]), Q[t, i], diff)
    {
      Qp[j] := Quotient(Qp[j] + diff * Q[t, j], 1.0 + diff);
      p[j] := Quotient(p[j], 1.0 + diff);
    }
  }

  /** What the steps at the first n coordinates, one after the other, make of p. */
  ghost function Round(r: seq<seq<real>>, p: seq<real>, n: nat): (q: seq<real>)
    ensures |q| == |p|
  {
    if n == 0 then p else
      var q := Round(r, p, n - 1);
      Stepped(q, n - 1, Diff(r, q, n - 1))
  }

  lemma RoundSteps(r: seq<seq<real>>, p: seq<real>, n: nat)
    ensures Round(r, p, 0) == p
    ensures var q := Round(r, p, n); Round(r, p, n + 1) == Stepped(q, n, Diff(r, q, n))
  {
  }

  /** One round over all coordinates. */
  method Sweep(r: seq<seq<real>>, Q: array2<real>, p: array<real>, Qp: array<real>, pQp: real)
    requires Pairwise(r) && |r| > 1 && IsMatrix(r, Q) && p != Qp
    requires Exact(r, p[..], Qp[..], pQp) && Positive(p[..]) && OnSimplex(p[..])
    modifies p, Qp
    ensures p[..] == Round(r, old(p[..]), |r|)
    ensures Positive(p[..]) && OnSimplex(p[..]) && Form(r, p[..]) <= old(Form(r, p[..]))
  {
    hide Total, Entry, Row, Form, OnSimplex, Pairwise, Positive, Round, Stepped, Diff;
    var form := pQp;
    ghost var start := p[..];
    RoundSteps(r, start, 0);
    for t := 0 to |r|
      invariant Exact(r, p[..], Qp[..], form) && Positive(p[..]) && OnSimplex(p[..]) && form <= pQp
      invariant p[..] == Round(r, start, t)
    {
      RoundSteps(r, start, t);
      form := Coordinate(r, Q, p, Qp, form, t);
    }
  }

  lemma SomeClass(r: seq<seq<real>>)
    requires Pairwise(r)
    ensures |r| > 0
  {
  }

  function Even(k: nat): (p: seq<real>)
    requires k > 0
    ensures |p| == k && forall i :: 0 <= i < k ==> p[i] == 1.0 / k as real
  {
    var share := 1.0 / k as real;
    seq(k, _ => share)
  }

  lemma EvenIsSimplex(k: nat)
    requires k > 0
    ensures Positive(Even(k)) && OnSimplex(Even(k))
  {
    hide Total;
    var share, p := 1.0 / k as real, Even(k);
    TotalScale(k, share, _ => 1.0, i => V(p, i));
    TotalOnes(k);
  }

  lemma Certified(r: seq<seq<real>>, p: seq<real>, Qp: seq<real>, pQp: real, eps: real)
    requires Exact(r, p, Qp, pQp) && OnSimplex(p) && forall t :: 0 <= t < |r| ==> -eps <= Qp[t] - pQp <= eps
    ensures forall q :: |q| == |r| && OnSimplex(q) ==> Form(r, p) <= Form(r, q) + 2.0 * eps
  {
    hide Total, Entry, Row, Form, OnSimplex;
    forall q | |q| == |r| && OnSimplex(q)
      ensures Form(r, p) <= Form(r, q) + 2.0 * eps
    {
      NearMinimum(r, p, q, eps);
    }
  }

  /** With a single class there is nothing to couple. */
  lemma Single(r: seq<seq<real>>, p: seq<real>)
    ensures |r| == 1 ==> Form(r, p) == 0.0 && Row(r, p, 0) == 0.0
  {
    if |r| == 1 {
      assert Entry(r, 0, 0) == 0.0 by {
        TotalZero(1, i => Square(r, i, 0));
      }
      TotalZero(1, j => Term(r, p, 0, j));
      TotalZero(1, t => V(p, t) * Row(r, p, t));
    }
  }

  /** What m full rounds make of the uniform distribution. */
  ghost function Rounds(r: seq<seq<real>>, m: nat): (p: seq<real>)
    requires |r| > 0
    ensures |p| == |r|
  {
    if m == 0 then Even(|r|) else Round(r, Rounds(r, m - 1), |r|)
  }

  /** Every (Qp)[t] is closer to p'Qp than the tolerance. */
  ghost predicate Settled(r: seq<seq<real>>, p: seq<real>) {
    |r| > 0 && forall t :: 0 <= t < |r| ==>
      -(0.005 / |r| as real) < Row(r, p, t) - Form(r, p) < 0.005 / |r| as real
  }

  lemma ErrorDecides(r: seq<seq<real>>, p: seq<real>, Qp: seq<real>, pQp: real, error: real, eps: real)
    requires Exact(r, p, Qp, pQp) && |r| > 0 && eps == 0.005 / |r| as real
    requires error >= 0.0 && forall t :: 0 <= t < |r| ==> -error <= Qp[t] - pQp <= error
    requires error == 0.0 || exists t :: 0 <= t < |r| && (Qp[t] - pQp == error || pQp - Qp[t] == error)
    ensures error < eps <==> Settled(r, p)
  {
    hide Row, Form;
  }

  /** p is the uniform distribution after `rounds` full rounds of steps. Before each of them the tolerance was not met;
      either it is met now, or as many rounds were made as there may be: one hundred, or one for every class if these
      are more. */
  ghost predicate Stopped(r: seq<seq<real>>, p: seq<real>, rounds: nat, converged: bool) {
    && |r| > 0 && p == Rounds(r, rounds) && (forall m: nat :: m < rounds ==> !Settled(r, Rounds(r, m)))
    && (if converged then Settled(r, p) && (rounds < 100 || rounds < |r|)
        else rounds == if |r| > 100 then |r| else 100)
  }

  lemma NextRound(r: seq<seq<real>>, m: nat)
    requires |r| > 0
    ensures Rounds(r, 0) == Even(|r|) && Rounds(r, m + 1) == Round(r, Rounds(r, m), |r|)
  {
  }

  /** One pass of the loop: the stopping test and, if it fails, a round. */
  method Pass(r: seq<seq<real>>, Q: array2<real>, p: array<real>, Qp: array<real>, eps: real) returns (settled: bool)
    requires Pairwise(r) && |r| > 0 && IsMatrix(r, Q) && p.Length == Qp.Length == |r| && p != Qp
    requires Positive(p[..]) && OnSimplex(p[..]) && eps == 0.005 / |r| as real
    modifies p, Qp
    ensures Positive(p[..]) && OnSimplex(p[..]) && Form(r, p[..]) <= old(Form(r, p[..]))
    ensures settled <==> Settled(r, old(p[..]))
    ensures p[..] == if settled then old(p[..]) else Round(r, old(p[..]), |r|)
    ensures settled ==> forall q :: |q| == |r| && OnSimplex(q) ==> Form(r, p[..]) <= Form(r, q) + 2.0 * eps
    ensures |r| == 1 ==> settled
  {
    hide Total, Entry, Row, Form, OnSimplex, Pairwise, Positive, Round, Settled;
    var pQp := Products(r, Q, p, Qp);
    var error := MaxError(Qp, pQp);
    Single(r, p[..]);
    ErrorDecides(r, p[..], Qp[..], pQp, error, eps);
    settled := error < eps;
    if settled {
      Certified(r, p[..], Qp[..], pQp, eps);
    } else {
      Sweep(r, Q, p, Qp, pQp);
    }
  }

  /** The whole iteration: it ends on a positive distribution whose form is at most the uniform one's; if it ended by
      its stopping test, no distribution does better by more than twice the tolerance. */
  method MulticlassProbability(r: seq<seq<real>>) returns (p: array<real>, rounds: nat, converged: bool)
    requires Pairwise(r)
    ensures p.Length == |r| && Positive(p[..]) && OnSimplex(p[..])
    ensures Stopped(r, p[..], rounds, converged) && (!converged ==> rounds == if |r| > 100 then |r| else 100)
    ensures |r| == 1 ==> converged
    ensures Form(r, p[..]) <= Form(r, Even(|r|))
    ensures converged ==>
              forall q :: |q| == |r| && OnSimplex(q) ==> Form(r, p[..]) <= Form(r, q) + 0.01 / |r| as real
  {
    hide Total, Entry, Row, Form, OnSimplex, Pairwise, Positive, Rounds, Round, Settled;
    SomeClass(r);
    var Q := BuildMatrix(r);
    var share := 1.0 / |r| as real;
    p := new real[|r|](_ => share);
    var Qp := new real[|r|];
    EvenIsSimplex(|r|);
    NextRound(r, 0);
    ghost var start := Even(|r|);
    assert p[..] == start;
    var eps := 0.005 / |r| as real;
    var maxIter := if |r| > 100 then |r| else 100;
    rounds, converged := 0, false;
    while rounds < maxIter
      invariant IsMatrix(r, Q) && p != Qp && fresh(p) && fresh(Qp) && p.Length == Qp.Length == |r|
      invariant Positive(p[..]) && OnSimplex(p[..]) && Form(r, p[..]) <= Form(r, start)
      invariant rounds <= maxIter && p[..] == Rounds(r, rounds)
      invariant forall m: nat :: m < rounds ==> !Settled(r, Rounds(r, m))
      invariant |r| == 1 ==> rounds == 0
    {
      NextRound(r, rounds);
      converged := Pass(r, Q, p, Qp, eps);
      if converged {
        return;
      }
      rounds := rounds + 1;
    }
  }
}
