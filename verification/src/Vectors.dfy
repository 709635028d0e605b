/** Finite sums and inner products over sequences of reals, indexed by a prefix length. */
module Vectors {

  /** Inner product of the first n entries. */
  ghost function Dot(a: seq<real>, b: seq<real>, n: nat): real
    requires n <= |a| && n <= |b|
  {
    if n == 0 then 0.0 else Dot(a, b, n - 1) + a[n - 1] * b[n - 1]
  }

  function Abs(x: real): real {
    if x < 0.0 then -x else x
  }

  lemma {:induction false} DotAgree(a: seq<real>, b: seq<real>, c: seq<real>, n: nat)
    requires n <= |a| && n <= |b| && n <= |c|
    requires forall i :: 0 <= i < n ==> b[i] == c[i]
    ensures Dot(a, b, n) == Dot(a, c, n)
  {
    if n > 0 {
      DotAgree(a, b, c, n - 1);
    }
  }

  lemma {:induction false} DotCommutes(a: seq<real>, b: seq<real>, n: nat)
    requires n <= |a| && n <= |b|
    ensures Dot(a, b, n) == Dot(b, a, n)
  {
    if n > 0 {
      DotCommutes(a, b, n - 1);
    }
  }

  /** Changing one coordinate changes the product by that coordinate's share only. */
  lemma {:induction false} DotUpdate(a: seq<real>, b: seq<real>, k: nat, v: real, n: nat)
    requires n <= |a| && n <= |b| && k < n
    ensures Dot(a, b[k := v], n) == Dot(a, b, n) + a[k] * (v - b[k])
  {
    if k == n - 1 {
      DotAgree(a, b[k := v], b, n - 1);
      assert a[k] * v == a[k] * b[k] + a[k] * (v - b[k]);
    } else {
      DotUpdate(a, b, k, v, n - 1);
    }
  }

  /** Products are linear in the second vector. */
  lemma {:induction false} DotCombine(a: seq<real>, b: seq<real>, c: seq<real>, s: real, d: seq<real>, n: nat)
    requires n <= |a| && n <= |b| && n <= |c| && n <= |d|
    requires forall i :: 0 <= i < n ==> d[i] == b[i] + s * c[i]
    ensures Dot(a, d, n) == Dot(a, b, n) + s * Dot(a, c, n)
  {
    if n > 0 {
      DotCombine(a, b, c, s, d, n - 1);
      Distribute(a[n - 1], b[n - 1], c[n - 1], d[n - 1], s);
      assert s * Dot(a, c, n) == s * Dot(a, c, n - 1) + s * (a[n - 1] * c[n - 1]);
    }
  }

  lemma {:induction false} DotAdd(a: seq<real>, b: seq<real>, c: seq<real>, d: seq<real>, n: nat)
    requires n <= |a| && n <= |b| && n <= |c| && n <= |d|
    requires forall i :: 0 <= i < n ==> d[i] == b[i] + c[i]
    ensures Dot(a, d, n) == Dot(a, b, n) + Dot(a, c, n)
  {
    if n > 0 {
      DotAdd(a, b, c, d, n - 1);
      assert a[n - 1] * d[n - 1] == a[n - 1] * b[n - 1] + a[n - 1] * c[n - 1];
    }
  }

  lemma Distribute(x: real, b: real, c: real, d: real, s: real)
    requires d == b + s * c
    ensures x * d == x * b + s * (x * c)
  {
  }

  lemma {:induction false} DotZero(a: seq<real>, b: seq<real>, n: nat)
    requires n <= |a| && n <= |b|
    requires forall i :: 0 <= i < n ==> b[i] == 0.0
    ensures Dot(a, b, n) == 0.0
  {
    if n > 0 {
      DotZero(a, b, n - 1);
    }
  }
}
