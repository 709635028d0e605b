/** Parent forests over vertex numbers in which links only go down, weak connectivity, and the labelling that both
    component algorithms promise. */
module Components {
  import opened Graphs

  /** Joined by an edge in either direction. */
  ghost predicate Touch(g: Graph, a: nat, b: nat) {
    g.Edge(a, b) || g.Edge(b, a)
  }

  ghost predicate Path(g: Graph, p: seq<nat>) {
    |p| > 0 && forall i :: 0 < i < |p| ==> Touch(g, p[i - 1], p[i])
  }

  ghost predicate Joins(p: seq<nat>, x: nat, y: nat) {
    |p| > 0 && p[0] == x && p[|p| - 1] == y
  }

  ghost predicate Connected(g: Graph, x: nat, y: nat) {
    exists p :: Path(g, p) && Joins(p, x, y)
  }

  lemma ConnectedSelf(g: Graph, x: nat)
    ensures Connected(g, x, x)
  {
    assert Path(g, [x]) && Joins([x], x, x);
  }

  lemma ConnectedTouch(g: Graph, x: nat, y: nat)
    requires Touch(g, x, y)
    ensures Connected(g, x, y)
  {
    assert Path(g, [x, y]) && Joins([x, y], x, y);
  }

  lemma ConnectedTrans(g: Graph, x: nat, y: nat, z: nat)
    requires Connected(g, x, y) && Connected(g, y, z)
    ensures Connected(g, x, z)
  {
    var p :| Path(g, p) && Joins(p, x, y);
    var q :| Path(g, q) && Joins(q, y, z);
    var r := p + q[1..];
    forall i | 0 < i < |r|
      ensures Touch(g, r[i - 1], r[i])
    {
      if i >= |p| {
        assert r[i] == q[i - |p| + 1] && r[i - 1] == q[i - |p|];
      }
    }
    assert Path(g, r) && Joins(r, x, z);
  }

  lemma ConnectedSym(g: Graph, x: nat, y: nat)
    requires Connected(g, x, y)
    ensures Connected(g, y, x)
  {
    var p :| Path(g, p) && Joins(p, x, y);
    var r := seq<nat>(|p|, i requires 0 <= i < |p| => p[|p| - 1 - i]);
    forall i | 0 < i < |r|
      ensures Touch(g, r[i - 1], r[i])
    {
      var j := |p| - i;
      assert Touch(g, p[j - 1], p[j]);
      assert r[i] == p[j - 1] && r[i - 1] == p[j];
    }
    assert Path(g, r) && Joins(r, y, x);
  }

  /** No link goes up. */
  ghost predicate Downward(comp: seq<nat>) {
    forall x :: 0 <= x < |comp| ==> comp[x] <= x
  }

  ghost predicate Forest(g: Graph, comp: seq<nat>) {
    |comp| == |g.out| && Downward(comp) && forall x :: 0 <= x < |comp| ==> Connected(g, x, comp[x])
  }

  ghost function Root(comp: seq<nat>, x: nat): (r: nat)
    requires Downward(comp) && x < |comp|
    ensures r <= x && comp[r] == r
  {
    if comp[x] == x then x else Root(comp, comp[x])
  }

  ghost predicate SameTree(comp: seq<nat>, x: nat, y: nat) {
    Downward(comp) && x < |comp| && y < |comp| && Root(comp, x) == Root(comp, y)
  }

  /** Hooking a root below itself moves its whole tree. */
  lemma {:induction false} HookRoot(comp: seq<nat>, high: nat, low: nat, x: nat)
    requires Downward(comp) && x < |comp| && low < high < |comp| && comp[high] == high
    ensures Downward(comp[high := low])
    ensures Root(comp[high := low], x) == if Root(comp, x) == high then Root(comp, low) else Root(comp, x)
    decreases x
  {
    var comp' := comp[high := low];
    if x == high {
      HookBelow(comp, high, low, low);
    } else if comp[x] != x {
      HookRoot(comp, high, low, comp[x]);
    }
  }

  lemma {:induction false} HookBelow(comp: seq<nat>, high: nat, low: nat, x: nat)
    requires Downward(comp) && x < high < |comp| && low < high && comp[high] == high
    ensures Downward(comp[high := low]) && Root(comp[high := low], x) == Root(comp, x)
    decreases x
  {
    if comp[x] != x {
      HookBelow(comp, high, low, comp[x]);
    }
  }

  /** Pointing a non-root further up its own tree changes no root. */
  lemma {:induction false} Redirect(comp: seq<nat>, n: nat, m: nat, x: nat)
    requires Downward(comp) && x < |comp| && m < n < |comp| && comp[n] != n && Root(comp, m) == Root(comp, n)
    ensures Downward(comp[n := m]) && Root(comp[n := m], x) == Root(comp, x)
    decreases x
  {
    if x == n {
      Redirect(comp, n, m, m);
    } else if comp[x] != x {
      Redirect(comp, n, m, comp[x]);
    }
  }

  lemma {:induction false} RootConnected(g: Graph, comp: seq<nat>, x: nat)
    requires Forest(g, comp) && x < |comp|
    ensures Connected(g, x, Root(comp, x))
    decreases x
  {
    if comp[x] == x {
      ConnectedSelf(g, x);
    } else {
      RootConnected(g, comp, comp[x]);
      ConnectedTrans(g, x, comp[x], Root(comp, x));
    }
  }

  lemma SameTreeConnected(g: Graph, comp: seq<nat>, x: nat, y: nat)
    requires Forest(g, comp) && SameTree(comp, x, y)
    ensures Connected(g, x, y)
  {
    RootConnected(g, comp, x);
    RootConnected(g, comp, y);
    ConnectedSym(g, y, Root(comp, y));
    ConnectedTrans(g, x, Root(comp, x), y);
  }

  /** Every vertex is labelled with the least vertex of its component. */
  ghost predicate MinLabels(g: Graph, comp: seq<nat>) {
    && |comp| == |g.out|
    && (forall v :: 0 <= v < |comp| ==> comp[v] < |comp| && Connected(g, v, comp[v]))
    && (forall v, w :: 0 <= v < |comp| && 0 <= w < |comp| && Connected(g, v, w) ==> comp[v] <= w)
  }

  lemma MinLabelsUnique(g: Graph, a: seq<nat>, b: seq<nat>)
    requires MinLabels(g, a) && MinLabels(g, b)
    ensures a == b
  {
    forall v | 0 <= v < |a|
      ensures a[v] == b[v]
    {
      assert a[v] <= b[v] && b[v] <= a[v];
    }
  }

  ghost predicate Stars(comp: seq<nat>) {
    forall x :: 0 <= x < |comp| ==> comp[x] < |comp| && comp[comp[x]] == comp[x]
  }

  lemma {:induction false} PathLabel(g: Graph, comp: seq<nat>, p: seq<nat>)
    requires Path(g, p) && |comp| == |g.out| && p[0] < |comp|
    requires forall a: nat, b: nat :: g.Edge(a, b) ==> comp[a] == comp[b]
    ensures p[|p| - 1] < |comp| && comp[p[|p| - 1]] == comp[p[0]]
  {
    if |p| > 1 {
      var q := p[..|p| - 1];
      assert Path(g, q) by {
        forall i | 0 < i < |q|
          ensures Touch(g, q[i - 1], q[i])
        {
          assert q[i - 1] == p[i - 1] && q[i] == p[i];
        }
      }
      PathLabel(g, comp, q);
      assert Touch(g, p[|p| - 2], p[|p| - 1]);
    }
  }

  /** A downward forest of stars in which every edge has one label labels every component with its least vertex. */
  lemma StarsAreMinLabels(g: Graph, comp: seq<nat>)
    requires Forest(g, comp) && Stars(comp)
    requires forall a: nat, b: nat :: g.Edge(a, b) ==> comp[a] == comp[b]
    ensures MinLabels(g, comp)
  {
    forall v, w | 0 <= v < |comp| && 0 <= w < |comp| && Connected(g, v, w)
      ensures comp[v] <= w
    {
      var p :| Path(g, p) && Joins(p, v, w);
      PathLabel(g, comp, p);
    }
  }
}
