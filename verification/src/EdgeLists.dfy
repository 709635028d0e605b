/** Edge lists, and the preprocessing that sorts them and drops loops and duplicates. */
module EdgeLists {
  datatype Edge = Edge(u: nat, v: nat) {
    predicate Less(e: Edge) {
      if u == e.u then v < e.v else u < e.u
    }
  }

  /** Strictly ascending, so without duplicates. */
  ghost predicate Ascending(es: seq<Edge>) {
    forall i, j :: 0 <= i < j < |es| ==> es[i].Less(es[j])
  }

  ghost predicate LoopFree(es: seq<Edge>) {
    forall i :: 0 <= i < |es| ==> es[i].u != es[i].v
  }

  ghost predicate Within(es: seq<Edge>, n: nat) {
    forall i :: 0 <= i < |es| ==> es[i].u < n && es[i].v < n
  }

  function Insert(e: Edge, es: seq<Edge>): (r: seq<Edge>)
    requires Ascending(es)
    ensures Ascending(r) && forall x :: x in r <==> x == e || x in es
  {
    if es == [] then [e]
    else if e == es[0] then es
    else if e.Less(es[0]) then [e] + es
    else
      assert es == [es[0]] + es[1..];
      var rest := Insert(e, es[1..]);
      assert forall k :: 1 <= k < |es| ==> es[0].Less(es[k]);
      assert forall x :: x in es[1..] ==> es[0].Less(x);
      assert forall k :: 0 <= k < |rest| ==> rest[k] in rest && es[0].Less(rest[k]);
      [es[0]] + rest
  }

  /** What sorting, removing duplicates and removing loops leaves of an edge list. */
  function Squished(el: seq<Edge>): (r: seq<Edge>)
    ensures Ascending(r) && LoopFree(r)
    ensures forall e :: e in r <==> e in el && e.u != e.v
  {
    if el == [] then []
    else
      assert el == [el[0]] + el[1..];
      var rest := Squished(el[1..]);
      if el[0].u == el[0].v then rest else Insert(el[0], rest)
  }

  /** Number of edges whose source is below u. */
  function Below(es: seq<Edge>, u: nat): (r: nat)
    ensures r <= |es|
  {
    if es == [] then 0 else Below(es[..|es| - 1], u) + (if es[|es| - 1].u < u then 1 else 0)
  }

  /** In an ascending list the edges with a source below u come first. */
  lemma {:induction false} BelowSplits(es: seq<Edge>, u: nat)
    requires Ascending(es)
    ensures forall k :: 0 <= k < |es| ==> (k < Below(es, u) <==> es[k].u < u)
  {
    if es != [] {
      var m := |es| - 1;
      BelowSplits(es[..m], u);
      forall k | 0 <= k < |es|
        ensures k < Below(es, u) <==> es[k].u < u
      {
        if k < m {
          assert es[..m][k] == es[k];
          assert es[k].Less(es[m]);
          if es[m].u < u {
            assert forall j :: 0 <= j < m ==> es[..m][j].u < u by {
              forall j | 0 <= j < m
                ensures es[..m][j].u < u
              {
                assert es[j].Less(es[m]);
              }
            }
            AllBelow(es[..m], u);
          }
        } else if es[m].u < u {
          AllBelow(es, u) by {
            forall j | 0 <= j < |es|
              ensures es[j].u < u
            {
              assert j < m ==> es[j].Less(es[m]);
            }
          }
        }
      }
    }
  }

  lemma {:induction false} AllBelow(es: seq<Edge>, u: nat)
    requires forall j :: 0 <= j < |es| ==> es[j].u < u
    ensures Below(es, u) == |es|
  {
    if es != [] {
      AllBelow(es[..|es| - 1], u);
    }
  }

  lemma {:induction false} BelowMonotone(es: seq<Edge>, u: nat, w: nat)
    requires u <= w
    ensures Below(es, u) <= Below(es, w)
  {
    if es != [] {
      BelowMonotone(es[..|es| - 1], u, w);
    }
  }

  lemma {:induction false} BelowZero(es: seq<Edge>)
    ensures Below(es, 0) == 0
  {
    if es != [] {
      BelowZero(es[..|es| - 1]);
    }
  }
}
