/** Building a weighted graph from an edge list: counting, prefix sums, atomic insertion, and squishing every row down
    to its distinct neighbours, each with its least weight. */
module CsrBuild {
  import opened PrefixSums
  import opened SliceSort

  datatype NodeWeight = NodeWeight(v: nat, w: int)

  datatype WeightedEdge = WeightedEdge(u: nat, d: NodeWeight)

  /** An entry that some row of the neighbour array must hold. */
  datatype Arc = Arc(row: nat, d: NodeWeight)

  /** What one edge inserts. */
  function ArcsOf(e: WeightedEdge, symmetrize: bool, transpose: bool): seq<Arc> {
    (if symmetrize || (!symmetrize && !transpose) then [Arc(e.u, e.d)] else [])
    + (if symmetrize || (!symmetrize && transpose) then [Arc(e.d.v, NodeWeight(e.u, e.d.w))] else [])
  }

  ghost function AllArcs(el: seq<WeightedEdge>, symmetrize: bool, transpose: bool): seq<Arc> {
    if el == [] then []
    else AllArcs(el[..|el| - 1], symmetrize, transpose) + ArcsOf(el[|el| - 1], symmetrize, transpose)
  }

  lemma {:induction false} ArcsAre(el: seq<WeightedEdge>, symmetrize: bool, transpose: bool, row: nat, v: nat, w: int)
    ensures Arc(row, NodeWeight(v, w)) in AllArcs(el, symmetrize, transpose) <==>
              ((symmetrize || !transpose) && WeightedEdge(row, NodeWeight(v, w)) in el) ||
              ((symmetrize || transpose) && WeightedEdge(v, NodeWeight(row, w)) in el)
  {
    if el != [] {
      var m := |el| - 1;
      assert el == el[..m] + [el[m]];
      ArcsAre(el[..m], symmetrize, transpose, row, v, w);
    }
  }

  // ----- Rows -----

  /** The entries for row r, in order. */
  ghost function RowOf(arcs: seq<Arc>, r: nat): seq<NodeWeight> {
    if arcs == [] then []
    else
      var rest := RowOf(arcs[..|arcs| - 1], r);
      if arcs[|arcs| - 1].row == r then rest + [arcs[|arcs| - 1].d] else rest
  }

  lemma RowStep(arcs: seq<Arc>, i: nat, r: nat)
    requires i < |arcs|
    ensures RowOf(arcs[..i + 1], r) ==
            if arcs[i].row == r then RowOf(arcs[..i], r) + [arcs[i].d] else RowOf(arcs[..i], r)
  {
    assert arcs[..i + 1][..i] == arcs[..i];
  }

  lemma {:induction false} RowMembers(arcs: seq<Arc>, r: nat, d: NodeWeight)
    ensures multiset(RowOf(arcs, r))[d] == multiset(arcs)[Arc(r, d)]
  {
    if arcs != [] {
      var m := |arcs| - 1;
      assert arcs == arcs[..m] + [arcs[m]];
      RowMembers(arcs[..m], r, d);
    }
  }

  /** Two orders of the same insertions give rows with the same entries. */
  lemma SameRows(a: seq<Arc>, b: seq<Arc>, r: nat)
    requires multiset(a) == multiset(b)
    ensures multiset(RowOf(a, r)) == multiset(RowOf(b, r)) && |RowOf(a, r)| == |RowOf(b, r)|
  {
    forall d: NodeWeight
      ensures multiset(RowOf(a, r))[d] == multiset(RowOf(b, r))[d]
    {
      RowMembers(a, r, d);
      RowMembers(b, r, d);
    }
    assert multiset(RowOf(a, r)) == multiset(RowOf(b, r));
    assert |multiset(RowOf(a, r))| == |RowOf(a, r)|;
  }

  lemma {:induction false} RowGrows(arcs: seq<Arc>, i: nat, j: nat, r: nat)
    requires i <= j <= |arcs|
    ensures |RowOf(arcs[..i], r)| <= |RowOf(arcs[..j], r)|
    ensures i < j && arcs[i].row == r ==> |RowOf(arcs[..i], r)| < |RowOf(arcs[..j], r)|
  {
    if i < j {
      RowGrows(arcs, i, j - 1, r);
      RowStep(arcs, j - 1, r);
    }
  }

  // ----- Counting and inserting -----

  ghost predicate InBounds(el: seq<WeightedEdge>, n: nat) {
    forall i :: 0 <= i < |el| ==> el[i].u < n && el[i].d.v < n
  }

  lemma {:induction false} ArcsInBounds(el: seq<WeightedEdge>, n: nat, symmetrize: bool, transpose: bool)
    requires InBounds(el, n)
    ensures forall i :: 0 <= i < |AllArcs(el, symmetrize, transpose)| ==>
              AllArcs(el, symmetrize, transpose)[i].row < n && AllArcs(el, symmetrize, transpose)[i].d.v < n
  {
    if el != [] {
      ArcsInBounds(el[..|el| - 1], n, symmetrize, transpose);
    }
  }

  ghost predicate Degrees(arcs: seq<Arc>, degrees: seq<nat>) {
    forall r: nat :: r < |degrees| ==> degrees[r] == |RowOf(arcs, r)|
  }

  method CountDegrees(el: seq<WeightedEdge>, n: nat, symmetrize: bool, transpose: bool) returns (degrees: array<nat>)
    requires InBounds(el, n)
    ensures fresh(degrees) && degrees.Length == n && Degrees(AllArcs(el, symmetrize, transpose), degrees[..])
  {
    degrees := new nat[n](_ => 0);
    assert el[..0] == [];
    for i := 0 to |el|
      invariant Degrees(AllArcs(el[..i], symmetrize, transpose), degrees[..])
    {
      var e := el[i];
      assert el[..i + 1][..i] == el[..i];
      CountedArcs(AllArcs(el[..i], symmetrize, transpose), e, symmetrize, transpose);
      if symmetrize || (!symmetrize && !transpose) {
        degrees[e.u] := degrees[e.u] + 1;
      }
      if symmetrize || (!symmetrize && transpose) {
        degrees[e.d.v] := degrees[e.d.v] + 1;
      }
    }
    assert el[..|el|] == el;
  }

  lemma CountedArcs(arcs: seq<Arc>, e: WeightedEdge, symmetrize: bool, transpose: bool)
    ensures forall r: nat :: |RowOf(arcs + ArcsOf(e, symmetrize, transpose), r)| == |RowOf(arcs, r)|
              + (if (symmetrize || !transpose) && e.u == r then 1 else 0)
              + (if (symmetrize || transpose) && e.d.v == r then 1 else 0)
  {
    var more := ArcsOf(e, symmetrize, transpose);
    forall r: nat
      ensures |RowOf(arcs + more, r)| == |RowOf(arcs, r)| + (if (symmetrize || !transpose) && e.u == r then 1 else 0)
              + (if (symmetrize || transpose) && e.d.v == r then 1 else 0)
    {
      assert (arcs + more)[..|arcs|] == arcs;
      RowStep(arcs + more, |arcs|, r);
      assert |more| == 2 ==> (arcs + more)[..|arcs| + 2] == arcs + more;
      assert |more| == 1 ==> (arcs + more)[..|arcs| + 1] == arcs + more;
      if |more| == 2 {
        RowStep(arcs + more, |arcs| + 1, r);
      }
    }
  }

  /** The stretch of row r up to `high` holds the entries inserted so far. */
  ghost predicate FilledTo(arcs: seq<Arc>, r: nat, low: nat, high: nat, neighs: seq<NodeWeight>) {
    high == low + |RowOf(arcs, r)| && high <= |neighs| && neighs[low..high] == RowOf(arcs, r)
  }

  ghost predicate Filled(arcs: seq<Arc>, degrees: seq<nat>, offsets: seq<nat>, neighs: seq<NodeWeight>) {
    && |offsets| == |degrees| + 1 && |neighs| == SumTo(degrees, |degrees|)
    && forall r: nat :: r < |degrees| ==> FilledTo(arcs, r, SumTo(degrees, r), offsets[r], neighs)
  }

  /** The insertion of one arc, wherever its row has got to. */
  lemma InsertOne(arcs: seq<Arc>, i: nat, degrees: seq<nat>, offsets: seq<nat>, neighs: seq<NodeWeight>)
    requires i < |arcs| && Degrees(arcs, degrees) && arcs[i].row < |degrees|
    requires Filled(arcs[..i], degrees, offsets, neighs)
    ensures offsets[arcs[i].row] < |neighs|
    ensures Filled(arcs[..i + 1], degrees, offsets[arcs[i].row := offsets[arcs[i].row] + 1],
                   neighs[offsets[arcs[i].row] := arcs[i].d])
  {
    hide SumTo, RowOf;
    var d := arcs[i].row;
    assert arcs[..|arcs|] == arcs;
    RowGrows(arcs, i, |arcs|, d);
    SumGrows(degrees, d, |degrees|);
    assert FilledTo(arcs[..i], d, SumTo(degrees, d), offsets[d], neighs);
    var next, placed := offsets[d := offsets[d] + 1], neighs[offsets[d] := arcs[i].d];
    forall r: nat | r < |degrees|
      ensures FilledTo(arcs[..i + 1], r, SumTo(degrees, r), next[r], placed)
    {
      RowStep(arcs, i, r);
      assert FilledTo(arcs[..i], r, SumTo(degrees, r), offsets[r], neighs);
      if r != d {
        RowGrows(arcs, i, |arcs|, r);
        if r < d {
          SumGrows(degrees, r, d);
        } else {
          SumGrows(degrees, d, r);
        }
        assert placed[SumTo(degrees, r)..offsets[r]] == neighs[SumTo(degrees, r)..offsets[r]];
      } else {
        assert placed[SumTo(degrees, d)..offsets[d] + 1] == neighs[SumTo(degrees, d)..offsets[d]] + [arcs[i].d];
      }
    }
  }

  /** Row r of a neighbour array. */
  ghost predicate HasRow(index: seq<nat>, neighs: seq<NodeWeight>, r: nat, row: seq<NodeWeight>) {
    r + 1 < |index| && index[r] <= index[r + 1] <= |neighs| && neighs[index[r]..index[r + 1]] == row
  }

  /** Counts, sums, and inserts the arcs in the order in which the threads happen to reserve their places. */
  method MakeCSR(el: seq<WeightedEdge>, n: nat, symmetrize: bool, transpose: bool, order: seq<Arc>, blockSize: nat)
    returns (index: seq<nat>, neighs: array<NodeWeight>)
    requires InBounds(el, n) && blockSize > 0 && multiset(order) == multiset(AllArcs(el, symmetrize, transpose))
    ensures fresh(neighs) && |index| == n + 1 && Indexes(index, neighs.Length)
    ensures forall r: nat :: r < n ==> HasRow(index, neighs[..], r, RowOf(order, r))
  {
    hide RowOf, SumTo, AllArcs;
    var degrees := CountDegrees(el, n, symmetrize, transpose);
    ghost var numbers := degrees[..];
    SameDegrees(el, n, symmetrize, transpose, order, numbers);
    var offsets := ParallelPrefixSum(degrees, blockSize);
    index := offsets[..];
    neighs := new NodeWeight[offsets[n]];
    InsertStarts(numbers, offsets[..], neighs[..]);
    assert order[..0] == [];
    for i := 0 to |order|
      invariant Filled(order[..i], numbers, offsets[..], neighs[..]) && offsets.Length == n + 1
    {
      InsertOne(order, i, numbers, offsets[..], neighs[..]);
      ghost var before, placed := offsets[..], neighs[..];
      var row := order[i].row;
      neighs[offsets[row]] := order[i].d;
      assert neighs[..] == placed[before[row] := order[i].d];
      offsets[row] := offsets[row] + 1;
      assert offsets[..] == before[row := before[row] + 1];
    }
    assert order[..|order|] == order;
    RowsFull(order, numbers, index, offsets[..], neighs[..]);
  }

  lemma SameDegrees(el: seq<WeightedEdge>, n: nat, symmetrize: bool, transpose: bool, order: seq<Arc>,
                    degrees: seq<nat>)
    requires InBounds(el, n) && multiset(order) == multiset(AllArcs(el, symmetrize, transpose))
    requires |degrees| == n && Degrees(AllArcs(el, symmetrize, transpose), degrees)
    ensures Degrees(order, degrees) && forall i :: 0 <= i < |order| ==> order[i].row < n
  {
    hide RowOf, AllArcs;
    forall r: nat | r < n
      ensures degrees[r] == |RowOf(order, r)|
    {
      SameRows(order, AllArcs(el, symmetrize, transpose), r);
    }
    ArcsInBounds(el, n, symmetrize, transpose);
    forall i | 0 <= i < |order|
      ensures order[i].row < n
    {
      assert order[i] in multiset(order);
      assert order[i] in AllArcs(el, symmetrize, transpose);
    }
  }

  lemma InsertStarts(degrees: seq<nat>, offsets: seq<nat>, neighs: seq<NodeWeight>)
    requires |offsets| == |degrees| + 1 && |neighs| == SumTo(degrees, |degrees|)
    requires forall i :: 0 <= i <= |degrees| ==> offsets[i] == SumTo(degrees, i)
    ensures Filled([], degrees, offsets, neighs)
  {
    hide SumTo;
    forall r: nat | r < |degrees|
      ensures FilledTo([], r, SumTo(degrees, r), offsets[r], neighs)
    {
      SumGrows(degrees, r, |degrees|);
    }
  }

  /** The index climbs from zero to the number of entries. */
  ghost predicate Indexes(index: seq<nat>, total: nat) {
    && |index| > 0 && index[0] == 0 && index[|index| - 1] == total
    && forall r: nat, s: nat :: r <= s < |index| ==> index[r] <= index[s]
  }

  lemma SumsIndex(d: seq<nat>, index: seq<nat>)
    requires |index| == |d| + 1 && forall i :: 0 <= i <= |d| ==> index[i] == SumTo(d, i)
    ensures Indexes(index, SumTo(d, |d|))
  {
    hide SumTo;
    SumZero(d);
    forall r: nat, s: nat | r <= s < |index|
      ensures index[r] <= index[s]
    {
      if r < s {
        SumGrows(d, r, s);
      }
    }
  }

  lemma RowsFull(arcs: seq<Arc>, degrees: seq<nat>, index: seq<nat>, offsets: seq<nat>, neighs: seq<NodeWeight>)
    requires Degrees(arcs, degrees) && Filled(arcs, degrees, offsets, neighs) && |index| == |degrees| + 1
    requires forall i :: 0 <= i <= |degrees| ==> index[i] == SumTo(degrees, i)
    ensures Indexes(index, |neighs|) && forall r: nat :: r < |degrees| ==> HasRow(index, neighs, r, RowOf(arcs, r))
  {
    hide SumTo, RowOf;
    SumsIndex(degrees, index);
    forall r: nat | r < |degrees|
      ensures HasRow(index, neighs, r, RowOf(arcs, r))
    {
      assert FilledTo(arcs, r, SumTo(degrees, r), offsets[r], neighs);
      SumNext(degrees, r);
    }
  }

  // ----- Squishing a row -----

  predicate Less(a: NodeWeight, b: NodeWeight) {
    if a.v == b.v then a.w < b.w else a.v < b.v
  }

  ghost predicate Ordered(s: seq<NodeWeight>) {
    forall i, j :: 0 <= i < j < |s| ==> !Less(s[j], s[i])
  }

  function InsertOrdered(x: NodeWeight, s: seq<NodeWeight>): (r: seq<NodeWeight>)
    requires Ordered(s)
    ensures Ordered(r) && multiset(r) == multiset(s) + multiset{x}
  {
    if s == [] || Less(x, s[0]) then [x] + s
    else
      assert s == [s[0]] + s[1..];
      var rest := InsertOrdered(x, s[1..]);
      HeadFirst(x, s, rest);
      [s[0]] + rest
  }

  lemma HeadFirst(x: NodeWeight, s: seq<NodeWeight>, rest: seq<NodeWeight>)
    requires Ordered(s) && s != [] && !Less(x, s[0]) && multiset(rest) == multiset(s[1..]) + multiset{x}
    ensures forall k :: 0 <= k < |rest| ==> !Less(rest[k], s[0])
  {
    forall k | 0 <= k < |rest|
      ensures !Less(rest[k], s[0])
    {
      assert rest[k] in multiset(rest);
      if rest[k] != x {
        assert rest[k] in multiset(s[1..]);
        var i :| 0 <= i < |s[1..]| && s[1..][i] == rest[k];
        assert !Less(s[i + 1], s[0]);
      }
    }
  }

  function Sort(s: seq<NodeWeight>): (r: seq<NodeWeight>)
    ensures Ordered(r) && multiset(r) == multiset(s)
  {
    if s == [] then []
    else
      assert s == s[..|s| - 1] + [s[|s| - 1]];
      InsertOrdered(s[|s| - 1], Sort(s[..|s| - 1]))
  }

  /** d is an entry of the list and the lightest one for its vertex. */
  ghost predicate Lightest(s: seq<NodeWeight>, d: NodeWeight) {
    d in s && forall e :: e in s && e.v == d.v ==> d.w <= e.w
  }

  ghost predicate Ascends(s: seq<NodeWeight>) {
    forall i, j :: 0 <= i < j < |s| ==> s[i].v < s[j].v
  }

  /** Of every run of entries for the same vertex the first, as the equality that ignores weights has it. */
  function Unique(s: seq<NodeWeight>): (r: seq<NodeWeight>)
    requires Ordered(s)
    ensures Ascends(r) && |r| <= |s| && (s != [] ==> r != [] && r[|r| - 1].v == s[|s| - 1].v)
  {
    if |s| <= 1 then s
    else
      var m := |s| - 1;
      var rest := Unique(s[..m]);
      if s[m].v == s[m - 1].v then rest else rest + [s[m]]
  }

  lemma {:induction false} UniqueIsLightest(s: seq<NodeWeight>)
    requires Ordered(s)
    ensures forall d :: d in Unique(s) <==> Lightest(s, d)
  {
    if |s| > 1 {
      var m := |s| - 1;
      UniqueIsLightest(s[..m]);
      assert s == s[..m] + [s[m]] && s[m - 1] in s[..m];
      forall d
        ensures d in Unique(s) <==> Lightest(s, d)
      {
        LightestStep(s, m, d);
      }
    }
  }

  lemma LightestStep(s: seq<NodeWeight>, m: nat, d: NodeWeight)
    requires Ordered(s) && |s| == m + 1 && m > 0
    ensures s[m].v == s[m - 1].v ==> (Lightest(s, d) <==> Lightest(s[..m], d))
    ensures s[m].v != s[m - 1].v ==> (Lightest(s, d) <==> Lightest(s[..m], d) || d == s[m])
  {
    var front := s[..m];
    assert s == front + [s[m]];
    assert forall e :: e in s <==> e in front || e == s[m];
    forall e | e in front
      ensures e.v <= s[m].v && (e.v == s[m].v ==> e.w <= s[m].w)
      ensures s[m].v != s[m - 1].v ==> e.v < s[m].v
    {
      var i :| 0 <= i < m && front[i] == e;
      assert !Less(s[m], s[i]);
      assert i < m - 1 ==> !Less(s[m - 1], s[i]);
      assert !Less(s[m], s[m - 1]);
    }
    assert s[m - 1] in front;
  }

  function RemoveNode(s: seq<NodeWeight>, n: nat): (r: seq<NodeWeight>)
    requires Ascends(s)
    ensures Ascends(r) && |r| <= |s| && forall d :: d in r <==> d in s && d.v != n
  {
    if s == [] then []
    else
      var m := |s| - 1;
      assert s == s[..m] + [s[m]];
      var rest := RemoveNode(s[..m], n);
      assert forall k :: 0 <= k < |rest| ==> rest[k] in rest && rest[k].v < s[m].v;
      if s[m].v == n then rest else rest + [s[m]]
  }

  function Squish(s: seq<NodeWeight>, n: nat): (r: seq<NodeWeight>)
    ensures Ascends(r) && |r| <= |s|
  {
    assert |multiset(Sort(s))| == |s|;
    RemoveNode(Unique(Sort(s)), n)
  }

  /** A squished row: ascending, without the vertex itself, and every neighbour with its least weight. */
  lemma SquishIs(s: seq<NodeWeight>, n: nat)
    ensures forall d :: d in Squish(s, n) <==> d.v != n && Lightest(s, d)
  {
    var t := Sort(s);
    UniqueIsLightest(t);
    assert forall d :: d in s <==> d in multiset(s);
    assert forall d :: d in t <==> d in multiset(t);
    assert forall d :: d in t <==> d in s;
  }

  // ----- Squishing all rows -----

  method WriteRow(neighs: array<NodeWeight>, low: nat, r: seq<NodeWeight>)
    requires low + |r| <= neighs.Length
    modifies neighs
    ensures neighs[low..low + |r|] == r && neighs[..low] == old(neighs[..low])
          && neighs[low + |r|..] == old(neighs[low + |r|..])
  {
    for k := 0 to |r|
      invariant neighs[low..low + k] == r[..k] && neighs[..low] == old(neighs[..low])
      invariant neighs[low + |r|..] == old(neighs[low + |r|..])
    {
      neighs[low + k] := r[k];
    }
    assert r[..|r|] == r;
  }

  /** Sort, drop repeated neighbours, drop the vertex itself. */
  method SquishRow(neighs: array<NodeWeight>, low: nat, high: nat, n: nat) returns (end: nat)
    requires low <= high <= neighs.Length
    modifies neighs
    ensures low <= end <= high && neighs[low..end] == Squish(old(neighs[low..high]), n)
    ensures neighs[..low] == old(neighs[..low]) && neighs[high..] == old(neighs[high..])
  {
    hide Squish;
    var r := Squish(neighs[low..high], n);
    end := low + |r|;
    WriteRow(neighs, low, r);
    assert neighs[high..] == neighs[low + |r|..][high - end..];
    assert old(neighs[high..]) == old(neighs[low + |r|..])[high - end..];
  }

  /** The front of row r is squished. */
  ghost predicate FrontIs(index: seq<nat>, neighs: seq<NodeWeight>, r: nat, n: nat, row: seq<NodeWeight>) {
    r + 1 < |index| && index[r] + n <= index[r + 1] <= |neighs| && neighs[index[r]..index[r] + n] == row
  }

  /** Sorts and squishes every row in place, and notes the new lengths. */
  method SquishFronts(index: seq<nat>, neighs: array<NodeWeight>, n: nat, ghost rows: seq<seq<NodeWeight>>)
    returns (diffs: array<nat>)
    requires |index| == n + 1 && Indexes(index, neighs.Length) && |rows| == n
    requires forall r: nat :: r < n ==> HasRow(index, neighs[..], r, rows[r])
    modifies neighs
    ensures fresh(diffs) && diffs.Length == n
    ensures forall r: nat :: r < n ==>
              diffs[r] == |Squish(rows[r], r)| && FrontIs(index, neighs[..], r, diffs[r], Squish(rows[r], r))
  {
    hide Squish;
    diffs := new nat[n];
    for i := 0 to n
      invariant forall r: nat :: i <= r < n ==> HasRow(index, neighs[..], r, rows[r])
      invariant forall r: nat :: r < i ==>
                diffs[r] == |Squish(rows[r], r)| && FrontIs(index, neighs[..], r, diffs[r], Squish(rows[r], r))
    {
      ghost var before := neighs[..];
      assert HasRow(index, before, i, rows[i]);
      assert neighs[index[i]..index[i + 1]] == before[index[i]..index[i + 1]];
      var end := SquishRow(neighs, index[i], index[i + 1], i);
      diffs[i] := end - index[i];
      ghost var after := neighs[..];
      assert after[index[i]..end] == neighs[index[i]..end];
      assert after[..index[i]] == before[..index[i]] && after[index[i + 1]..] == before[index[i + 1]..];
      forall r: nat | r < n && r != i
        ensures r > i ==> HasRow(index, after, r, rows[r])
        ensures r < i ==> FrontIs(index, after, r, diffs[r], Squish(rows[r], r))
      {
        if r > i {
          assert HasRow(index, before, r, rows[r]) && index[i + 1] <= index[r];
          SliceStays(before, after, index[r], index[r + 1], index[i], index[i + 1]);
        } else {
          assert FrontIs(index, before, r, diffs[r], Squish(rows[r], r)) && index[r + 1] <= index[i];
          SliceStays(before, after, index[r], index[r] + diffs[r], index[i], index[i + 1]);
        }
      }
    }
  }

  /** Copies the fronts of the rows into a new array without gaps. */
  method SquishCSR(index: seq<nat>, neighs: array<NodeWeight>, n: nat, ghost rows: seq<seq<NodeWeight>>, blockSize: nat)
    returns (sqIndex: seq<nat>, sqNeighs: array<NodeWeight>)
    requires |index| == n + 1 && Indexes(index, neighs.Length) && |rows| == n && blockSize > 0
    requires forall r: nat :: r < n ==> HasRow(index, neighs[..], r, rows[r])
    modifies neighs
    ensures fresh(sqNeighs) && |sqIndex| == n + 1 && Indexes(sqIndex, sqNeighs.Length)
    ensures forall r: nat :: r < n ==> HasRow(sqIndex, sqNeighs[..], r, Squish(rows[r], r))
  {
    hide Squish, SumTo;
    var diffs := SquishFronts(index, neighs, n, rows);
    var offsets := ParallelPrefixSum(diffs, blockSize);
    sqIndex := offsets[..];
    SumsIndex(diffs[..], sqIndex);
    forall r: nat | r < n
      ensures sqIndex[r + 1] == sqIndex[r] + diffs[r]
    {
      SumNext(diffs[..], r);
    }
    sqNeighs := new NodeWeight[offsets[n]];
    CopyFronts(index, neighs, sqIndex, sqNeighs, diffs[..], n, rows);
  }

  ghost predicate Fronts(index: seq<nat>, neighs: seq<NodeWeight>, diffs: seq<nat>, rows: seq<seq<NodeWeight>>) {
    |diffs| == |rows| && forall r: nat :: r < |rows| ==> FrontIs(index, neighs, r, diffs[r], Squish(rows[r], r))
  }

  method CopyFronts(index: seq<nat>, neighs: array<NodeWeight>, sqIndex: seq<nat>, sqNeighs: array<NodeWeight>,
                    diffs: seq<nat>,
                    n: nat, ghost rows: seq<seq<NodeWeight>>)
    requires neighs != sqNeighs && |sqIndex| == n + 1 && Indexes(sqIndex, sqNeighs.Length) && |rows| == n == |diffs|
    requires Fronts(index, neighs[..], diffs, rows) && forall r: nat :: r < n ==>
          sqIndex[r + 1] == sqIndex[r] + diffs[r]
    modifies sqNeighs
    ensures forall r: nat :: r < n ==> HasRow(sqIndex, sqNeighs[..], r, Squish(rows[r], r))
  {
    hide Squish;
    for i := 0 to n
      invariant forall r: nat :: r < i ==> HasRow(sqIndex, sqNeighs[..], r, Squish(rows[r], r))
    {
      ghost var before := sqNeighs[..];
      assert FrontIs(index, neighs[..], i, diffs[i], Squish(rows[i], i));
      var next := sqIndex[i + 1];
      assert next == sqIndex[i] + diffs[i] && next <= sqIndex[n];
      CopyRow(neighs, index[i], sqNeighs, sqIndex[i], diffs[i]);
      ghost var after := sqNeighs[..];
      assert neighs[index[i]..index[i] + diffs[i]] == neighs[..][index[i]..index[i] + diffs[i]];
      RowCopied(sqIndex, before, after, i, rows);
    }
  }

  lemma RowCopied(sqIndex: seq<nat>, before: seq<NodeWeight>, after: seq<NodeWeight>, i: nat,
                  rows: seq<seq<NodeWeight>>)
    requires |sqIndex| == |rows| + 1 && Indexes(sqIndex, |before|) && i < |rows| && |after| == |before|
    requires sqIndex[i] <= sqIndex[i + 1] <= |before| && after[sqIndex[i]..sqIndex[i + 1]] == Squish(rows[i], i)
    requires after[..sqIndex[i]] == before[..sqIndex[i]] && after[sqIndex[i + 1]..] == before[sqIndex[i + 1]..]
    requires forall r: nat :: r < i ==> HasRow(sqIndex, before, r, Squish(rows[r], r))
    ensures forall r: nat :: r <= i ==> HasRow(sqIndex, after, r, Squish(rows[r], r))
  {
    hide Squish;
    forall r: nat | r < i
      ensures HasRow(sqIndex, after, r, Squish(rows[r], r))
    {
      assert HasRow(sqIndex, before, r, Squish(rows[r], r)) && sqIndex[r + 1] <= sqIndex[i];
      SliceStays(before, after, sqIndex[r], sqIndex[r + 1], sqIndex[i], sqIndex[i + 1]);
    }
  }

  method CopyRow(from: array<NodeWeight>, low: nat, to: array<NodeWeight>, at: nat, n: nat)
    requires from != to && low + n <= from.Length && at + n <= to.Length
    modifies to
    ensures to[at..at + n] == from[low..low + n] && to[..at] == old(to[..at]) && to[at + n..] == old(to[at + n..])
  {
    for k := 0 to n
      invariant to[at..at + k] == from[low..low + k] && to[..at] == old(to[..at]) && to[at + n..] == old(to[at + n..])
    {
      to[at + k] := from[low + k];
    }
  }
}
