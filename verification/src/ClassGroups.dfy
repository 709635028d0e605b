/** Grouping the training points by class: a counting sort that keeps the points of a class in their order. */
module ClassGroups {

  /** The indices below n with the given label, in order. */
  ghost function Members(y: seq<int>, lab: int, n: nat): seq<nat>
    requires n <= |y|
  {
    if n == 0 then [] else if y[n - 1] == lab then Members(y, lab, n - 1) + [n - 1] else Members(y, lab, n - 1)
  }

  lemma {:induction false} MembersAre(y: seq<int>, lab: int, n: nat)
    requires n <= |y|
    ensures forall i: nat :: i in Members(y, lab, n) <==> i < n && y[i] == lab
    ensures forall a, b :: 0 <= a < b < |Members(y, lab, n)| ==> Members(y, lab, n)[a] < Members(y, lab, n)[b]
  {
    if n > 0 {
      MembersAre(y, lab, n - 1);
      var rest := Members(y, lab, n - 1);
      assert forall a :: 0 <= a < |rest| ==> rest[a] in rest;
    }
  }

  lemma {:induction false} NoMembers(y: seq<int>, lab: int, n: nat)
    requires n <= |y| && forall i :: 0 <= i < n ==> y[i] != lab
    ensures Members(y, lab, n) == []
  {
    if n > 0 {
      NoMembers(y, lab, n - 1);
    }
  }

  lemma {:induction false} MembersGrow(y: seq<int>, lab: int, m: nat, n: nat)
    requires m <= n <= |y|
    ensures |Members(y, lab, m)| <= |Members(y, lab, n)|
    ensures m < n && y[m] == lab ==> |Members(y, lab, m)| < |Members(y, lab, n)|
  {
    if m < n {
      MembersGrow(y, lab, m, n - 1);
    }
  }

  ghost function Base(count: seq<nat>, c: nat): nat
    requires c <= |count|
  {
    if c == 0 then 0 else Base(count, c - 1) + count[c - 1]
  }

  lemma {:induction false} BaseAgree(a: seq<nat>, b: seq<nat>, c: nat)
    requires c <= |a| && c <= |b| && a[..c] == b[..c]
    ensures Base(a, c) == Base(b, c)
  {
    if c > 0 {
      assert a[..c - 1] == a[..c][..c - 1] && b[..c - 1] == b[..c][..c - 1];
      assert a[c - 1] == a[..c][c - 1] && b[c - 1] == b[..c][c - 1];
      BaseAgree(a, b, c - 1);
    }
  }

  lemma {:induction false} BaseBump(count: seq<nat>, j: nat, c: nat)
    requires j < c <= |count|
    ensures Base(count[j := count[j] + 1], c) == Base(count, c) + 1
  {
    var more := count[j := count[j] + 1];
    if j == c - 1 {
      assert more[..j] == count[..j];
      BaseAgree(more, count, j);
    } else {
      BaseBump(count, j, c - 1);
    }
  }

  lemma {:induction false} BaseGrows(count: seq<nat>, b: nat, c: nat)
    requires b < c <= |count|
    ensures Base(count, b) + count[b] <= Base(count, c)
  {
    if b < c - 1 {
      BaseGrows(count, b, c - 1);
    }
  }

  /** The labels are the different ones that occur, with their numbers of occurrences below n. */
  ghost predicate Labels(y: seq<int>, n: nat, labels: seq<int>, count: seq<nat>)
    requires n <= |y|
  {
    && |labels| == |count| && Base(count, |count|) == n
    && (forall b, c :: 0 <= b < c < |labels| ==> labels[b] != labels[c])
    && (forall i :: 0 <= i < n ==> y[i] in labels)
    && (forall c :: 0 <= c < |count| ==> count[c] == |Members(y, labels[c], n)| > 0)
  }

  /** Where each label occurs first; the labels come in this order. */
  ghost predicate FirstOccurrences(y: seq<int>, n: nat, labels: seq<int>, first: seq<nat>)
    requires n <= |y|
  {
    && |first| == |labels|
    && (forall c :: 0 <= c < |first| ==> first[c] < n && y[first[c]] == labels[c])
    && (forall c, i :: 0 <= c < |first| && 0 <= i < first[c] ==> y[i] != labels[c])
    && (forall b, c :: 0 <= b < c < |first| ==> first[b] < first[c])
  }

  /** The stretch from `low` to `high` holds the points below n with the label, in order. */
  ghost predicate FilledTo(y: seq<int>, n: nat, lab: int, low: nat, high: nat, perm: seq<nat>)
    requires n <= |y|
  {
    high == low + |Members(y, lab, n)| && high <= |perm| && perm[low..high] == Members(y, lab, n)
  }

  /** The result: class c has the points with its label, in order, as one stretch of the permutation. */
  ghost predicate Grouped(y: seq<int>, labels: seq<int>, start: seq<nat>, count: seq<nat>, perm: seq<nat>) {
    && Labels(y, |y|, labels, count) && |start| == |count| && |perm| == |y|
    && (forall c :: 0 <= c < |start| ==> start[c] == Base(count, c))
    && (forall c :: 0 <= c < |start| ==> FilledTo(y, |y|, labels[c], start[c], start[c] + count[c], perm))
  }

  lemma NewLabel(y: seq<int>, i: nat, labels: seq<int>, count: seq<nat>)
    requires i < |y| && Labels(y, i, labels, count) && y[i] !in labels
    ensures Labels(y, i + 1, labels + [y[i]], count + [1])
  {
    var counts := count + [1];
    assert counts[..|count|] == count[..|count|];
    BaseAgree(counts, count, |count|);
    NoMembers(y, y[i], i);
  }

  lemma NewFirst(y: seq<int>, i: nat, labels: seq<int>, count: seq<nat>, first: seq<nat>)
    requires i < |y| && Labels(y, i, labels, count) && y[i] !in labels && FirstOccurrences(y, i, labels, first)
    ensures FirstOccurrences(y, i + 1, labels + [y[i]], first + [i])
  {
    hide Members, Base;
  }

  lemma OldLabel(y: seq<int>, i: nat, labels: seq<int>, count: seq<nat>, j: nat)
    requires i < |y| && Labels(y, i, labels, count) && j < |labels| && labels[j] == y[i]
    ensures Labels(y, i + 1, labels, count[j := count[j] + 1])
    ensures forall first :: FirstOccurrences(y, i, labels, first) ==> FirstOccurrences(y, i + 1, labels, first)
  {
    BaseBump(count, j, |count|);
  }

  /** The first pass: labels in order of occurrence, their counts, and every point's class. */
  method FindLabels(y: seq<int>) returns (labels: seq<int>, count: seq<nat>, dataLabel: seq<nat>, ghost first: seq<nat>)
    ensures Labels(y, |y|, labels, count) && FirstOccurrences(y, |y|, labels, first)
    ensures PointLabels(y, labels, dataLabel)
  {
    hide Members, Base, Labels, FirstOccurrences;
    labels, count, dataLabel, first := [], [], [], [];
    NoLabels(y);
    for i := 0 to |y|
      invariant Labels(y, i, labels, count) && FirstOccurrences(y, i, labels, first) && |dataLabel| == i
      invariant forall h :: 0 <= h < i ==> dataLabel[h] < |labels| && labels[dataLabel[h]] == y[h]
    {
      var j := 0;
      while j < |labels| && y[i] != labels[j]
        invariant j <= |labels| && forall c :: 0 <= c < j ==> y[i] != labels[c]
      {
        j := j + 1;
      }
      dataLabel := dataLabel + [j];
      SameLength(y, i, labels, count);
      if j == |labels| {
        NewLabel(y, i, labels, count);
        NewFirst(y, i, labels, count, first);
        labels, count, first := labels + [y[i]], count + [1], first + [i];
      } else {
        OldLabel(y, i, labels, count, j);
        count := count[j := count[j] + 1];
      }
    }
  }

  lemma NoLabels(y: seq<int>)
    ensures Labels(y, 0, [], []) && FirstOccurrences(y, 0, [], [])
  {
  }

  method Starts(count: seq<nat>) returns (start: seq<nat>)
    ensures |start| == |count| && forall c :: 0 <= c < |count| ==> start[c] == Base(count, c)
  {
    start := [];
    var next := 0;
    for i := 0 to |count|
      invariant |start| == i && next == Base(count, i) && forall c :: 0 <= c < i ==> start[c] == Base(count, c)
    {
      start := start + [next];
      next := next + count[i];
    }
  }

  /** The stretches filled so far. */
  ghost predicate Filled(y: seq<int>, n: nat, labels: seq<int>, count: seq<nat>, start: seq<nat>, perm: seq<nat>)
    requires n <= |y|
  {
    && |start| == |count| == |labels| && |perm| == |y|
    && forall c :: 0 <= c < |start| ==> FilledTo(y, n, labels[c], Base(count, c), start[c], perm)
  }

  lemma PlaceOne(y: seq<int>, i: nat, labels: seq<int>, count: seq<nat>, start: seq<nat>, perm: seq<nat>, d: nat)
    requires i < |y| && Labels(y, |y|, labels, count) && Filled(y, i, labels, count, start, perm)
    requires d < |labels| && labels[d] == y[i]
    ensures start[d] < |perm|
    ensures Filled(y, i + 1, labels, count, start[d := start[d] + 1], perm[start[d] := i])
  {
    hide Base;
    RoomFor(y, i, labels, count, d);
    var next, placed := start[d := start[d] + 1], perm[start[d] := i];
    forall c | 0 <= c < |start|
      ensures FilledTo(y, i + 1, labels[c], Base(count, c), next[c], placed)
    {
      assert FilledTo(y, i, labels[c], Base(count, c), start[c], perm);
      if c != d {
        RoomFor(y, i, labels, count, c);
        if c < d {
          BaseGrows(count, c, d);
        } else {
          BaseGrows(count, d, c);
        }
        assert placed[Base(count, c)..start[c]] == perm[Base(count, c)..start[c]];
      } else {
        assert placed[Base(count, d)..start[d] + 1] == perm[Base(count, d)..start[d]] + [i];
      }
    }
  }

  lemma RoomFor(y: seq<int>, i: nat, labels: seq<int>, count: seq<nat>, c: nat)
    requires i < |y| && Labels(y, |y|, labels, count) && c < |labels|
    ensures |Members(y, labels[c], i)| <= count[c] && Base(count, c) + count[c] <= |y|
    ensures y[i] == labels[c] ==> |Members(y, labels[c], i)| < count[c]
  {
    MembersGrow(y, labels[c], i, |y|);
    if c < |count| - 1 {
      BaseGrows(count, c, |count|);
    }
  }

  /** The second pass: every point goes to the next free place of its class. */
  method Place(y: seq<int>, labels: seq<int>, count: seq<nat>, dataLabel: seq<nat>) returns (perm: array<nat>)
    requires Labels(y, |y|, labels, count) && PointLabels(y, labels, dataLabel)
    ensures perm.Length == |y|
    ensures forall c :: 0 <= c < |labels| ==>
          FilledTo(y, |y|, labels[c], Base(count, c), Base(count, c) + count[c], perm[..])
  {
    hide Base, Members;
    perm := new nat[|y|];
    var start := Starts(count);
    NothingFilled(y, labels, count, start, perm[..]);
    for i := 0 to |y|
      invariant Filled(y, i, labels, count, start, perm[..])
    {
      PlaceOne(y, i, labels, count, start, perm[..], dataLabel[i]);
      ghost var before := perm[..];
      perm[start[dataLabel[i]]] := i;
      assert perm[..] == before[start[dataLabel[i]] := i];
      start := start[dataLabel[i] := start[dataLabel[i]] + 1];
    }
  }

  lemma NothingFilled(y: seq<int>, labels: seq<int>, count: seq<nat>, start: seq<nat>, perm: seq<nat>)
    requires Labels(y, |y|, labels, count) && |start| == |count| && |perm| == |y|
    requires forall c :: 0 <= c < |count| ==> start[c] == Base(count, c)
    ensures Filled(y, 0, labels, count, start, perm)
  {
    hide Base;
    forall c | 0 <= c < |count|
      ensures FilledTo(y, 0, labels[c], Base(count, c), start[c], perm)
    {
      BaseGrows(count, c, |count|);
    }
  }

  lemma SwapTwo(y: seq<int>, labels: seq<int>, count: seq<nat>)
    requires Labels(y, |y|, labels, count) && |labels| == 2
    ensures Labels(y, |y|, [labels[1], labels[0]], [count[1], count[0]])
  {
    var swapped := [count[1], count[0]];
    assert Base(count, 2) == Base(count, 1) + count[1] && Base(count, 1) == Base(count, 0) + count[0];
    assert Base(swapped, 2) == Base(swapped, 1) + swapped[1] && Base(swapped, 1) == Base(swapped, 0) + swapped[0];
  }

  ghost predicate PointLabels(y: seq<int>, labels: seq<int>, dataLabel: seq<nat>) {
    |dataLabel| == |y| && forall i :: 0 <= i < |y| ==> dataLabel[i] < |labels| && labels[dataLabel[i]] == y[i]
  }

  /** -1 before +1 and nothing else is turned round. */
  method TurnRound(y: seq<int>, labels0: seq<int>, count0: seq<nat>, dataLabel0: seq<nat>)
    returns (labels: seq<int>, count: seq<nat>, dataLabel: seq<nat>)
    requires Labels(y, |y|, labels0, count0) && PointLabels(y, labels0, dataLabel0)
    ensures Labels(y, |y|, labels, count) && PointLabels(y, labels, dataLabel)
    ensures labels == if labels0 == [-1, 1] then [1, -1] else labels0
  {
    hide Labels;
    labels, count, dataLabel := labels0, count0, dataLabel0;
    SameLength(y, |y|, labels, count);
    if |labels| == 2 && labels[0] == -1 && labels[1] == 1 {
      assert labels == [-1, 1];
      SwapTwo(y, labels, count);
      labels, count := [labels[1], labels[0]], [count[1], count[0]];
      dataLabel := seq(|y|, i requires 0 <= i < |y| => if dataLabel[i] == 0 then 1 else 0);
    }
  }

  /** The whole grouping: labels in order of first occurrence, except for -1 and +1 alone. */
  method GroupClasses(y: seq<int>)
    returns (labels: seq<int>, start: seq<nat>, count: seq<nat>, perm: array<nat>, ghost first: seq<nat>)
    ensures Grouped(y, labels, start, count, perm[..])
    ensures FirstOccurrences(y, |y|, labels, first) || (labels == [1, -1] && FirstOccurrences(y, |y|, [-1, 1], first))
    ensures labels != [-1, 1]
  {
    hide Base, Members, Labels, FirstOccurrences, PointLabels, FilledTo;
    var dataLabel;
    labels, count, dataLabel, first := FindLabels(y);
    labels, count, dataLabel := TurnRound(y, labels, count, dataLabel);
    SameLength(y, |y|, labels, count);
    perm := Place(y, labels, count, dataLabel);
    start := Starts(count);
  }

  lemma SameLength(y: seq<int>, n: nat, labels: seq<int>, count: seq<nat>)
    requires n <= |y| && Labels(y, n, labels, count)
    ensures |labels| == |count|
  {
  }

  lemma {:induction false} ClassAt(count: seq<nat>, n: nat, q: nat) returns (c: nat)
    requires n <= |count| && q < Base(count, n)
    ensures c < n && Base(count, c) <= q < Base(count, c) + count[c]
  {
    if q >= Base(count, n - 1) {
      c := n - 1;
    } else {
      c := ClassAt(count, n - 1, q);
    }
  }

  /** The grouping loses no point and doubles none. */
  lemma GroupedIsPermutation(y: seq<int>, labels: seq<int>, start: seq<nat>, count: seq<nat>, perm: seq<nat>)
    requires Grouped(y, labels, start, count, perm)
    ensures forall p :: 0 <= p < |perm| ==> perm[p] < |y|
    ensures forall p, q :: 0 <= p < q < |perm| ==> perm[p] != perm[q]
  {
    hide Base, Members;
    forall p | 0 <= p < |perm|
      ensures perm[p] < |y|
    {
      var c := PointAt(y, labels, start, count, perm, p);
    }
    forall p, q | 0 <= p < q < |perm|
      ensures perm[p] != perm[q]
    {
      var b := PointAt(y, labels, start, count, perm, p);
      var c := PointAt(y, labels, start, count, perm, q);
      if b == c {
        MembersAre(y, labels[b], |y|);
      }
    }
  }

  lemma PointAt(y: seq<int>, labels: seq<int>, start: seq<nat>, count: seq<nat>, perm: seq<nat>, q: nat)
    returns (c: nat)
    requires Grouped(y, labels, start, count, perm) && q < |perm|
    ensures c < |labels| && start[c] <= q < start[c] + count[c] && perm[q] < |y| && y[perm[q]] == labels[c]
    ensures count[c] == |Members(y, labels[c], |y|)| && perm[q] == Members(y, labels[c], |y|)[q - start[c]]
  {
    hide Base, Members;
    c := ClassAt(count, |count|, q);
    assert FilledTo(y, |y|, labels[c], start[c], start[c] + count[c], perm);
    assert perm[q] == perm[start[c]..start[c] + count[c]][q - start[c]];
    MembersAre(y, labels[c], |y|);
    assert perm[q] in Members(y, labels[c], |y|);
  }
}
